/** The Internet checksums: hand-unrolled loops over 16-bit words with deferred carries,
    against the one's-complement sum of RFC 1071. */
module Checksum {
  import opened Octets

  type Word = x: int | 0 <= x < 0x1_0000

  // ---- Words in memory ----

  /** A 16-bit load of two consecutive bytes, on a little- or big-endian host. */
  function Load(le: bool, first: Octet, second: Octet): Word {
    if le then first + 0x100 * second else 0x100 * first + second
  }

  function WordCount(d: seq<Octet>): nat { (|d| + 1) / 2 }

  /** Word i of the data, whose last word is filled up with a zero byte if need be. */
  function WordAt(le: bool, d: seq<Octet>, i: nat): Word
    requires i < WordCount(d)
  {
    Load(le, d[2 * i], if 2 * i + 1 < |d| then d[2 * i + 1] else 0)
  }

  function Words(le: bool, d: seq<Octet>): (ws: seq<Word>)
    ensures |ws| == WordCount(d)
  {
    seq(WordCount(d), i requires 0 <= i < WordCount(d) => WordAt(le, d, i))
  }

  /** Data of an odd length goes on with a zero byte. */
  function Padded(d: seq<Octet>): (p: seq<Octet>)
    ensures |p| % 2 == 0
  {
    if |d| % 2 == 1 then d + [0] else d
  }

  /** The 16-bit words of data of an even length, the first byte low or high as the host has it. */
  function Pairs(le: bool, d: seq<Octet>): (ws: seq<Word>)
    requires |d| % 2 == 0
  {
    seq(|d| / 2, i requires 0 <= i < |d| / 2 =>
      var first: int, second: int := d[2 * i], d[2 * i + 1];
      if le then first + 0x100 * second else 0x100 * first + second)
  }

  /** What the loops add are the words of the padded data. */
  lemma WordsArePairs(le: bool, d: seq<Octet>)
    ensures Words(le, d) == Pairs(le, Padded(d))
  {
    forall i | 0 <= i < WordCount(d)
      ensures Words(le, d)[i] == Pairs(le, Padded(d))[i]
    {
      assert Words(le, d)[i] == WordAt(le, d, i);
    }
  }

  // ---- RFC 1071 ----

  /** One's-complement addition: a carry out of the top goes back in at the bottom. */
  function OnesAdd(a: Word, b: Word): Word { if a + b >= 0x1_0000 then a + b - 0xFFFF else a + b }

  function OnesSum(ws: seq<Word>): Word {
    if ws == [] then 0 else OnesAdd(OnesSum(ws[..|ws| - 1]), ws[|ws| - 1])
  }

  /** The checksum of the standard: the complement of the one's-complement sum. */
  function Rfc1071(ws: seq<Word>): Word { 0xFFFF - OnesSum(ws) }

  function Sum(ws: seq<Word>): nat {
    if ws == [] then 0 else Sum(ws[..|ws| - 1]) + ws[|ws| - 1]
  }

  lemma OnesAddResidue(a: Word, b: nat, w: Word)
    requires a % 0xFFFF == b % 0xFFFF
    ensures OnesAdd(a, w) % 0xFFFF == (b + w) % 0xFFFF
  {
    var sum: int := a + w;
    assert sum % 0xFFFF == (b + w) % 0xFFFF;
    assert (sum - 0xFFFF) % 0xFFFF == sum % 0xFFFF;
  }

  /** The one's-complement sum is the residue of the sum modulo 65535, and is zero (not 65535)
      only when every word is. */
  lemma {:induction false} OnesSumResidue(ws: seq<Word>)
    ensures OnesSum(ws) % 0xFFFF == Sum(ws) % 0xFFFF && (OnesSum(ws) == 0 <==> Sum(ws) == 0)
  {
    if ws != [] {
      OnesSumResidue(ws[..|ws| - 1]);
      OnesAddResidue(OnesSum(ws[..|ws| - 1]), Sum(ws[..|ws| - 1]), ws[|ws| - 1]);
    }
  }

  // ---- The accumulator and its folding ----

  /** The last statements of every routine: two folds of a 32-bit accumulator, then the low
      16 bits of its complement. */
  function Fold(cksum: nat): Word
    requires cksum < 0x1_0000_0000
  {
    var once := cksum / 0x1_0000 + cksum % 0x1_0000;
    var twice := once + once / 0x1_0000;
    0xFFFF - twice % 0x1_0000
  }

  /** What the routines compute from a sequence of words, for any length: the sum in 32 bits, folded. */
  function Computed(ws: seq<Word>): Word { Fold(Sum(ws) % 0x1_0000_0000) }

  lemma FoldResidue(c: nat)
    requires c < 0x1_0000_0000
    ensures (0xFFFF - Fold(c)) % 0xFFFF == c % 0xFFFF && (0xFFFF - Fold(c) == 0 <==> c == 0)
  {
    var hi, lo := c / 0x1_0000, c % 0x1_0000;
    var once := hi + lo;
    assert c == 0xFFFF * hi + once;
    Residue(once, hi);
    var carry := once / 0x1_0000;
    assert carry == 0 || carry == 1;
    var twice := once + carry;
    if carry == 1 {
      assert twice % 0x1_0000 == once - 0xFFFF;
      Residue(once - 0xFFFF, 1);
    }
  }

  lemma Residue(x: int, q: int)
    ensures (0xFFFF * q + x) % 0xFFFF == x % 0xFFFF
  {
  }

  lemma {:induction false} SumBound(ws: seq<Word>)
    ensures Sum(ws) <= 0xFFFF * |ws|
  {
    if ws != [] {
      SumBound(ws[..|ws| - 1]);
    }
  }

  /** Up to 65537 words the accumulator cannot wrap, and deferring the carries to two folds at
      the end computes the checksum of the standard. */
  lemma ComputedIsRfc1071(ws: seq<Word>)
    requires |ws| <= 0x1_0001
    ensures Sum(ws) < 0x1_0000_0000 && Computed(ws) == Rfc1071(ws)
  {
    hide Fold;
    SumBound(ws);
    var s := Sum(ws);
    assert s <= 0xFFFF * 0x1_0001 == 0xFFFF_FFFF;
    assert s % 0x1_0000_0000 == s;
    OnesSumResidue(ws);
    FoldResidue(s);
    SameResidue(OnesSum(ws), 0xFFFF - Fold(s));
  }

  lemma SameResidue(a: Word, b: Word)
    requires a % 0xFFFF == b % 0xFFFF && (a == 0 <==> b == 0)
    ensures a == b
  {
  }

  // Enough words of all ones to wrap the accumulator, and zeros behind them.
  function Wrapping(n: nat): (ws: seq<Word>)
    ensures |ws| == n
  {
    seq<Word>(n, i => if i < 0x1_0002 then 0xFFFF else 0)
  }

  lemma {:induction false} SumOfWrapping(n: nat)
    ensures Sum(Wrapping(n)) == 0xFFFF * if n < 0x1_0002 then n else 0x1_0002
  {
    if n > 0 {
      SumOfWrapping(n - 1);
      assert Wrapping(n)[..n - 1] == Wrapping(n - 1);
    }
  }

  /** The bound is exact: all inputs of n words come out right if and only if n is at most 65537. */
  lemma BoundIsExact(n: nat)
    ensures (forall ws: seq<Word> :: |ws| == n ==> Computed(ws) == Rfc1071(ws)) <==> n <= 0x1_0001
  {
    hide Computed, Rfc1071, Wrapping;
    if n <= 0x1_0001 {
      forall ws: seq<Word> | |ws| == n
        ensures Computed(ws) == Rfc1071(ws)
      {
        ComputedIsRfc1071(ws);
      }
    } else {
      WrappingIsWrong(n);
    }
  }

  lemma WrappingIsWrong(n: nat)
    requires n > 0x1_0001
    ensures Computed(Wrapping(n)) != Rfc1071(Wrapping(n))
  {
    hide Wrapping, OnesSum;
    var ws := Wrapping(n);
    SumOfWrapping(n);
    OnesSumResidue(ws);
    assert Sum(ws) % 0x1_0000_0000 == 0xFFFE;
  }

  /** The checksum that the standard defines for these bytes, on a host of either byte order. */
  function Standard(le: bool, d: seq<Octet>): Word { Rfc1071(Pairs(le, Padded(d))) }

  lemma ResultIsStandard(le: bool, d: seq<Octet>)
    ensures |d| <= 0x2_0002 ==> Computed(Words(le, d)) == Standard(le, d)
  {
    hide Words, Computed, Rfc1071;
    WordsArePairs(le, d);
    if |d| <= 0x2_0002 {
      ComputedIsRfc1071(Words(le, d));
    }
  }

  // ---- The routines ----

  /** The sum of the first k words, over all the data that the accumulator has seen. */
  function SumTo(le: bool, d: seq<Octet>, k: nat): nat
    requires k <= WordCount(d)
  {
    if k == 0 then 0 else SumTo(le, d, k - 1) + WordAt(le, d, k - 1)
  }

  // cksum += d[k], in 32 bits; c0 is what was added before d.
  method AddWord(cksum: nat, le: bool, d: seq<Octet>, k: nat, ghost c0: nat) returns (next: nat)
    requires k < WordCount(d) && cksum == (c0 + SumTo(le, d, k)) % 0x1_0000_0000
    ensures next == (c0 + SumTo(le, d, k + 1)) % 0x1_0000_0000
  {
    next := (cksum + WordAt(le, d, k)) % 0x1_0000_0000;
    AddModulo(c0 + SumTo(le, d, k), WordAt(le, d, k));
  }

  lemma AddModulo(x: nat, w: nat)
    ensures (x % 0x1_0000_0000 + w) % 0x1_0000_0000 == (x + w) % 0x1_0000_0000
  {
  }

  method AddSixteen(cksum: nat, le: bool, d: seq<Octet>, k: nat, ghost c0: nat) returns (next: nat)
    requires 2 * k + 32 <= |d| && cksum == (c0 + SumTo(le, d, k)) % 0x1_0000_0000
    ensures next == (c0 + SumTo(le, d, k + 16)) % 0x1_0000_0000
  {
    hide SumTo, WordAt;
    next := AddWord(cksum, le, d, k, c0);
    next := AddWord(next, le, d, k + 1, c0);
    next := AddWord(next, le, d, k + 2, c0);
    next := AddWord(next, le, d, k + 3, c0);
    next := AddWord(next, le, d, k + 4, c0);
    next := AddWord(next, le, d, k + 5, c0);
    next := AddWord(next, le, d, k + 6, c0);
    next := AddWord(next, le, d, k + 7, c0);
    next := AddWord(next, le, d, k + 8, c0);
    next := AddWord(next, le, d, k + 9, c0);
    next := AddWord(next, le, d, k + 10, c0);
    next := AddWord(next, le, d, k + 11, c0);
    next := AddWord(next, le, d, k + 12, c0);
    next := AddWord(next, le, d, k + 13, c0);
    next := AddWord(next, le, d, k + 14, c0);
    next := AddWord(next, le, d, k + 15, c0);
  }

  method AddTwo(cksum: nat, le: bool, d: seq<Octet>, k: nat, ghost c0: nat) returns (next: nat)
    requires 2 * k + 4 <= |d| && cksum == (c0 + SumTo(le, d, k)) % 0x1_0000_0000
    ensures next == (c0 + SumTo(le, d, k + 2)) % 0x1_0000_0000
  {
    hide SumTo, WordAt;
    next := AddWord(cksum, le, d, k, c0);
    next := AddWord(next, le, d, k + 1, c0);
  }

  method AddFour(cksum: nat, le: bool, d: seq<Octet>, k: nat, ghost c0: nat) returns (next: nat)
    requires 2 * k + 8 <= |d| && cksum == (c0 + SumTo(le, d, k)) % 0x1_0000_0000
    ensures next == (c0 + SumTo(le, d, k + 4)) % 0x1_0000_0000
  {
    hide SumTo, WordAt;
    next := AddWord(cksum, le, d, k, c0);
    next := AddWord(next, le, d, k + 1, c0);
    next := AddWord(next, le, d, k + 2, c0);
    next := AddWord(next, le, d, k + 3, c0);
  }

  // The last of an odd number of bytes becomes the first byte of a zeroed word.
  method AddOdd(cksum: nat, le: bool, d: seq<Octet>, ghost c0: nat) returns (next: nat)
    requires |d| % 2 == 1 && cksum == (c0 + SumTo(le, d, |d| / 2)) % 0x1_0000_0000
    ensures next == (c0 + SumTo(le, d, WordCount(d))) % 0x1_0000_0000
  {
    hide SumTo;
    var answer := [d[|d| - 1], 0];
    next := (cksum + Load(le, answer[0], answer[1])) % 0x1_0000_0000;
    AddModulo(c0 + SumTo(le, d, |d| / 2), WordAt(le, d, |d| / 2));
    SumToNext(le, d, |d| / 2);
  }

  lemma SumToNext(le: bool, d: seq<Octet>, k: nat)
    requires k < WordCount(d)
    ensures SumTo(le, d, k + 1) == SumTo(le, d, k) + WordAt(le, d, k)
  {
  }

  // The unrolled loops over the dlen bytes from word start on: 16 words, 4 words, 1 word at a
  // time, and an odd byte at the end.
  method AddRest(c: nat, le: bool, d: seq<Octet>, start: nat, dlen: nat, ghost c0: nat) returns (cksum: nat)
    requires 2 * start + dlen == |d| && c == (c0 + SumTo(le, d, start)) % 0x1_0000_0000
    ensures cksum == (c0 + SumTo(le, d, WordCount(d))) % 0x1_0000_0000
  {
    hide SumTo, WordAt;
    cksum := c;
    var k, left := start, dlen;
    while left >= 32
      invariant 0 <= left && 2 * k + left == |d| && cksum == (c0 + SumTo(le, d, k)) % 0x1_0000_0000
    {
      cksum := AddSixteen(cksum, le, d, k, c0);
      k := k + 16;
      left := left - 32;
    }
    while left >= 8
      invariant 0 <= left && 2 * k + left == |d| && cksum == (c0 + SumTo(le, d, k)) % 0x1_0000_0000
    {
      cksum := AddFour(cksum, le, d, k, c0);
      k := k + 4;
      left := left - 8;
    }
    while left > 1
      invariant 0 <= left && 2 * k + left == |d| && cksum == (c0 + SumTo(le, d, k)) % 0x1_0000_0000
    {
      cksum := AddWord(cksum, le, d, k, c0);
      k := k + 1;
      left := left - 2;
    }
    if left == 1 {
      cksum := AddOdd(cksum, le, d, c0);
    }
  }

  // A pseudo-header of 6 or 18 words, read before the data.
  method AddHeader12(le: bool, h: seq<Octet>) returns (cksum: nat)
    requires |h| == 12
    ensures cksum == SumTo(le, h, 6) % 0x1_0000_0000
  {
    hide SumTo, WordAt;
    SumToZero(le, h);
    cksum := 0;
    cksum := AddWord(cksum, le, h, 0, 0);
    cksum := AddWord(cksum, le, h, 1, 0);
    cksum := AddWord(cksum, le, h, 2, 0);
    cksum := AddWord(cksum, le, h, 3, 0);
    cksum := AddWord(cksum, le, h, 4, 0);
    cksum := AddWord(cksum, le, h, 5, 0);
  }

  method AddHeader36(le: bool, h: seq<Octet>) returns (cksum: nat)
    requires |h| == 36
    ensures cksum == SumTo(le, h, 18) % 0x1_0000_0000
  {
    hide SumTo, WordAt;
    SumToZero(le, h);
    cksum := 0;
    cksum := AddWord(cksum, le, h, 0, 0);
    cksum := AddWord(cksum, le, h, 1, 0);
    cksum := AddWord(cksum, le, h, 2, 0);
    cksum := AddWord(cksum, le, h, 3, 0);
    cksum := AddWord(cksum, le, h, 4, 0);
    cksum := AddWord(cksum, le, h, 5, 0);
    cksum := AddWord(cksum, le, h, 6, 0);
    cksum := AddWord(cksum, le, h, 7, 0);
    cksum := AddWord(cksum, le, h, 8, 0);
    cksum := AddWord(cksum, le, h, 9, 0);
    cksum := AddWord(cksum, le, h, 10, 0);
    cksum := AddWord(cksum, le, h, 11, 0);
    cksum := AddWord(cksum, le, h, 12, 0);
    cksum := AddWord(cksum, le, h, 13, 0);
    cksum := AddWord(cksum, le, h, 14, 0);
    cksum := AddWord(cksum, le, h, 15, 0);
    cksum := AddWord(cksum, le, h, 16, 0);
    cksum := AddWord(cksum, le, h, 17, 0);
  }

  lemma SumToZero(le: bool, d: seq<Octet>)
    ensures SumTo(le, d, 0) == 0
  {
  }

  lemma {:induction false} SumToWords(le: bool, d: seq<Octet>, k: nat)
    requires k <= WordCount(d)
    ensures SumTo(le, d, k) == Sum(Words(le, d)[..k])
  {
    if k > 0 {
      SumToWords(le, d, k - 1);
      assert Words(le, d)[..k][..k - 1] == Words(le, d)[..k - 1];
    }
  }

  lemma {:induction false} SumConcat(a: seq<Word>, b: seq<Word>)
    ensures Sum(a + b) == Sum(a) + Sum(b)
  {
    if b == [] {
      assert a + b == a;
    } else {
      SumConcat(a, b[..|b| - 1]);
      assert (a + b)[..|a + b| - 1] == a + b[..|b| - 1];
    }
  }

  // The header and the data are summed apart, as one sequence of words.
  lemma SumParts(le: bool, h: seq<Octet>, d: seq<Octet>)
    requires |h| % 2 == 0
    ensures SumTo(le, h, |h| / 2) + SumTo(le, d, WordCount(d)) == Sum(Words(le, h + d))
  {
    hide WordAt;
    SumToWords(le, h, |h| / 2);
    SumToWords(le, d, WordCount(d));
    assert Words(le, h)[..|h| / 2] == Words(le, h) && Words(le, d)[..WordCount(d)] == Words(le, d);
    SumConcat(Words(le, h), Words(le, d));
    WordsConcat(le, h, d);
  }

  lemma WordsConcat(le: bool, h: seq<Octet>, d: seq<Octet>)
    requires |h| % 2 == 0
    ensures Words(le, h + d) == Words(le, h) + Words(le, d)
  {
    hide Load;
    forall i | 0 <= i < WordCount(h + d)
      ensures WordAt(le, h + d, i) == if i < |h| / 2 then WordAt(le, h, i) else WordAt(le, d, i - |h| / 2)
    {
    }
  }

  // The fixed part of a header, word by word.
  method AddHead(c: nat, le: bool, d: seq<Octet>, words: nat, ghost c0: nat) returns (cksum: nat)
    requires (words == 4 || words == 10) && 2 * words <= |d| && c == c0 % 0x1_0000_0000
    ensures cksum == (c0 + SumTo(le, d, words)) % 0x1_0000_0000
  {
    hide SumTo, WordAt;
    SumToZero(le, d);
    cksum := AddFour(c, le, d, 0, c0);
    if words == 10 {
      cksum := AddWord(cksum, le, d, 4, c0);
      cksum := AddWord(cksum, le, d, 5, c0);
      cksum := AddWord(cksum, le, d, 6, c0);
      cksum := AddWord(cksum, le, d, 7, c0);
      cksum := AddWord(cksum, le, d, 8, c0);
      cksum := AddWord(cksum, le, d, 9, c0);
    }
  }

  // The fixed part of a transport header, then the loops.
  method AddFixed(c: nat, le: bool, d: seq<Octet>, words: nat, ghost c0: nat) returns (cksum: nat)
    requires (words == 4 || words == 10) && 2 * words <= |d| && c == c0 % 0x1_0000_0000
    ensures cksum == (c0 + SumTo(le, d, WordCount(d))) % 0x1_0000_0000
  {
    hide SumTo, WordAt;
    cksum := AddHead(c, le, d, words, c0);
    cksum := AddRest(cksum, le, d, words, |d| - 2 * words, c0);
  }

  /** ICMP: no pseudo-header, any length. */
  method InChksumIcmp(le: bool, w: seq<Octet>) returns (r: Word)
    ensures r == Computed(Words(le, w)) && (|w| <= 0x2_0002 ==> r == Standard(le, w))
  {
    hide SumTo, Fold, Standard;
    SumToZero(le, w);
    var cksum := AddRest(0, le, w, 0, |w|, 0);
    SumParts(le, [], w);
    SumToZero(le, []);
    assert [] + w == w;
    ResultIsStandard(le, w);
    r := Fold(cksum);
  }

  /** IPv4 header: at least 20 bytes, in units of four. */
  method InChksumIp(le: bool, d: seq<Octet>) returns (r: Word)
    requires 20 <= |d| && |d| % 4 == 0
    ensures r == Computed(Words(le, d)) && (|d| <= 0x2_0002 ==> r == Standard(le, d))
  {
    hide SumTo, WordAt, Fold, Standard;
    var cksum := AddHead(0, le, d, 10, 0);
    var blen, k := |d| - 20, 10;
    while blen != 0
      invariant 0 <= blen && blen % 4 == 0 && 2 * k + blen == |d|
      invariant cksum == (0 + SumTo(le, d, k)) % 0x1_0000_0000
      decreases blen
    {
      cksum := AddTwo(cksum, le, d, k, 0);
      k := k + 2;
      blen := blen - 4;
    }
    SumToAll(le, d);
    ResultIsStandard(le, d);
    r := Fold(cksum);
  }

  lemma SumToAll(le: bool, d: seq<Octet>)
    ensures SumTo(le, d, WordCount(d)) == Sum(Words(le, d))
  {
    hide SumTo, Words;
    SumParts(le, [], d);
    SumToZero(le, []);
    assert [] + d == d;
  }

  /** TCP over IPv4: a 12-byte pseudo-header and at least 20 bytes of segment. */
  method InChksumTcp(le: bool, h: seq<Octet>, d: seq<Octet>) returns (r: Word)
    requires |h| == 12 && 20 <= |d|
    ensures r == Computed(Words(le, h + d)) && (|h| + |d| <= 0x2_0002 ==> r == Standard(le, h + d))
  {
    hide SumTo, Fold, Standard;
    var cksum := AddHeader12(le, h);
    cksum := AddFixed(cksum, le, d, 10, SumTo(le, h, 6));
    SumParts(le, h, d);
    ResultIsStandard(le, h + d);
    r := Fold(cksum);
  }

  /** TCP over IPv6, with a 36-byte pseudo-header. */
  method InChksumTcp6(le: bool, h: seq<Octet>, d: seq<Octet>) returns (r: Word)
    requires |h| == 36 && 20 <= |d|
    ensures r == Computed(Words(le, h + d)) && (|h| + |d| <= 0x2_0002 ==> r == Standard(le, h + d))
  {
    hide SumTo, Fold, Standard;
    var cksum := AddHeader36(le, h);
    cksum := AddFixed(cksum, le, d, 10, SumTo(le, h, 18));
    SumParts(le, h, d);
    ResultIsStandard(le, h + d);
    r := Fold(cksum);
  }

  /** UDP over IPv4: at least its 8-byte header. */
  method InChksumUdp(le: bool, h: seq<Octet>, d: seq<Octet>) returns (r: Word)
    requires |h| == 12 && 8 <= |d|
    ensures r == Computed(Words(le, h + d)) && (|h| + |d| <= 0x2_0002 ==> r == Standard(le, h + d))
  {
    hide SumTo, Fold, Standard;
    var cksum := AddHeader12(le, h);
    cksum := AddFixed(cksum, le, d, 4, SumTo(le, h, 6));
    SumParts(le, h, d);
    ResultIsStandard(le, h + d);
    r := Fold(cksum);
  }

  /** UDP over IPv6. */
  method InChksumUdp6(le: bool, h: seq<Octet>, d: seq<Octet>) returns (r: Word)
    requires |h| == 36 && 8 <= |d|
    ensures r == Computed(Words(le, h + d)) && (|h| + |d| <= 0x2_0002 ==> r == Standard(le, h + d))
  {
    hide SumTo, Fold, Standard;
    var cksum := AddHeader36(le, h);
    cksum := AddFixed(cksum, le, d, 4, SumTo(le, h, 18));
    SumParts(le, h, d);
    ResultIsStandard(le, h + d);
    r := Fold(cksum);
  }

  /** ICMP for IPv6: a pseudo-header, then data of any length. */
  method InChksumIcmp6(le: bool, h: seq<Octet>, d: seq<Octet>) returns (r: Word)
    requires |h| == 36
    ensures r == Computed(Words(le, h + d)) && (|h| + |d| <= 0x2_0002 ==> r == Standard(le, h + d))
  {
    hide SumTo, Fold, Standard;
    var cksum := AddHeader36(le, h);
    SumToZero(le, d);
    cksum := AddRest(cksum, le, d, 0, |d|, SumTo(le, h, 18));
    SumParts(le, h, d);
    ResultIsStandard(le, h + d);
    r := Fold(cksum);
  }

  // ---- Verification of a received checksum, section 1 and 2 of RFC 1071 ----

  lemma {:induction false} SumUpdate(ws: seq<Word>, i: nat, v: Word)
    requires i < |ws|
    ensures Sum(ws[i := v]) == Sum(ws) - ws[i] + v
  {
    var n := |ws| - 1;
    if i < n {
      SumUpdate(ws[..n], i, v);
      assert ws[i := v][..n] == ws[..n][i := v];
    } else {
      assert ws[i := v][..n] == ws[..n];
    }
  }

  /** A computed checksum stored in its zeroed field makes the receiver compute zero. */
  lemma StoredChecksumVerifies(ws: seq<Word>, i: nat)
    requires i < |ws| && ws[i] == 0
    ensures Rfc1071(ws[i := Rfc1071(ws)]) == 0
  {
    var c := Rfc1071(ws);
    var ws' := ws[i := c];
    OnesSumResidue(ws);
    OnesSumResidue(ws');
    SumUpdate(ws, i, c);
    Complement(OnesSum(ws), Sum(ws));
    SameResidue(OnesSum(ws'), 0xFFFF);
  }

  lemma Complement(o: Word, s: nat)
    requires o % 0xFFFF == s % 0xFFFF
    ensures (s + 0xFFFF - o) % 0xFFFF == 0
  {
    var q := s / 0xFFFF - o / 0xFFFF;
    assert s - o == 0xFFFF * q;
    Residue(0, q + 1);
  }

  /** Which single-word changes a receiver misses: exactly those to a congruent word (zero and
      0xFFFF, or no change) that do not leave every word zero. */
  lemma ChangeDetected(ws: seq<Word>, i: nat, v: Word)
    requires i < |ws| && Rfc1071(ws) == 0
    ensures Rfc1071(ws[i := v]) == 0 <==> v % 0xFFFF == ws[i] % 0xFFFF && Sum(ws[i := v]) > 0
  {
    var ws' := ws[i := v];
    OnesSumResidue(ws);
    OnesSumResidue(ws');
    SumUpdate(ws, i, v);
    DifferenceResidue(Sum(ws), Sum(ws'), ws[i], v);
    assert OnesSum(ws') == 0xFFFF <==> OnesSum(ws') % 0xFFFF == 0 && OnesSum(ws') != 0;
  }

  lemma DifferenceResidue(s: nat, s': nat, w: Word, v: Word)
    requires s % 0xFFFF == 0 && s' == s - w + v
    ensures s' % 0xFFFF == 0 <==> v % 0xFFFF == w % 0xFFFF
  {
    var q := s / 0xFFFF;
    var d: int := v - w;
    assert s' == 0xFFFF * q + d;
    Residue(d, q);
  }

  function Swap(w: Word): Word { w % 0x100 * 0x100 + w / 0x100 }

  lemma SwapResidue(w: Word)
    ensures Swap(w) % 0xFFFF == 0x100 * w % 0xFFFF && (Swap(w) == 0 <==> w == 0)
  {
    assert 0x100 * w == 0xFFFF * (w / 0x100) + Swap(w);
    Residue(Swap(w), w / 0x100);
  }

  lemma SwapAdds(a: Word, b: Word)
    ensures OnesAdd(Swap(a), Swap(b)) == Swap(OnesAdd(a, b))
  {
    hide Swap;
    SwapResidue(a);
    SwapResidue(b);
    SwapResidue(OnesAdd(a, b));
    OnesAddResidue(Swap(a), 0x100 * a, Swap(b));
    var sum: int := a + b;
    Residues(0x100 * a, Swap(b), 0x100 * b);
    TimesResidue(OnesAdd(a, b), sum);
    SameResidue(OnesAdd(Swap(a), Swap(b)), Swap(OnesAdd(a, b)));
  }

  lemma Residues(x: int, y: int, z: int)
    requires y % 0xFFFF == z % 0xFFFF
    ensures (x + y) % 0xFFFF == (x + z) % 0xFFFF
  {
    Residue(x + z, y / 0xFFFF - z / 0xFFFF);
  }

  lemma TimesResidue(o: int, s: int)
    requires o == s || o == s - 0xFFFF
    ensures 0x100 * o % 0xFFFF == 0x100 * s % 0xFFFF
  {
    Residue(0x100 * o, 0x100);
  }

  function SwapAll(ws: seq<Word>): (r: seq<Word>)
    ensures |r| == |ws|
  {
    seq(|ws|, i requires 0 <= i < |ws| => Swap(ws[i]))
  }

  /** Octet-order independence, section 2 (B): swapping the bytes of every word swaps the bytes of
      the sum and of the checksum. */
  lemma {:induction false} SwappedSum(ws: seq<Word>)
    ensures OnesSum(SwapAll(ws)) == Swap(OnesSum(ws)) && Rfc1071(SwapAll(ws)) == Swap(Rfc1071(ws))
  {
    hide Swap, OnesAdd;
    if ws == [] {
      SwapResidue(0);
    } else {
      var n := |ws| - 1;
      SwappedSum(ws[..n]);
      assert SwapAll(ws)[..n] == SwapAll(ws[..n]);
      SwapAdds(OnesSum(ws[..n]), ws[n]);
    }
    SwapComplement(OnesSum(ws));
  }

  lemma SwapComplement(w: Word)
    ensures Swap(0xFFFF - w) == 0xFFFF - Swap(w)
  {
  }

  /** A native 16-bit store. */
  function StoreBytes(le: bool, v: Word): seq<Octet> { if le then [v % 0x100, v / 0x100] else [v / 0x100, v % 0x100] }

  /** Hosts of either byte order compute the same two bytes of checksum from the same data. */
  lemma HostsAgree(d: seq<Octet>)
    ensures StoreBytes(false, Rfc1071(Words(false, d))) == StoreBytes(true, Rfc1071(Words(true, d)))
  {
    hide Swap, Rfc1071, OnesSum, SwapAll, Words, StoreBytes;
    HostWords(d);
    SwappedSum(Words(true, d));
    SwapStored(Rfc1071(Words(true, d)));
  }

  lemma LoadSwapped(first: Octet, second: Octet)
    ensures Load(false, first, second) == Swap(Load(true, first, second))
  {
  }

  lemma HostWords(d: seq<Octet>)
    ensures Words(false, d) == SwapAll(Words(true, d))
  {
    hide Load, Swap;
    forall i | 0 <= i < WordCount(d)
      ensures Words(false, d)[i] == Swap(Words(true, d)[i])
    {
      LoadSwapped(d[2 * i], if 2 * i + 1 < |d| then d[2 * i + 1] else 0);
    }
  }

  lemma SwapStored(w: Word)
    ensures StoreBytes(false, Swap(w)) == StoreBytes(true, w)
  {
  }

  function WithField(d: seq<Octet>, i: nat, field: seq<Octet>): (r: seq<Octet>)
    requires 2 * i + 2 <= |d| && |field| == 2
    ensures |r| == |d|
  {
    d[..2 * i] + field + d[2 * i + 2..]
  }

  /** In a packet of admissible length: writing the routine's own result, in native order, over a
      zeroed field at an even offset makes the routine return zero on the packet. */
  lemma PacketVerifies(le: bool, d: seq<Octet>, i: nat)
    requires 2 * i + 2 <= |d| && WordCount(d) <= 0x1_0001 && d[2 * i] == d[2 * i + 1] == 0
    ensures Computed(Words(le, WithField(d, i, StoreBytes(le, Computed(Words(le, d)))))) == 0
  {
    var c := Computed(Words(le, d));
    var sent := WithField(d, i, StoreBytes(le, c));
    ComputedIsRfc1071(Words(le, d));
    ComputedIsRfc1071(Words(le, sent));
    StoredWord(le, d, i, c);
    StoredChecksumVerifies(Words(le, d), i);
  }

  lemma StoredWord(le: bool, d: seq<Octet>, i: nat, c: Word)
    requires 2 * i + 2 <= |d|
    ensures Words(le, WithField(d, i, StoreBytes(le, c))) == Words(le, d)[i := c]
  {
    var sent := WithField(d, i, StoreBytes(le, c));
    forall j | 0 <= j < WordCount(d)
      ensures WordAt(le, sent, j) == if j == i then c else WordAt(le, d, j)
    {
    }
  }
}
