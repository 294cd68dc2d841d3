/** The chaining layer: a cipher object whose output lags its input by one block. */
module TwofishStream {
  import opened TwofishCipher
  import opened CipherStealing
  import opened TwofishFrame
  import opened HexCodec
  import opened KeySchedule
  import opened TwofishPaper

  /** The bytes of buf with b written over them at offset p. */
  function Splice(buf: seq<bv8>, p: nat, b: seq<bv8>): (r: seq<bv8>)
    requires p + |b| <= |buf|
    ensures |r| == |buf|
  {
    buf[..p] + b + buf[p + |b|..]
  }

  lemma SpliceNext(buf: seq<bv8>, p: nat, b: seq<bv8>, i: nat)
    requires p + |b| <= |buf| && i < |b|
    ensures Splice(buf, p, b[..i])[p + i := b[i]] == Splice(buf, p, b[..i + 1])
    ensures Splice(buf, p, []) == buf
  {
  }

  lemma SpliceHolds(buf: seq<bv8>, p: nat, b: seq<bv8>)
    requires p + |b| <= |buf|
    ensures Splice(buf, p, b)[p..p + |b|] == b
  {
  }

  // A whole block lands in place, and the block before it is then written a second time.
  lemma LagStep(buf: seq<bv8>, k: nat, x: Block)
    requires 16 * k + 16 <= |buf|
    ensures var one := Splice(buf, 16 * k, x);
            && one == buf[..16 * k] + x + buf[16 * (k + 1)..]
            && (k > 0 ==> Splice(one, 16 * (k - 1), buf[16 * (k - 1)..16 * k]) == one)
  {
  }

  lemma SpliceSame(buf: seq<bv8>, p: nat, b: seq<bv8>)
    requires p + |b| <= |buf| && buf[p..p + |b|] == b
    ensures Splice(buf, p, b) == buf
  {
  }

  // A message of whole blocks: the prefix of all n blocks is the result, and ends in the last block.
  lemma LastWhole(s: Schedule, decrypt: bool, m: seq<bv8>, n: nat, buf: seq<bv8>)
    requires s.Valid() && 0 < n && 16 * n == |m| && 16 * n <= |buf|
    requires buf[..16 * n] == if decrypt then PlainPrefix(Opener(s), m, n) else CipherPrefix(Sealer(s), m, n)
    ensures buf[..16 * n] == Stolen(s, decrypt, m)
    ensures buf[16 * (n - 1)..16 * n]
            == if decrypt then PlainAt(Opener(s), m, n - 1) else CipherAt(Sealer(s), m, n - 1)
  {
    hide Sealer, Opener;
    assert |m| % 16 == 0 && |m| / 16 == n;
    if decrypt {
      PlainBefore(Opener(s), m, n);
    } else {
      PrefixBefore(Sealer(s), m, n);
    }
    assert buf[16 * (n - 1)..16 * n] == buf[..16 * n][16 * (n - 1)..];
  }

  lemma PrefixBefore(e: Block -> Block, m: seq<bv8>, k: nat)
    requires 0 < k && 16 * k <= |m|
    ensures CipherPrefix(e, m, k)[..16 * (k - 1)] == CipherPrefix(e, m, k - 1)
    ensures CipherPrefix(e, m, k)[16 * (k - 1)..] == CipherAt(e, m, k - 1)
  {
    hide CipherAt;
  }

  lemma PlainBefore(d: Block -> Block, c: seq<bv8>, k: nat)
    requires 0 < k && 16 * k <= |c|
    ensures PlainPrefix(d, c, k)[..16 * (k - 1)] == PlainPrefix(d, c, k - 1)
    ensures PlainPrefix(d, c, k)[16 * (k - 1)..] == PlainAt(d, c, k - 1)
  {
    hide PlainAt;
  }

  // The final partial block sealed: the last chained block lands on top of its predecessor,
  // whose first bytes follow it.
  lemma SealSteal(e: Block -> Block, m: seq<bv8>, k: nat, buf: seq<bv8>)
    requires 0 < k && 16 * k < |m| < 16 * k + 16 <= |buf|
    requires buf[..16 * k] == CipherPrefix(e, m, k)
    ensures var last, tail := CipherAt(e, m, k), |m| - 16 * k;
            var two := Splice(Splice(buf, 16 * k, last), 16 * (k - 1), last);
            var three := Splice(two, 16 * k, CipherAt(e, m, k - 1)[..tail]);
            && three[..|m|] == StealEncrypt(e, m)
            && three[|m|..16 * (k + 1)] == last[tail..]
            && three[16 * (k + 1)..] == buf[16 * (k + 1)..]
  {
    hide CipherAt, CipherPrefix;
    PrefixBefore(e, m, k);
    assert |m| / 16 == k && |m| % 16 == |m| - 16 * k;
    var last, prev, tail := CipherAt(e, m, k), CipherAt(e, m, k - 1), |m| - 16 * k;
    var head, rest := buf[..16 * (k - 1)], buf[16 * (k + 1)..];
    assert head == buf[..16 * k][..16 * (k - 1)];
    var two := Splice(Splice(buf, 16 * k, last), 16 * (k - 1), last);
    assert two == head + last + last + rest;
    assert Splice(two, 16 * k, prev[..tail]) == head + last + prev[..tail] + last[tail..] + rest;
  }

  // The final partial block opened: it lands in place, then its predecessor and itself are flushed.
  lemma OpenSteal(d: Block -> Block, c: seq<bv8>, k: nat, buf: seq<bv8>, prev: Block, tail: seq<bv8>)
    requires 0 < k && 16 * k < |c| < 16 * k + 16 && |c| <= |buf| && |tail| == |c| - 16 * k
    requires buf[..16 * k] == PlainPrefix(d, c, k)
    ensures var one := Splice(buf, 16 * k, tail);
            var three := Splice(Splice(one, 16 * (k - 1), prev), 16 * k, tail);
            && three[..|c|] == PlainPrefix(d, c, k - 1) + prev + tail
            && three[|c|..] == buf[|c|..]
  {
    hide PlainPrefix, WholeBlock, Splice;
    PlainBefore(d, c, k);
    StealSplices(buf, k, prev, tail);
    assert buf[..16 * (k - 1)] == buf[..16 * k][..16 * (k - 1)];
  }

  lemma TailShape(d: Block -> Block, c: seq<bv8>, k: nat, y: Block)
    requires 0 < k && 16 * k < |c| < 16 * k + 16 && y == d(WholeBlock(c, k - 1))
    ensures |c| % 16 == |c| - 16 * k && Restored(d, c) == c[16 * k..] + y[|c| - 16 * k..]
    ensures Reread(d, c) == XorBytes(c[16 * k..], y[..|c| - 16 * k]) + y[|c| - 16 * k..]
  {
    hide WholeBlock;
    assert |c| / 16 == k;
  }

  /** The last two blocks of plaintext, behind k - 1 others. */
  predicate Recovered(d: Block -> Block, c: seq<bv8>, k: nat, inPlace: bool, prev: Block, tail: seq<bv8>)
    requires 0 < k && 16 * k < |c| < 16 * k + 16
  {
    && prev == XorBytes(d(if inPlace then Reread(d, c) else Restored(d, c)),
                        if k == 1 then ZERO else WholeBlock(c, k - 2))
    && tail == XorBytes(c[16 * k..], d(WholeBlock(c, k - 1))[..|c| - 16 * k])
  }

  lemma StealDecryptParts(d: Block -> Block, c: seq<bv8>, k: nat, inPlace: bool, prev: Block, tail: seq<bv8>)
    requires 0 < k && 16 * k < |c| < 16 * k + 16
    requires Recovered(d, c, k, inPlace, prev, tail)
    ensures (if inPlace then StealDecryptInPlace(d, c) else StealDecrypt(d, c))
            == PlainPrefix(d, c, k - 1) + prev + tail
  {
    hide PlainPrefix, Restored, Reread, XorBytes, WholeBlock;
    assert |c| / 16 == k && |c| % 16 == |c| - 16 * k;
  }

  lemma StealSplices(buf: seq<bv8>, k: nat, prev: Block, tail: seq<bv8>)
    requires 0 < k && 16 * k + |tail| <= |buf|
    ensures var one := Splice(buf, 16 * k, tail);
            Splice(Splice(one, 16 * (k - 1), prev), 16 * k, tail)
            == buf[..16 * (k - 1)] + prev + tail + buf[16 * k + |tail|..]
  {
    var one := Splice(buf, 16 * k, tail);
    var two := Splice(one, 16 * (k - 1), prev);
    assert two == buf[..16 * (k - 1)] + prev + tail + buf[16 * k + |tail|..];
    assert Splice(two, 16 * k, tail) == two;
  }

  lemma ExtentCovers(n: nat, k: nat)
    requires 16 * k < n
    ensures 16 * k + 16 <= Extent(n) && n <= Extent(n)
    ensures n <= 16 * k + 16 ==> Extent(n) == 16 * k + 16
    ensures n < 16 * k + 16 ==> n / 16 == k && n % 16 == n - 16 * k
    ensures n == 16 * k + 16 ==> n % 16 == 0
  {
  }

  /** How far into its output a message writes. */
  function WriteEnd(decrypt: bool, n: nat): nat { if decrypt then n else Extent(n) }

  lemma WriteEndCovers(decrypt: bool, n: nat, k: nat)
    requires 16 * k + 16 < n
    ensures 16 * k + 16 <= WriteEnd(decrypt, n)
  {
    ExtentCovers(n, k);
  }

  lemma FramedCovers(len: nat)
    requires 0 < len
    ensures WriteEnd(false, 16 + len) == Extent(16 + len) >= 16 + len
    ensures (16 + len) % 16 == 0 <==> len % 16 == 0
  {
  }

  lemma LastCovers(s: Schedule, decrypt: bool, m: seq<bv8>, k: nat)
    requires s.Valid() && 16 * k < |m| <= 16 * k + 16
    ensures WriteEnd(decrypt, |m|) == (if decrypt then |m| else 16 * k + 16) && Extent(|m|) == 16 * k + 16
    ensures |m| % 16 == 0 <==> |m| == 16 * k + 16
    ensures |m| < 16 * k + 16 ==> Overrun(s, m) == CipherAt(Sealer(s), m, k)[|m| - 16 * k..]
  {
    hide CipherAt;
    ExtentCovers(|m|, k);
  }

  lemma SameTail(a: seq<bv8>, b: seq<bv8>, i: nat, j: nat)
    requires |a| == |b| && i <= j <= |a| && a[i..] == b[i..]
    ensures a[j..] == b[j..]
  {
    assert a[j..] == a[i..][j - i..] && b[j..] == b[i..][j - i..];
  }

  // The input still to be read is the rest of the message: its first block, and what follows.
  lemma NextBlock(data: seq<bv8>, pos: nat, len: nat, m: seq<bv8>, at: nat)
    requires pos + 16 < len <= |data| && at + len - pos == |m| && data[pos..len] == m[at..]
    ensures data[pos..pos + 16] == m[at..at + 16] && data[pos + 16..len] == m[at + 16..]
  {
    assert data[pos..pos + 16] == data[pos..len][..16];
    assert data[pos + 16..len] == data[pos..len][16..];
  }

  lemma SameRest(a: seq<bv8>, b: seq<bv8>, i: nat, j: nat)
    requires |a| == |b| && i <= j <= |a| && a[i..] == b[i..]
    ensures a[i..j] == b[i..j]
  {
    assert a[i..j] == a[i..][..j - i] && b[i..j] == b[i..][..j - i];
  }

  lemma SliceOfSuffix(m: seq<bv8>, at: nat, i: nat, j: nat)
    requires at <= |m| && i <= j <= |m| - at
    ensures m[at..][i..j] == m[at + i..at + j]
    ensures m[at..][i..] == m[at + i..]
  {
  }

  const DEFAULT_TEXT: string := "SnortHas2FishEncryptionRoutines!"

  function Character(c: char): bv8 { (c as int % 0x100) as bv8 }

  /** The bytes of a text. */
  function Characters(text: string): (r: seq<bv8>)
    ensures |r| == |text|
  {
    seq(|text|, i requires 0 <= i < |text| => Character(text[i]))
  }

  /** The password that is used: the first 32 characters given, or the default. */
  function Password(userkey: seq<bv8>): (r: seq<bv8>)
    ensures 0 < |r| <= KEY_LENGTH
  {
    if userkey == [] then Characters(DEFAULT_TEXT)
    else if |userkey| > KEY_LENGTH then userkey[..KEY_LENGTH] else userkey
  }

  /** The password, repeated without end, fills the key. */
  predicate Repeats(key: seq<bv8>, tkey: seq<bv8>) {
    forall i :: 0 <= i < |key| ==> RepeatsAt(key, tkey, i)
  }

  predicate RepeatsAt(key: seq<bv8>, tkey: seq<bv8>, i: nat)
    requires i < |key|
  {
    key[i] == if i < |tkey| then tkey[i] else key[i - |tkey|]
  }

  /** The key of a password: its characters over and over, for 32 bytes. Without one the default is used. */
  function KeyOf(userkey: seq<bv8>): (key: seq<bv8>)
    ensures |key| == 32
  {
    var source := if userkey == [] then Characters(DEFAULT_TEXT) else userkey;
    seq(32, i requires 0 <= i < 32 => source[i % |source|])
  }

  lemma {:induction false} RepeatsAll(key: seq<bv8>, tkey: seq<bv8>, i: nat)
    requires Repeats(key, tkey) && i < |key| && 0 < |tkey|
    ensures key[i] == tkey[i % |tkey|]
    decreases i
  {
    hide Repeats;
    RepeatsHere(key, tkey, i);
    RemainderIs(i, |tkey|);
    if i >= |tkey| {
      RepeatsAll(key, tkey, i - |tkey|);
    }
  }

  lemma RemainderIs(i: nat, n: nat)
    requires 0 < n
    ensures 0 <= i % n < n && i % n == if i < n then i else (i - n) % n
  {
    if i >= n {
      RemainderBelow(i, n);
    }
  }

  lemma RepeatsHere(key: seq<bv8>, tkey: seq<bv8>, i: nat)
    requires Repeats(key, tkey) && i < |key|
    ensures key[i] == if i < |tkey| then tkey[i] else key[i - |tkey|]
  {
    assert RepeatsAt(key, tkey, i);
  }

  lemma RemainderBelow(i: nat, n: nat)
    requires 0 < n <= i
    ensures (i - n) % n == i % n
  {
    var q, p := i / n, (i - n) / n;
    var r, t := i % n, (i - n) % n;
    assert i == n * q + r && i - n == n * p + t;
    SameQuotient(n, q - p - 1, t - r) by {
      assert n * (q - p - 1) == n * q - n * p - n;
    }
  }

  lemma SameQuotient(n: int, k: int, d: int)
    requires n * k == d && -n < d < n
    ensures d == 0
  {
    MultipleIsFar(n, k);
  }

  lemma MultipleIsFar(n: int, k: int)
    requires 0 < n
    ensures k == 0 || n * k >= n || n * k <= -n
  {
  }

  lemma KeyIsRepeated(key: seq<bv8>, userkey: seq<bv8>)
    requires |key| == KEY_LENGTH && Repeats(key, Password(userkey))
    ensures key == KeyOf(userkey)
  {
    hide Repeats;
    var source := if userkey == [] then Characters(DEFAULT_TEXT) else userkey;
    forall i | 0 <= i < 32
      ensures key[i] == KeyOf(userkey)[i]
    {
      RepeatsAll(key, Password(userkey), i);
      if |userkey| > KEY_LENGTH {
        assert i % |userkey| == i && i % 32 == i;
      }
    }
  }

  method FillKey(tkey: seq<bv8>) returns (key: seq<bv8>)
    requires 0 < |tkey|
    ensures |key| == KEY_LENGTH && Repeats(key, tkey)
  {
    key := [];
    var x := 0;
    ghost var base := 0;  // where the current copy starts
    while |key| < KEY_LENGTH
      invariant |key| <= KEY_LENGTH && 0 <= x < |tkey|
      invariant Copying(key, tkey, base, x)
      invariant Repeats(key, tkey)
      decreases KEY_LENGTH - |key|
    {
      CopyNext(key, tkey, base, x);
      key := key + [tkey[x]];
      x := x + 1;
      if x == |tkey| {
        base := base + x;
        x := 0;
      }
    }
  }

  // x characters of the copy at base are in place, and the copy before it is whole.
  predicate Copying(key: seq<bv8>, tkey: seq<bv8>, base: nat, x: nat) {
    && |key| == base + x && x <= |tkey|
    && (forall i :: base <= i < |key| ==> key[i] == tkey[i - base])
    && (base == 0 || (base >= |tkey| && forall i :: base - |tkey| <= i < base ==> key[i] == tkey[i - (base - |tkey|)]))
  }

  lemma CopyNext(key: seq<bv8>, tkey: seq<bv8>, base: nat, x: nat)
    requires x < |tkey| && Copying(key, tkey, base, x) && Repeats(key, tkey)
    ensures var next := key + [tkey[x]];
            && Repeats(next, tkey)
            && (if x + 1 == |tkey| then Copying(next, tkey, base + |tkey|, 0) else Copying(next, tkey, base, x + 1))
  {
    var next := key + [tkey[x]];
    assert base > 0 ==> key[|key| - |tkey|] == tkey[x];
    forall i | 0 <= i < |next|
      ensures RepeatsAt(next, tkey, i)
    {
      assert i < |key| ==> RepeatsAt(key, tkey, i);
    }
    if x + 1 == |tkey| {
      assert forall i :: base <= i < base + |tkey| ==> next[i] == tkey[i - base];
    }
  }

  class TwoFish {
    var schedule: Schedule
    var output: array?<bv8>  // the output pointer of the C struct is &output[outPos]
    var outPos: nat
    var qBlockPlain: Block
    var qBlockCrypt: Block
    var prevCipher: Block
    var header: Block
    var qBlockDefined: bool
    var dontflush: bool

    constructor (t: Tables, userkey: seq<bv8>)
      ensures schedule.Valid() && !dontflush && output == null
      ensures forall j :: 0 <= j < TOTAL_SUBKEYS ==> schedule.subKeys[j] == SubKey(t, KeyOf(userkey), j)
      ensures forall x :: schedule.g0(x) == F32(t, 4, x, SBoxWords(KeyOf(userkey)))
      ensures forall x :: schedule.g3(x) == F32(t, 4, Rol8(x), SBoxWords(KeyOf(userkey)))
      ensures forall b: Block :: Encrypt(schedule, b) == Twofish(t, KeyOf(userkey), b)
    {
      hide F32, SubKey, Fe320, Fe323, SBoxWords, Expanded, Rol8, Password, Repeats, KeyOf, Encrypt, Twofish;
      var key := FillKey(Password(userkey));
      KeyIsRepeated(key, userkey);
      WordCounts(key);
      var sBox, subKeys := MakeSubKeys(t, key);
      forall x: bv32
        ensures var s := ScheduleOf(sBox, subKeys);
                s.g0(x) == F32(t, 4, x, SBoxWords(key)) && s.g3(x) == F32(t, 4, Rol8(x), SBoxWords(key))
      {
        ScheduleIsH(t, key, sBox, subKeys, x);
      }
      forall b: Block
        ensures Encrypt(ScheduleOf(sBox, subKeys), b) == Twofish(t, key, b)
      {
        ScheduleIsPaper(t, key, ScheduleOf(sBox, subKeys), b);
      }
      schedule := ScheduleOf(sBox, subKeys);
      qBlockDefined, qBlockPlain := false, ZERO;
      output := null;
      dontflush := false;
    }

    method FlushOutput(b: seq<bv8>)
      requires output != null && (!dontflush ==> outPos + |b| <= output.Length)
      modifies output, this`outPos, this`dontflush
      ensures !dontflush
      ensures outPos == if old(dontflush) then old(outPos) else old(outPos) + |b|
      ensures output[..] == if old(dontflush) then old(output[..]) else Splice(old(output[..]), old(outPos), b)
    {
      ghost var before, at := output[..], outPos;
      var i := 0;
      while i < |b| && !dontflush
        invariant 0 <= i <= |b| && dontflush == old(dontflush)
        invariant dontflush ==> i == 0 && output[..] == before
        invariant outPos == at + i
        invariant !dontflush ==> output[..] == Splice(before, at, b[..i])
      {
        SpliceNext(before, at, b, i);
        output[outPos] := b[i];
        outPos := outPos + 1;
        i := i + 1;
      }
      assert b[..|b|] == b;
      dontflush := false;
    }

    ghost predicate Ready()
      reads this
    {
      output != null && schedule.Valid() && !dontflush
    }

    /** k blocks of message m have entered encryption; all but the last have left it. */
    ghost predicate Sealing(m: seq<bv8>, k: nat)
      reads this, output
    {
      && Ready()
      && 16 * k <= |m| && 16 * k <= output.Length
      && qBlockDefined == (k > 0)
      && outPos == (if k == 0 then 0 else 16 * (k - 1))
      && (k > 0 ==> qBlockCrypt == CipherAt(Sealer(schedule), m, k - 1))
      && output[..16 * k] == CipherPrefix(Sealer(schedule), m, k)
    }

    /** k blocks of ciphertext c have entered decryption; all but the last have left it. */
    ghost predicate Opening(c: seq<bv8>, k: nat)
      reads this, output
    {
      && Ready()
      && 16 * k <= |c| && 16 * k <= output.Length
      && qBlockDefined == (k > 0)
      && outPos == (if k == 0 then 0 else 16 * (k - 1))
      && qBlockPlain == (if k == 0 then ZERO else WholeBlock(c, k - 1))
      && (k > 0 ==> qBlockCrypt == PlainAt(Opener(schedule), c, k - 1))
      && (k > 0 ==> prevCipher == if k == 1 then ZERO else WholeBlock(c, k - 2))
      && output[..16 * k] == PlainPrefix(Opener(schedule), c, k)
    }

    method QBlockPush(p: Block, c: Block)
      requires Ready() && (qBlockDefined ==> outPos + 16 <= output.Length)
      modifies output, this`outPos, this`dontflush
      modifies this`qBlockPlain, this`qBlockCrypt, this`prevCipher, this`qBlockDefined
      ensures Ready() && qBlockDefined
      ensures qBlockPlain == p && qBlockCrypt == c && prevCipher == old(qBlockPlain)
      ensures outPos == if old(qBlockDefined) then old(outPos) + 16 else old(outPos)
      ensures output[..] == if old(qBlockDefined) then Splice(old(output[..]), old(outPos), old(qBlockCrypt))
                            else old(output[..])
    {
      if qBlockDefined {
        FlushOutput(qBlockCrypt);
      }
      prevCipher := qBlockPlain;
      qBlockPlain := p;
      qBlockCrypt := c;
      qBlockDefined := true;
    }

    method QBlockPop() returns (p: Block, c: Block)
      modifies this`qBlockDefined
      ensures !qBlockDefined && p == qBlockPlain && c == qBlockCrypt
    {
      p := qBlockPlain;
      c := qBlockCrypt;
      qBlockDefined := false;
    }

    method ResetCBC()
      modifies this`qBlockPlain, this`qBlockDefined
      ensures !qBlockDefined && qBlockPlain == ZERO
    {
      qBlockDefined := false;
      qBlockPlain := ZERO;
    }

    // memcpy(output + p, b, |b|)
    method CopyOut(p: nat, b: seq<bv8>)
      requires output != null && p + |b| <= output.Length
      modifies output
      ensures output[..] == Splice(old(output[..]), p, b)
    {
      forall i | 0 <= i < |b| {
        output[p + i] := b[i];
      }
    }

    /** One whole block of encryption. */
    method SealBlock(input: Block, at: nat, ghost m: seq<bv8>, ghost k: nat)
      requires Sealing(m, k) && at == 16 * k && at + 16 <= |m| && at + 16 <= output.Length
      requires input == WholeBlock(m, k)
      modifies output, this`outPos, this`dontflush
      modifies this`qBlockPlain, this`qBlockCrypt, this`prevCipher, this`qBlockDefined
      ensures Sealing(m, k + 1)
      ensures output[at + 16..] == old(output[at + 16..])
    {
      hide Encrypt, Decrypt, XorBytes, CipherAt;
      ghost var e, buf := Sealer(schedule), output[..];
      var pn := input;
      if qBlockDefined {
        pn := XorBytes(input, qBlockCrypt);
      }
      var res := BlockCrypt16(schedule, pn, false);
      assert res == CipherAt(e, m, k) by { CipherStep(schedule, m, k, pn, res); }
      CopyOut(at, res);
      LagStep(buf, k, res);
      if k > 0 {
        PrefixBefore(e, m, k);
        assert buf[16 * (k - 1)..16 * k] == buf[..16 * k][16 * (k - 1)..];
      }
      QBlockPush(pn, res);
    }

    /** The final partial block of encryption, with ciphertext stealing. */
    method SealTail(input: seq<bv8>, at: nat, ghost m: seq<bv8>, ghost k: nat)
      requires Sealing(m, k) && 0 < k && at == 16 * k && at + 16 <= output.Length
      requires 0 < |input| < 16 && at + |input| == |m| && input == m[at..]
      modifies output, this`outPos, this`dontflush
      modifies this`qBlockPlain, this`qBlockCrypt, this`prevCipher, this`qBlockDefined
      ensures Ready() && !qBlockDefined && outPos == |m|
      ensures output[..|m|] == StealEncrypt(Sealer(schedule), m)
      ensures output[|m|..at + 16] == CipherAt(Sealer(schedule), m, k)[|input|..]
      ensures output[at + 16..] == old(output[at + 16..])
    {
      hide Encrypt, Decrypt, XorBytes, CipherAt, Splice, StealEncrypt;
      ghost var buf := output[..];
      var pnMinusOne, cnMinusOne := QBlockPop();
      var pn: Block := input + ZERO[..16 - |input|];
      pn := XorBytes(pn, cnMinusOne);
      var res := BlockCrypt16(schedule, pn, false);
      CipherStep(schedule, m, k, pn, res);
      CopyOut(at, res);
      QBlockPush(pn, res);
      FlushOutput(qBlockCrypt);
      FlushOutput(cnMinusOne[..|input|]);
      SealSteal(Sealer(schedule), m, k, buf);
      qBlockDefined := false;
    }

    /** One whole block of decryption. */
    method OpenBlock(input: Block, at: nat, ghost c: seq<bv8>, ghost k: nat)
      requires Opening(c, k) && at == 16 * k && at + 16 <= |c| && at + 16 <= output.Length
      requires input == WholeBlock(c, k)
      modifies output, this`outPos, this`dontflush
      modifies this`qBlockPlain, this`qBlockCrypt, this`prevCipher, this`qBlockDefined
      ensures Opening(c, k + 1)
      ensures output[at + 16..] == old(output[at + 16..])
    {
      hide Encrypt, Decrypt, XorBytes;
      ghost var d, buf := Opener(schedule), output[..];
      var res := BlockCrypt16(schedule, input, true);
      if qBlockDefined {
        res := XorBytes(res, qBlockPlain);
      }
      assert res == PlainAt(d, c, k) by { XorZero(Decrypt(schedule, input)); }
      CopyOut(at, res);
      LagStep(buf, k, res);
      if k > 0 {
        PlainBefore(d, c, k);
        assert buf[16 * (k - 1)..16 * k] == buf[..16 * k][16 * (k - 1)..];
      }
      QBlockPush(input, res);
    }

    /** The final partial block of decryption, into its place, and the block that stealing displaced. The
        input is read twice; in place, the second time it has been overwritten. */
    method RecoverTail(input: seq<bv8>, at: nat, inPlace: bool, ghost c: seq<bv8>, ghost k: nat)
      returns (pn: seq<bv8>, cnMinusOne: Block, pnMinusOne: Block)
      requires Opening(c, k) && 0 < k && at == 16 * k
      requires 0 < |input| < 16 && at + |input| == |c| && input == c[at..] && |c| <= output.Length
      modifies output, this`qBlockDefined
      ensures !qBlockDefined && |pn| == |input| && Recovered(Opener(schedule), c, k, inPlace, pnMinusOne, pn)
      ensures output[..] == Splice(old(output[..]), at, pn)
    {
      hide Encrypt, Decrypt, XorBytes, PlainAt, PlainPrefix, Splice, Restored, Reread, WholeBlock;
      ghost var d, buf := Opener(schedule), output[..];
      var waiting, _ := QBlockPop();
      var cbcPlusCprime := BlockCrypt16(schedule, waiting, true);
      TailShape(d, c, k, cbcPlusCprime);
      pn := XorBytes(input, cbcPlusCprime[..|input|]);
      CopyOut(at, pn);
      var again := input;
      if inPlace {
        SpliceHolds(buf, at, pn);
        again := output[at..at + |input|];
      }
      cnMinusOne := again + cbcPlusCprime[|input|..];
      pnMinusOne := BlockCrypt16(schedule, cnMinusOne, true);
      pnMinusOne := XorBytes(pnMinusOne, prevCipher);
    }

    method OpenTail(input: seq<bv8>, at: nat, inPlace: bool, ghost c: seq<bv8>, ghost k: nat)
      requires Opening(c, k) && 0 < k && at == 16 * k
      requires 0 < |input| < 16 && at + |input| == |c| && input == c[at..] && |c| <= output.Length
      modifies output, this`outPos, this`dontflush
      modifies this`qBlockPlain, this`qBlockCrypt, this`prevCipher, this`qBlockDefined
      ensures Ready() && !qBlockDefined && outPos == |c|
      ensures output[..|c|] == Written(schedule, true, inPlace, c)
      ensures output[|c|..] == old(output[|c|..])
    {
      hide Encrypt, Decrypt, XorBytes, PlainAt, PlainPrefix, Splice, StealDecrypt, StealDecryptInPlace, Restored,
           Reread, WholeBlock, Opener, Recovered;
      ghost var d, buf := Opener(schedule), output[..];
      var pn, cnMinusOne, pnMinusOne := RecoverTail(input, at, inPlace, c, k);
      QBlockPush(cnMinusOne, pnMinusOne);
      FlushOutput(qBlockCrypt);
      FlushOutput(pn);
      OpenSteal(d, c, k, buf, pnMinusOne, pn);
      StealDecryptParts(d, c, k, inPlace, pnMinusOne, pn);
      qBlockDefined := false;
    }

    /** All of r has been written out, and nothing more. */
    ghost predicate Finished(r: seq<bv8>)
      reads this, output
    {
      Ready() && outPos == |r| && |r| <= output.Length && output[..|r|] == r
    }

    /** k blocks of m have been consumed, in either direction. */
    ghost predicate Midway(decrypt: bool, m: seq<bv8>, k: nat)
      reads this, output
    {
      if decrypt then Opening(m, k) else Sealing(m, k)
    }

    lemma MidwayIsReady(decrypt: bool, m: seq<bv8>, k: nat)
      requires Midway(decrypt, m, k)
      ensures Ready()
    {
    }

    /** One block. inPlace says whether the input lies in the output, at the place for its result. */
    method BlockCrypt(input: seq<bv8>, at: nat, decrypt: bool, inPlace: bool, ghost m: seq<bv8>, ghost k: nat)
      requires Midway(decrypt, m, k) && at == 16 * k
      requires 0 < |input| <= 16 && at + |input| <= |m| && input == m[at..at + |input|]
      requires |input| < 16 ==> 0 < k && at + |input| == |m|
      requires at + (if decrypt then |input| else 16) <= output.Length
      modifies output, this`outPos, this`dontflush
      modifies this`qBlockPlain, this`qBlockCrypt, this`prevCipher, this`qBlockDefined
      ensures |input| == 16 ==> Midway(decrypt, m, k + 1) && qBlockDefined && !dontflush
      ensures |input| < 16 ==> |m| >= 16 && !qBlockDefined && Finished(Written(schedule, decrypt, inPlace, m))
      ensures |input| < 16 && !decrypt ==>
                output[|m|..at + 16] == CipherAt(Sealer(schedule), m, k)[|input|..]
      ensures var end := at + (if decrypt then |input| else 16); output[end..] == old(output[end..])
    {
      hide Sealer, Opener, StealEncrypt, StealDecrypt, CipherAt, CipherPrefix, PlainPrefix, PlainAt;
      if |input| == 16 {
        if decrypt {
          OpenBlock(input, at, m, k);
        } else {
          SealBlock(input, at, m, k);
        }
      } else if decrypt {
        OpenTail(input, at, inPlace, m, k);
      } else {
        SealTail(input, at, m, k);
      }
    }

    /** The loop over all blocks but the last, which is left even when it is whole. */
    method CryptLeading(input: array<bv8>, at: nat, len: nat, decrypt: bool, ghost m: seq<bv8>, ghost before: nat)
      returns (pos: nat, ghost k: nat)
      requires 0 < len <= input.Length && (input != output || at == 0)
      requires output != null && at == 16 * before && Midway(decrypt, m, before)
      requires at + len == |m| && m[at..] == input[..len]
      requires WriteEnd(decrypt, |m|) <= output.Length
      modifies output, this`outPos, this`dontflush
      modifies this`qBlockPlain, this`qBlockCrypt, this`prevCipher, this`qBlockDefined
      ensures pos < len <= pos + 16 && at + pos == 16 * k && Midway(decrypt, m, k)
      ensures input[pos..len] == m[at + pos..]
      ensures output[WriteEnd(decrypt, |m|)..] == old(output[WriteEnd(decrypt, |m|)..])
    {
      hide Midway, WriteEnd, WholeBlock;
      ghost var end := WriteEnd(decrypt, |m|);
      ghost var buf := output[end..];
      var left := len;
      pos := 0;
      k := before;
      while left > 16
        invariant 0 < left && pos + left == len && at + pos == 16 * k
        invariant Midway(decrypt, m, k) && input[pos..len] == m[at + pos..]
        invariant output[end..] == buf
      {
        ghost var was, data := output[..], input[..];
        NextBlock(data, pos, len, m, at + pos);
        WriteEndCovers(decrypt, |m|, k);
        BlockCrypt(input[pos..pos + 16], at + pos, decrypt, input == output, m, k);
        SameTail(was, output[..], 16 * k + 16, end);
        SameRest(data, input[..], pos + 16, len);
        pos := pos + 16;
        left := left - 16;
        k := k + 1;
      }
    }

    /** Runs a message through the chain, after the blocks (none, or the header) already in it. */
    method CryptRawCBC(input: array<bv8>, at: nat, len: nat, decrypt: bool, ghost m: seq<bv8>, ghost before: nat)
      returns (rl: nat)
      requires 0 < len <= input.Length && (input != output || at == 0)
      requires output != null && at == 16 * before && Midway(decrypt, m, before)
      requires 16 <= at + len == |m| && m[at..] == input[..len]
      requires WriteEnd(decrypt, |m|) <= output.Length
      modifies output, this`outPos, this`dontflush
      modifies this`qBlockPlain, this`qBlockCrypt, this`prevCipher, this`qBlockDefined
      ensures rl == len && Finished(Written(schedule, decrypt, input == output, m))
      ensures output[WriteEnd(decrypt, |m|)..] == old(output[WriteEnd(decrypt, |m|)..])
      ensures !decrypt && |m| % 16 != 0 ==> |m| <= Extent(|m|) && output[|m|..Extent(|m|)] == Overrun(schedule, m)
    {
      hide Midway, Finished, Sealer, CipherAt, Written, WholeBlock, Extent, WriteEnd, Overrun;
      rl := len;
      ghost var end := WriteEnd(decrypt, |m|);
      ghost var buf := output[end..];
      var pos, k := CryptLeading(input, at, len, decrypt, m, before);
      assert output[end..] == buf;
      CryptLast(input[pos..len], at + pos, decrypt, input == output, m, k);
    }

    /** The last block, whole or partial, and the flush that only a whole one needs. */
    method CryptLast(input: seq<bv8>, at: nat, decrypt: bool, inPlace: bool, ghost m: seq<bv8>, ghost k: nat)
      requires Midway(decrypt, m, k) && at == 16 * k
      requires 0 < |input| <= 16 && at + |input| == |m| >= 16 && input == m[at..]
      requires WriteEnd(decrypt, |m|) <= output.Length
      modifies output, this`outPos, this`dontflush
      modifies this`qBlockPlain, this`qBlockCrypt, this`prevCipher, this`qBlockDefined
      ensures Finished(Written(schedule, decrypt, inPlace, m))
      ensures output[WriteEnd(decrypt, |m|)..] == old(output[WriteEnd(decrypt, |m|)..])
      ensures !decrypt && |m| % 16 != 0 ==> |m| <= Extent(|m|) && output[|m|..Extent(|m|)] == Overrun(schedule, m)
    {
      hide Midway, Finished, Sealer, CipherAt, Stolen, Written, WholeBlock, Extent, WriteEnd, Overrun;
      MidwayIsReady(decrypt, m, k);
      LastCovers(schedule, decrypt, m, k);
      BlockCrypt(input, at, decrypt, inPlace, m, k);
      if qBlockDefined && !dontflush {
        FlushLast(decrypt, m, k + 1);
      }
    }

    /** The flush after a message of whole blocks. */
    method FlushLast(decrypt: bool, ghost m: seq<bv8>, ghost n: nat)
      requires Midway(decrypt, m, n) && 0 < n && 16 * n == |m|
      modifies output, this`outPos, this`dontflush
      ensures Finished(Stolen(schedule, decrypt, m))
      ensures output[..] == old(output[..])
    {
      hide Sealer, Opener, Stolen, Splice, CipherPrefix, PlainPrefix;
      ghost var buf := output[..];
      LastWhole(schedule, decrypt, m, n, buf);
      SpliceSame(buf, 16 * (n - 1), qBlockCrypt);
      FlushOutput(qBlockCrypt);
    }

    // Without header: more than a block goes through the chain, anything less is one padded block.
    method CryptRaw16(input: array<bv8>, len: nat, decrypt: bool) returns (n: nat)
      requires Ready() && len <= 16 && len <= input.Length && 16 <= output.Length
      requires qBlockPlain == ZERO
      modifies output, this`qBlockPlain, this`qBlockCrypt
      ensures n == 16 && output[..n] == RawCrypt(schedule, decrypt, old(input[..len]))
      ensures output[n..] == old(output[n..])
    {
      hide Encrypt, Decrypt, PaddedBlock;
      ghost var m := input[..len];
      PadRaw(m);
      qBlockPlain := input[..len] + qBlockPlain[len..];
      qBlockCrypt := BlockCrypt16(schedule, qBlockPlain, decrypt);
      CopyOut(0, qBlockCrypt);
      n := 16;
    }

    method CryptRaw(input: array<bv8>, out: array<bv8>, len: nat, decrypt: bool) returns (n: nat)
      requires schedule.Valid() && !dontflush
      requires len <= input.Length
      requires (if len <= 16 then 16 else if decrypt then len else Extent(len)) <= out.Length
      modifies this, out
      ensures schedule == old(schedule) && !dontflush
      ensures n == if len == 0 then 0 else if len <= 16 then 16 else len
      ensures len == 0 ==> out[..] == old(out[..])
      ensures len > 0 && (input != out || !decrypt || len <= 16 || len % 16 == 0) ==>
                out[..n] == RawCrypt(schedule, decrypt, old(input[..len]))
      ensures len > 16 ==> out[..n] == Written(schedule, decrypt, input == out, old(input[..len]))
    {
      hide Encrypt, Decrypt, Stolen, StealEncrypt, StealDecrypt, StealDecryptInPlace;
      ResetCBC();
      output, outPos := out, 0;
      n := 0;
      if len > 16 {
        n := CryptRawCBC(input, 0, len, decrypt, input[..len], 0);
      } else if len > 0 {
        n := CryptRaw16(input, len, decrypt);
      }
    }

    method Alloc(len: nat, binhex: bool, decrypt: bool) returns (buf: array<bv8>)
      modifies this`output, this`outPos
      ensures fresh(buf) && output == buf && outPos == 0
      ensures buf.Length == AllocSize(len, binhex, decrypt)
    {
      var size: int := len;
      if decrypt {
        if binhex {
          size := size / 2;
        }
        size := size - 16;
      } else {
        size := size + 16;
        if binhex {
          size := size * 2;
        }
      }
      buf := new bv8[size + 16];
      output, outPos := buf, 0;
    }

    method SealBinary(input: array<bv8>, out: array<bv8>, len: nat, salt: seq<bv8>) returns (olen: nat)
      requires schedule.Valid() && !dontflush && |salt| == 4
      requires 0 < len <= input.Length && input != out && Extent(16 + len) <= out.Length
      modifies this, out
      ensures schedule == old(schedule) && !dontflush && olen == 16 + len
      ensures out[..olen] == Seal(schedule, salt, old(input[..len]), false)
      ensures out[Extent(16 + len)..] == old(out[Extent(16 + len)..])
      ensures len % 16 != 0 ==> out[olen..Extent(16 + len)] == Overrun(schedule, Framed(salt, old(input[..len])))
    {
      hide Sealer, Opener, StealEncrypt, StealDecrypt, CipherAt, PlainAt, Header, HexEncode, Overrun, Extent,
           WriteEnd;
      output, outPos := out, 0;
      header := Header(salt, len);
      ghost var data := input[..len];
      ghost var m := Framed(salt, data);
      assert m[..16] == header && m[16..] == data;
      ResetCBC();
      FramedCovers(len);
      BlockCrypt(header, 0, false, false, m, 0);
      assert input[..len] == data;
      var rl := CryptRawCBC(input, 16, len, false, m, 1);
      olen := 16 + rl;
    }

    /** Seals len bytes of input behind a salted header; a null out0 asks for a buffer. */
    method EncryptFramed(input: array?<bv8>, out0: array?<bv8>, len: nat, binhex: bool, salt: seq<bv8>)
      returns (out: array?<bv8>, olen: nat)
      requires schedule.Valid() && !dontflush && |salt| == 4
      requires input != null ==> len <= input.Length && input != out0
      requires out0 != null ==> SealExtent(len, binhex) <= out0.Length
      modifies this, out0
      ensures schedule == old(schedule) && !dontflush
      ensures input == null || len == 0 ==> olen == 0 && out == out0
      ensures input != null && len > 0 ==>
                && out != null && olen <= SealExtent(len, binhex) <= out.Length
                && (if out0 == null then fresh(out) else out == out0)
                && out[..olen] == Seal(schedule, salt, old(input[..len]), binhex)
      ensures input != null && len > 0 && out0 != null ==>
                var end := SealExtent(len, binhex); out[end..] == old(out0[end..])
      ensures input != null && len % 16 != 0 && !binhex ==>
                out[olen..SealExtent(len, binhex)] == Overrun(schedule, Framed(salt, old(input[..len])))
    {
      hide Stolen, Overrun, Framed, HexEncode;
      out, olen := out0, 0;
      if input != null && len > 0 {
        AllocCovers(len, binhex);
        if out == null {
          out := Alloc(len, binhex, false);
        }
        ghost var data := input[..len];
        ghost var end, was := SealExtent(len, binhex), out[..];
        olen := SealBinary(input, out, len, salt);
        SameTail(was, out[..], Extent(16 + len), end);
        assert input[..len] == data;
        if binhex {
          ghost var sealed := out[..];
          BinHex(out, olen, true);
          olen := olen * 2;
          SameTail(sealed, out[..], olen, end);
        }
        output, outPos := out, 0;
      }
    }

    /** Opens a sealed message of len bytes; returns how many bytes of data it found, none
        when the magic does not match. A hexadecimal input is converted in place. */
    method DecryptFramed(input: array?<bv8>, out0: array?<bv8>, len: nat, binhex: bool)
      returns (out: array?<bv8>, n: nat)
      requires schedule.Valid() && !dontflush
      requires input != null ==> len <= input.Length
      requires input != null && len > 0 ==> Receivable(input[..len], binhex)
      requires out0 != null && len > 0 ==> (if binhex then len / 2 else len) <= out0.Length + 16
      modifies this, input, out0
      ensures schedule == old(schedule) && !dontflush
      ensures input == null || len == 0 ==> n == 0 && out == out0
      ensures input != null && len > 0 ==>
                && out != null && n <= out.Length
                && (if out0 == null then fresh(out) else out == out0)
                && match Unseal(schedule, old(input[..len]), binhex) {
                     case None => n == 0
                     case Some(data) => out[..n] == data
                   }
    {
      hide Stolen, HexDecode, StoredLength;
      out, n := out0, 0;
      if input != null && len > 0 {
        if out == null {
          out := Alloc(len, binhex, true);
        }
        ghost var sealed := input[..len];
        var ilen := len;
        if binhex {
          BinHex(input, len, false);
          ilen := len / 2;
        }
        var tbuf := OpenBinary(input, ilen);
        output, outPos := out, 0;
        if tbuf[8..16] == MAGIC {
          var olen := ilen - 16;
          var elen := StoredLength(header);
          if elen > olen {
            elen := olen;
          }
          CopyOut(0, tbuf[16..16 + elen]);
          n := elen;
        }
      }
    }

    // Decrypts into a buffer of its own, and copies the first block into the header.
    method OpenBinary(input: array<bv8>, ilen: nat) returns (plain: seq<bv8>)
      requires schedule.Valid() && !dontflush && 16 <= ilen <= input.Length
      modifies this
      ensures schedule == old(schedule) && !dontflush
      ensures plain == Stolen(schedule, true, input[..ilen]) && header == plain[..16]
    {
      hide Stolen;
      ResetCBC();
      var tbuf := new bv8[ilen + 16];
      output, outPos := tbuf, 0;
      var rl := CryptRawCBC(input, 0, ilen, true, input[..ilen], 0);
      plain := tbuf[..rl];
      header := tbuf[..16];
    }
  }

  lemma PadRaw(m: seq<bv8>)
    requires |m| <= 16
    ensures m + ZERO[|m|..] == PaddedBlock(m, 0)
  {
    assert ZERO[|m|..] == ZERO[..16 - |m|] by { ZeroShift(|m|); }
    assert m[0..] == m && (|m| == 16 ==> WholeBlock(m, 0) == m);
  }

  lemma ZeroShift(n: nat)
    requires n <= 16
    ensures ZERO[n..] == ZERO[..16 - n]
  {
    assert forall i :: 0 <= i < 16 ==> ZERO[i] == 0;
  }

  lemma CipherStep(s: Schedule, m: seq<bv8>, k: nat, pn: Block, res: Block)
    requires s.Valid() && 16 * k <= |m| && res == Encrypt(s, pn)
    requires pn == if k == 0 then PaddedBlock(m, k) else XorBytes(PaddedBlock(m, k), CipherAt(Sealer(s), m, k - 1))
    ensures res == CipherAt(Sealer(s), m, k)
  {
    hide Encrypt, PaddedBlock, XorBytes;
    XorZero(PaddedBlock(m, k));
  }
}
