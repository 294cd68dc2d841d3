/** Cipher block chaining with ciphertext stealing, as functions on whole messages.

    This is the reference for the chaining layer of the library. It is written by block
    index, with no lag and no state: block i of the ciphertext encrypts block i of the
    zero-padded message, xored with ciphertext block i-1. When the last block is partial,
    the last two ciphertext blocks trade places and the displaced one is cut to fit. */
module CipherStealing {
  import opened TwofishWords
  import opened TwofishCipher

  const ZERO: Block := [0, 0, 0, 0, 0, 0, 0, 0, 0, 0, 0, 0, 0, 0, 0, 0]

  lemma XorByteFacts(a: bv8, b: bv8)
    ensures XorByte(XorByte(a, b), b) == a && XorByte(XorByte(b, a), b) == a && XorByte(a, 0) == a
    ensures XorByte(0, a) == a
  {
  }

  function XorBytes(a: seq<bv8>, b: seq<bv8>): (r: seq<bv8>)
    requires |a| == |b|
    ensures |r| == |a|
  {
    seq(|a|, i requires 0 <= i < |a| => XorByte(a[i], b[i]))
  }

  lemma XorTwice(a: seq<bv8>, b: seq<bv8>)
    requires |a| == |b|
    ensures XorBytes(XorBytes(a, b), b) == a && XorBytes(XorBytes(b, a), b) == a
  {
    hide XorByte;
    forall i | 0 <= i < |a|
      ensures XorBytes(XorBytes(a, b), b)[i] == a[i] && XorBytes(XorBytes(b, a), b)[i] == a[i]
    {
      XorByteFacts(a[i], b[i]);
    }
  }

  lemma XorZero(a: Block)
    ensures XorBytes(a, ZERO) == a
  {
    hide XorByte;
    forall i | 0 <= i < 16
      ensures XorBytes(a, ZERO)[i] == a[i]
    {
      XorByteFacts(a[i], 0);
      assert ZERO[i] == 0;
    }
  }

  function WholeBlock(m: seq<bv8>, i: nat): Block
    requires 16 * i + 16 <= |m|
  {
    m[16 * i..16 * i + 16]
  }

  /** Block i of the message, filled up with zero bytes when the message ends inside it. */
  function PaddedBlock(m: seq<bv8>, i: nat): Block
    requires 16 * i <= |m|
  {
    if 16 * i + 16 <= |m| then WholeBlock(m, i)
    else m[16 * i..] + ZERO[..16 - (|m| - 16 * i)]
  }

  /** Block i of the chained ciphertext of the padded message; the chain starts from zeros. */
  function CipherAt(e: Block -> Block, m: seq<bv8>, i: nat): Block
    requires 16 * i <= |m|
    decreases i
  {
    e(XorBytes(PaddedBlock(m, i), if i == 0 then ZERO else CipherAt(e, m, i - 1)))
  }

  function CipherPrefix(e: Block -> Block, m: seq<bv8>, n: nat): (r: seq<bv8>)
    requires 16 * n <= |m|
    ensures |r| == 16 * n
    decreases n
  {
    if n == 0 then [] else CipherPrefix(e, m, n - 1) + CipherAt(e, m, n - 1)
  }

  function StealEncrypt(e: Block -> Block, m: seq<bv8>): (r: seq<bv8>)
    requires |m| >= 16
    ensures |r| == |m|
  {
    var n, tail := |m| / 16, |m| % 16;
    if tail == 0 then CipherPrefix(e, m, n)
    else CipherPrefix(e, m, n - 1) + CipherAt(e, m, n) + CipherAt(e, m, n - 1)[..tail]
  }

  /** Block i of the plaintext, for a ciphertext in its original block order. */
  function PlainAt(d: Block -> Block, c: seq<bv8>, i: nat): Block
    requires 16 * i + 16 <= |c|
  {
    XorBytes(d(WholeBlock(c, i)), if i == 0 then ZERO else WholeBlock(c, i - 1))
  }

  function PlainPrefix(d: Block -> Block, c: seq<bv8>, n: nat): (r: seq<bv8>)
    requires 16 * n <= |c|
    ensures |r| == 16 * n
    decreases n
  {
    if n == 0 then [] else PlainPrefix(d, c, n - 1) + PlainAt(d, c, n - 1)
  }

  /** What stealing took from the last whole block: the full block that belongs before it. */
  function Restored(d: Block -> Block, c: seq<bv8>): Block
    requires |c| >= 16
  {
    var n := |c| / 16;
    c[16 * n..] + d(WholeBlock(c, n - 1))[|c| % 16..]
  }

  function StealDecrypt(d: Block -> Block, c: seq<bv8>): (r: seq<bv8>)
    requires |c| >= 16
    ensures |r| == |c|
  {
    var n, tail := |c| / 16, |c| % 16;
    if tail == 0 then PlainPrefix(d, c, n)
    else
      PlainPrefix(d, c, n - 1)
      + XorBytes(d(Restored(d, c)), if n == 1 then ZERO else WholeBlock(c, n - 2))
      + XorBytes(c[16 * n..], d(WholeBlock(c, n - 1))[..tail])
  }

  /** What is restored when input and output are one buffer: the bytes of the ciphertext are read a
      second time, after the plaintext has been written over them. */
  function Reread(d: Block -> Block, c: seq<bv8>): Block
    requires |c| >= 16
  {
    var n, tail := |c| / 16, |c| % 16;
    var y := d(WholeBlock(c, n - 1));
    XorBytes(c[16 * n..], y[..tail]) + y[tail..]
  }

  function StealDecryptInPlace(d: Block -> Block, c: seq<bv8>): (r: seq<bv8>)
    requires |c| >= 16
    ensures |r| == |c|
  {
    var n, tail := |c| / 16, |c| % 16;
    if tail == 0 then PlainPrefix(d, c, n)
    else
      PlainPrefix(d, c, n - 1)
      + XorBytes(d(Reread(d, c)), if n == 1 then ZERO else WholeBlock(c, n - 2))
      + XorBytes(c[16 * n..], d(WholeBlock(c, n - 1))[..tail])
  }

  ghost predicate Inverse(d: Block -> Block, e: Block -> Block) {
    forall b: Block :: d(e(b)) == b
  }

  lemma {:induction false} CipherPrefixAt(e: Block -> Block, m: seq<bv8>, n: nat, i: nat)
    requires 16 * n <= |m| && i < n
    ensures WholeBlock(CipherPrefix(e, m, n), i) == CipherAt(e, m, i)
  {
    hide CipherAt;
    if i < n - 1 {
      CipherPrefixAt(e, m, n - 1, i);
      assert WholeBlock(CipherPrefix(e, m, n), i) == WholeBlock(CipherPrefix(e, m, n - 1), i);
    }
  }

  // Block i of the chain, decrypted: prev is the ciphertext block before it.
  lemma ChainOpens(e: Block -> Block, d: Block -> Block, m: seq<bv8>, i: nat, prev: Block)
    requires Inverse(d, e) && 16 * i <= |m|
    requires prev == if i == 0 then ZERO else CipherAt(e, m, i - 1)
    ensures d(CipherAt(e, m, i)) == XorBytes(PaddedBlock(m, i), prev)
    ensures XorBytes(d(CipherAt(e, m, i)), prev) == PaddedBlock(m, i)
  {
    hide XorBytes, PaddedBlock;
    XorTwice(PaddedBlock(m, i), prev);
  }

  // Where c starts with the first n chained blocks, the chain decrypts to the message.
  lemma {:induction false} PrefixOpens(e: Block -> Block, d: Block -> Block, m: seq<bv8>, c: seq<bv8>, n: nat)
    requires Inverse(d, e) && 16 * n <= |m| && 16 * n <= |c|
    requires c[..16 * n] == CipherPrefix(e, m, n)
    ensures PlainPrefix(d, c, n) == m[..16 * n]
  {
    hide CipherAt, PlainAt, XorBytes;
    if n > 0 {
      var i := n - 1;
      assert c[..16 * i] == CipherPrefix(e, m, i) by {
        assert c[..16 * i] == c[..16 * n][..16 * i];
      }
      PrefixOpens(e, d, m, c, i);
      BlockOpens(e, d, m, c, n, i);
      assert m[..16 * n] == m[..16 * i] + WholeBlock(m, i);
    }
  }

  lemma BlockOpens(e: Block -> Block, d: Block -> Block, m: seq<bv8>, c: seq<bv8>, n: nat, i: nat)
    requires Inverse(d, e) && i < n && 16 * n <= |m| && 16 * n <= |c|
    requires c[..16 * n] == CipherPrefix(e, m, n)
    ensures PlainAt(d, c, i) == WholeBlock(m, i)
  {
    hide XorBytes, CipherAt, CipherPrefix;
    CipherPrefixAt(e, m, n, i);
    PrefixBlock(c, n, i);
    if i > 0 {
      CipherPrefixAt(e, m, n, i - 1);
      PrefixBlock(c, n, i - 1);
    }
    ChainOpens(e, d, m, i, if i == 0 then ZERO else CipherAt(e, m, i - 1));
  }

  lemma StealShape(e: Block -> Block, m: seq<bv8>)
    requires |m| >= 16 && |m| % 16 != 0
    ensures var n, tail, c := |m| / 16, |m| % 16, StealEncrypt(e, m);
            && c[..16 * (n - 1)] == CipherPrefix(e, m, n - 1)
            && WholeBlock(c, n - 1) == CipherAt(e, m, n)
            && c[16 * n..] == CipherAt(e, m, n - 1)[..tail]
  {
    hide CipherAt, CipherPrefix;
  }

  lemma StealShapeBefore(e: Block -> Block, m: seq<bv8>, c: seq<bv8>, n: nat)
    requires |m| >= 32 && |m| % 16 != 0 && c == StealEncrypt(e, m) && n == |m| / 16
    ensures WholeBlock(c, n - 2) == CipherAt(e, m, n - 2)
  {
    hide CipherAt, CipherPrefix, StealEncrypt;
    StealShape(e, m);
    CipherPrefixAt(e, m, n - 1, n - 2);
    PrefixBlock(c, n - 1, n - 2);
  }

  lemma PrefixBlock(c: seq<bv8>, n: nat, i: nat)
    requires i < n && 16 * n <= |c|
    ensures WholeBlock(c, i) == WholeBlock(c[..16 * n], i)
  {
  }

  // The stolen case: what the last whole block and the tail of the ciphertext decrypt to.
  lemma StolenPair(e: Block -> Block, d: Block -> Block, m: seq<bv8>, c: seq<bv8>, n: nat, prev: Block)
    requires Inverse(d, e) && |m| >= 16 && |m| % 16 != 0
    requires c == StealEncrypt(e, m) && n == |m| / 16 && prev == CipherAt(e, m, n - 1)
    ensures Restored(d, c) == prev
    ensures XorBytes(c[16 * n..], d(WholeBlock(c, n - 1))[..|m| % 16]) == m[16 * n..]
  {
    hide CipherAt, XorBytes, WholeBlock, PaddedBlock, StealEncrypt, Restored;
    StealShape(e, m);
    var y := d(CipherAt(e, m, n));
    ChainOpens(e, d, m, n, prev);
    StolenTail(m, n, prev, y);
    RestoredIs(d, c, n, prev, y);
  }

  lemma RestoredIs(d: Block -> Block, c: seq<bv8>, n: nat, prev: Block, y: Block)
    requires |c| >= 16 && |c| / 16 == n && y == d(WholeBlock(c, n - 1))
    requires c[16 * n..] == prev[..|c| % 16] && y[|c| % 16..] == prev[|c| % 16..]
    ensures Restored(d, c) == prev
  {
    hide WholeBlock;
    assert prev == prev[..|c| % 16] + prev[|c| % 16..];
  }

  lemma StolenBefore(e: Block -> Block, d: Block -> Block, m: seq<bv8>, c: seq<bv8>, n: nat)
    requires Inverse(d, e) && |m| >= 16 && |m| % 16 != 0
    requires c == StealEncrypt(e, m) && n == |m| / 16
    ensures XorBytes(d(CipherAt(e, m, n - 1)), if n == 1 then ZERO else WholeBlock(c, n - 2)) == WholeBlock(m, n - 1)
    ensures PlainPrefix(d, c, n - 1) == m[..16 * (n - 1)]
  {
    hide XorBytes, CipherAt, StealEncrypt, PlainPrefix, CipherPrefix;
    StealShape(e, m);
    if n > 1 {
      StealShapeBefore(e, m, c, n);
    }
    PrefixOpens(e, d, m, c, n - 1);
    ChainOpens(e, d, m, n - 1, if n == 1 then ZERO else CipherAt(e, m, n - 2));
  }

  /** Decryption with stealing undoes encryption with stealing, for every message of at least a block. */
  lemma StealRoundTrip(e: Block -> Block, d: Block -> Block, m: seq<bv8>)
    requires Inverse(d, e) && |m| >= 16
    ensures StealDecrypt(d, StealEncrypt(e, m)) == m
  {
    var n, c := |m| / 16, StealEncrypt(e, m);
    if |m| % 16 == 0 {
      hide XorBytes, CipherAt, PlainAt, Restored;
      assert c[..16 * n] == c && m[..16 * n] == m;
      PrefixOpens(e, d, m, c, n);
    } else {
      hide XorBytes, CipherAt, PlainAt, Restored, StealEncrypt, WholeBlock, PlainPrefix;
      StolenPair(e, d, m, c, n, CipherAt(e, m, n - 1));
      StolenBefore(e, d, m, c, n);
      LastParts(m, n);
    }
  }

  lemma LastParts(m: seq<bv8>, n: nat)
    requires 0 < n && n == |m| / 16
    ensures m == m[..16 * (n - 1)] + WholeBlock(m, n - 1) + m[16 * n..]
  {
  }

  // The decrypted last block: xored message bytes first, then the bytes that were stolen.
  lemma StolenTail(m: seq<bv8>, n: nat, prev: Block, y: Block)
    requires n == |m| / 16 && |m| % 16 != 0
    requires y == XorBytes(PaddedBlock(m, n), prev)
    ensures var tail := |m| % 16;
            XorBytes(prev[..tail], y[..tail]) == m[16 * n..] && y[tail..] == prev[tail..]
  {
    hide XorByte;
    var tail := |m| % 16;
    var p := PaddedBlock(m, n);
    forall i | 0 <= i < tail
      ensures XorBytes(prev[..tail], y[..tail])[i] == m[16 * n..][i]
    {
      XorByteFacts(p[i], prev[i]);
      XorByteCommutes(prev[i], y[i]);
    }
    forall i | tail <= i < 16
      ensures y[i] == prev[i]
    {
      assert p[i] == 0;
      XorByteFacts(prev[i], 0);
    }
  }

  lemma XorByteCommutes(a: bv8, b: bv8)
    ensures XorByte(a, b) == XorByte(b, a)
  {
  }

  /** In one buffer decryption comes out right if and only if the message ends with a whole block, or the
      last whole block of the ciphertext deciphers to zeros in front of the stolen bytes. */
  lemma InPlaceIsRight(e: Block -> Block, d: Block -> Block, c: seq<bv8>)
    requires Inverse(e, d) && |c| >= 16
    ensures StealDecryptInPlace(d, c) == StealDecrypt(d, c)
            <==> d(WholeBlock(c, |c| / 16 - 1))[..|c| % 16] == ZERO[..|c| % 16]
  {
    hide XorBytes, PlainPrefix, WholeBlock, Restored, Reread;
    var n, tail := |c| / 16, |c| % 16;
    if tail != 0 {
      var prev := if n == 1 then ZERO else WholeBlock(c, n - 2);
      var x, y := XorBytes(d(Restored(d, c)), prev), XorBytes(d(Reread(d, c)), prev);
      assert StealDecrypt(d, c)[16 * (n - 1)..][..16] == x;
      assert StealDecryptInPlace(d, c)[16 * (n - 1)..][..16] == y;
      XorTwice(d(Restored(d, c)), prev);
      XorTwice(d(Reread(d, c)), prev);
      assert x == y ==> d(Restored(d, c)) == d(Reread(d, c));
      assert e(d(Restored(d, c))) == Restored(d, c) && e(d(Reread(d, c))) == Reread(d, c);
      RereadIsRestored(d, c);
    }
  }

  lemma RereadIsRestored(d: Block -> Block, c: seq<bv8>)
    requires |c| >= 16
    ensures Reread(d, c) == Restored(d, c) <==> d(WholeBlock(c, |c| / 16 - 1))[..|c| % 16] == ZERO[..|c| % 16]
  {
    hide XorByte, WholeBlock;
    var n, tail := |c| / 16, |c| % 16;
    var y := d(WholeBlock(c, n - 1));
    var a, b := Reread(d, c), Restored(d, c);
    assert a[tail..] == b[tail..];
    forall i | 0 <= i < tail
      ensures a[i] == b[i] <==> y[i] == 0
    {
      assert a[i] == XorByte(c[16 * n + i], y[i]) && b[i] == c[16 * n + i];
      XorByteSame(c[16 * n + i], y[i]);
    }
    assert forall i :: 0 <= i < tail ==> ZERO[i] == 0;
    if y[..tail] == ZERO[..tail] {
      forall i | 0 <= i < tail
        ensures a[i] == b[i]
      {
        assert y[..tail][i] == ZERO[..tail][i];
      }
      assert a[..tail] == b[..tail];
      assert a == a[..tail] + a[tail..] && b == b[..tail] + b[tail..];
    }
  }

  lemma XorByteSame(a: bv8, b: bv8)
    ensures XorByte(a, b) == a <==> b == 0
  {
  }

  /** The block transform of a key, as a function value. */
  function Sealer(s: Schedule): Block -> Block
    requires s.Valid()
  {
    (b: Block) => Encrypt(s, b)
  }

  function Opener(s: Schedule): Block -> Block
    requires s.Valid()
  {
    (b: Block) => Decrypt(s, b)
  }

  lemma KeyInverse(s: Schedule)
    requires s.Valid()
    ensures Inverse(Opener(s), Sealer(s)) && Inverse(Sealer(s), Opener(s))
  {
    hide Encrypt, Decrypt;
    forall b: Block
      ensures Sealer(s)(Opener(s)(b)) == b
    {
      EncryptDecrypt(s, b);
    }
    forall b: Block
      ensures Opener(s)(Sealer(s)(b)) == b
    {
      DecryptEncrypt(s, b);
    }
  }

  /** The whole-message result in either direction. */
  function Stolen(s: Schedule, decrypt: bool, m: seq<bv8>): (r: seq<bv8>)
    requires s.Valid() && |m| >= 16
    ensures |r| == |m|
  {
    if decrypt then StealDecrypt(Opener(s), m) else StealEncrypt(Sealer(s), m)
  }

  /** The same, if the output may be the buffer of the input. */
  function Written(s: Schedule, decrypt: bool, inPlace: bool, m: seq<bv8>): (r: seq<bv8>)
    requires s.Valid() && |m| >= 16
    ensures |r| == |m|
    ensures !inPlace || !decrypt || |m| % 16 == 0 ==> r == Stolen(s, decrypt, m)
  {
    if decrypt && inPlace then StealDecryptInPlace(Opener(s), m) else Stolen(s, decrypt, m)
  }

  /** The bytes that encryption of n message bytes may write: n rounded up to whole blocks. */
  function Extent(n: nat): nat { (n + 16 - 1) / 16 * 16 }

  // ---- The mode, equation by equation ----

  function Mix(a: bv8, b: bv8): bv8 { a ^ b }

  function MixBlock(a: seq<bv8>, b: seq<bv8>): Block
    requires |a| == |b| == 16
  {
    seq(16, i requires 0 <= i < 16 => Mix(a[i], b[i]))
  }

  function Zeros(n: nat): (z: seq<bv8>)
    ensures |z| == n
  {
    seq(n, _ => 0)
  }

  /** Block i of the ciphertext is the cipher of block i of the message xored with the block of ciphertext
      before it, and the first one with zeros. */
  predicate Chained(e: Block -> Block, m: seq<bv8>, c: seq<bv8>, i: nat)
    requires 16 * i + 16 <= |m| && |m| == |c|
  {
    c[16 * i..16 * i + 16] == e(MixBlock(m[16 * i..16 * i + 16], if i == 0 then Zeros(16) else c[16 * (i - 1)..16 * i]))
  }

  /** The last bytes of a message that ends in the middle of a block: with x the chained cipher of the last
      whole block, the ciphertext ends in the cipher of the rest, filled up with zeros and xored with
      x, and then in the first bytes of x. */
  predicate Swapped(e: Block -> Block, m: seq<bv8>, c: seq<bv8>, x: Block)
    requires |m| >= 16 && |m| == |c|
  {
    var n, tail := |m| / 16, |m| % 16;
    && x == e(MixBlock(m[16 * (n - 1)..16 * n], if n == 1 then Zeros(16) else c[16 * (n - 2)..16 * (n - 1)]))
    && c[16 * (n - 1)..16 * n] == e(MixBlock(m[16 * n..] + Zeros(16 - tail), x))
    && c[16 * n..] == x[..tail]
  }

  lemma MixIs(a: Block, b: Block)
    ensures XorBytes(a, b) == MixBlock(a, b)
  {
    forall i | 0 <= i < 16
      ensures XorBytes(a, b)[i] == MixBlock(a, b)[i]
    {
      assert XorBytes(a, b)[i] == XorByte(a[i], b[i]) == Mix(a[i], b[i]);
    }
  }

  lemma ZerosAre()
    ensures ZERO == Zeros(16)
    ensures forall n :: 0 <= n <= 16 ==> ZERO[..n] == Zeros(n)
  {
    assert forall i :: 0 <= i < 16 ==> ZERO[i] == 0;
  }

  // A block of the prefix, from the block before it.
  lemma PrefixChained(e: Block -> Block, m: seq<bv8>, c: seq<bv8>, n: nat, i: nat)
    requires 16 * n <= |m| == |c| && i < n && c[..16 * n] == CipherPrefix(e, m, n)
    ensures c[16 * i..16 * i + 16] == CipherAt(e, m, i) && Chained(e, m, c, i)
  {
    hide CipherAt, CipherPrefix, XorBytes, MixBlock, Zeros;
    ZerosAre();
    PrefixHolds(e, m, c, n, i);
    if i > 0 {
      PrefixHolds(e, m, c, n, i - 1);
    }
    CipherUnfold(e, m, i);
    var prev := if i == 0 then ZERO else CipherAt(e, m, i - 1);
    MixIs(PaddedBlock(m, i), prev);
  }

  lemma PrefixHolds(e: Block -> Block, m: seq<bv8>, c: seq<bv8>, n: nat, i: nat)
    requires 16 * n <= |m| == |c| && i < n && c[..16 * n] == CipherPrefix(e, m, n)
    ensures c[16 * i..16 * i + 16] == CipherAt(e, m, i)
  {
    hide CipherAt, CipherPrefix;
    CipherPrefixAt(e, m, n, i);
    assert c[16 * i..16 * i + 16] == c[..16 * n][16 * i..16 * i + 16];
  }

  lemma CipherUnfold(e: Block -> Block, m: seq<bv8>, i: nat)
    requires 16 * i <= |m|
    ensures CipherAt(e, m, i) == e(XorBytes(PaddedBlock(m, i), if i == 0 then ZERO else CipherAt(e, m, i - 1)))
  {
  }

  /** Encryption of whole blocks is cipher block chaining; a partial last block is swapped with the one
      before it, the way of CBC-CS2. */
  lemma StealEncryptIsCs2(e: Block -> Block, m: seq<bv8>)
    requires |m| >= 16
    ensures var c, n := StealEncrypt(e, m), |m| / 16;
      if |m| % 16 == 0 then forall i :: 0 <= i < n ==> Chained(e, m, c, i)
      else (forall i :: 0 <= i < n - 1 ==> Chained(e, m, c, i)) && exists x: Block :: Swapped(e, m, c, x)
  {
    hide CipherAt, CipherPrefix, Chained, Swapped;
    var c, n, tail := StealEncrypt(e, m), |m| / 16, |m| % 16;
    var whole := if tail == 0 then n else n - 1;
    assert c[..16 * whole] == CipherPrefix(e, m, whole);
    forall i | 0 <= i < whole
      ensures Chained(e, m, c, i)
    {
      PrefixChained(e, m, c, whole, i);
    }
    if tail > 0 {
      LastSwapped(e, m, c);
    }
  }

  lemma LastPadded(m: seq<bv8>, n: nat)
    requires 0 < n == |m| / 16 && |m| % 16 != 0
    ensures PaddedBlock(m, n - 1) == m[16 * (n - 1)..16 * n] && PaddedBlock(m, n) == m[16 * n..] + Zeros(16 - |m| % 16)
  {
    hide Zeros;
    ZerosAre();
  }

  lemma LastCipher(e: Block -> Block, m: seq<bv8>, n: nat)
    requires 0 < n == |m| / 16 && |m| % 16 != 0
    ensures CipherAt(e, m, n) == e(MixBlock(m[16 * n..] + Zeros(16 - |m| % 16), CipherAt(e, m, n - 1)))
  {
    hide CipherAt, XorBytes, MixBlock, Zeros, PaddedBlock;
    LastPadded(m, n);
    CipherUnfold(e, m, n);
    MixIs(PaddedBlock(m, n), CipherAt(e, m, n - 1));
  }

  lemma WholeCipher(e: Block -> Block, m: seq<bv8>, c: seq<bv8>, n: nat)
    requires 0 < n == |m| / 16 && |m| % 16 != 0 && c == StealEncrypt(e, m)
    ensures CipherAt(e, m, n - 1)
            == e(MixBlock(m[16 * (n - 1)..16 * n], if n == 1 then Zeros(16) else c[16 * (n - 2)..16 * (n - 1)]))
  {
    hide CipherAt, XorBytes, MixBlock, Zeros, PaddedBlock, StealEncrypt;
    LastPadded(m, n);
    CipherUnfold(e, m, n - 1);
    BlockBefore(e, m, c, n);
    MixIs(PaddedBlock(m, n - 1), if n == 1 then ZERO else CipherAt(e, m, n - 2));
  }

  lemma LastSwapped(e: Block -> Block, m: seq<bv8>, c: seq<bv8>)
    requires |m| >= 16 && |m| % 16 != 0 && c == StealEncrypt(e, m)
    ensures Swapped(e, m, c, CipherAt(e, m, |m| / 16 - 1))
  {
    hide CipherAt, CipherPrefix, MixBlock, Zeros, StealEncrypt;
    StealShape(e, m);
    LastCipher(e, m, |m| / 16);
    WholeCipher(e, m, c, |m| / 16);
  }

  lemma BlockBefore(e: Block -> Block, m: seq<bv8>, c: seq<bv8>, n: nat)
    requires |m| >= 16 && |m| % 16 != 0 && c == StealEncrypt(e, m) && n == |m| / 16
    ensures (if n == 1 then ZERO else CipherAt(e, m, n - 2))
            == if n == 1 then Zeros(16) else c[16 * (n - 2)..16 * (n - 1)]
  {
    hide CipherAt, CipherPrefix, StealEncrypt, Zeros;
    ZerosAre();
    StealShape(e, m);
    if n > 1 {
      PrefixHolds(e, m, c, n - 1, n - 2);
    }
  }
}
