/** The 16-round Twofish block transform, as word operations on a four-word state.

    The key-dependent function g enters only through two function values, so
    everything below holds for every content of the key tables. */
module TwofishCipher {
  import opened TwofishWords

  const ROUNDS: nat := 16
  const TOTAL_SUBKEYS: nat := 4 + 4 + 2 * ROUNDS

  /** g0 looks a word up in the key tables; g3 does so for the word rotated left by 8. */
  datatype Schedule = Schedule(g0: bv32 -> bv32, g3: bv32 -> bv32, subKeys: seq<bv32>) {
    ghost predicate Valid() { |subKeys| == TOTAL_SUBKEYS }
  }

  datatype State = State(x0: bv32, x1: bv32, x2: bv32, x3: bv32)

  type Block = b: seq<bv8> | |b| == 16 witness [0, 0, 0, 0, 0, 0, 0, 0, 0, 0, 0, 0, 0, 0, 0, 0]

  function Xor(x: bv32, y: bv32): bv32 { x ^ y }

  lemma XorCancels(x: bv32, y: bv32)
    ensures Xor(Xor(x, y), y) == x
  {
  }

  function Rol1(x: bv32): bv32 { (x << 1) | (x >> 31) }

  function Ror1(x: bv32): bv32 { (x >> 1) | (x << 31) }

  lemma RolRor(x: bv32)
    ensures Rol1(Ror1(x)) == x
  {
  }

  lemma RorRol(x: bv32)
    ensures Ror1(Rol1(x)) == x
  {
  }

  // One Feistel round. The two mixed words are computed apart: fp and fq are the
  // outputs of the round function that the words p and q absorb.
  function ForwardP(p: bv32, fp: bv32): bv32 { Ror1(Xor(p, fp)) }

  function ForwardQ(q: bv32, fq: bv32): bv32 { Xor(Rol1(q), fq) }

  function BackwardP(p: bv32, fp: bv32): bv32 { Xor(Rol1(p), fp) }

  function BackwardQ(q: bv32, fq: bv32): bv32 { Ror1(Xor(q, fq)) }

  lemma MixInverse(w: bv32, f: bv32)
    ensures BackwardP(ForwardP(w, f), f) == w && ForwardP(BackwardP(w, f), f) == w
    ensures BackwardQ(ForwardQ(w, f), f) == w && ForwardQ(BackwardQ(w, f), f) == w
  {
    hide Xor, Rol1, Ror1;
    RolRor(Xor(w, f));
    RorRol(w);
    XorCancels(w, f);
    RolRor(w);
    RorRol(Xor(w, f));
    XorCancels(Rol1(w), f);
  }

  function Double(x: bv32): bv32 { x << 1 }

  function Sum(x: bv32, y: bv32, z: bv32): bv32 { x + y + z }

  /** The two table outputs of a round, combined as a pseudo-Hadamard transform with two subkeys. */
  function RoundP(s: Schedule, a: bv32, b: bv32, key: bv32): bv32 { Sum(s.g0(a), s.g3(b), key) }

  function RoundQ(s: Schedule, a: bv32, b: bv32, key: bv32): bv32 { Sum(s.g0(a), Double(s.g3(b)), key) }

  /** Two rounds of the encryption loop, whose body consumes subkeys k, k+1, k+2, k+3. */
  function EncPair(s: Schedule, k: nat, x: State): State
    requires s.Valid() && k + 3 < TOTAL_SUBKEYS
  {
    var x2 := ForwardP(x.x2, RoundP(s, x.x0, x.x1, s.subKeys[k]));
    var x3 := ForwardQ(x.x3, RoundQ(s, x.x0, x.x1, s.subKeys[k + 1]));
    var x0 := ForwardP(x.x0, RoundP(s, x2, x3, s.subKeys[k + 2]));
    var x1 := ForwardQ(x.x1, RoundQ(s, x2, x3, s.subKeys[k + 3]));
    State(x0, x1, x2, x3)
  }

  /** Two rounds of the decryption loop, whose body consumes subkeys k, k-1, k-2, k-3. */
  function DecPair(s: Schedule, k: nat, x: State): State
    requires s.Valid() && 3 <= k < TOTAL_SUBKEYS
  {
    var x3 := BackwardQ(x.x3, RoundQ(s, x.x0, x.x1, s.subKeys[k]));
    var x2 := BackwardP(x.x2, RoundP(s, x.x0, x.x1, s.subKeys[k - 1]));
    var x1 := BackwardQ(x.x1, RoundQ(s, x2, x3, s.subKeys[k - 2]));
    var x0 := BackwardP(x.x0, RoundP(s, x2, x3, s.subKeys[k - 3]));
    State(x0, x1, x2, x3)
  }

  function Swap(x: State): State { State(x.x2, x.x3, x.x0, x.x1) }

  lemma PairInverse(s: Schedule, k: nat, x: State)
    requires s.Valid() && k + 3 < TOTAL_SUBKEYS
    ensures DecPair(s, k + 3, Swap(EncPair(s, k, x))) == Swap(x)
    ensures EncPair(s, k, Swap(DecPair(s, k + 3, x))) == Swap(x)
  {
    hide ForwardP, ForwardQ, BackwardP, BackwardQ, Sum, Double;
    forall w: bv32, f: bv32
      ensures BackwardP(ForwardP(w, f), f) == w && ForwardP(BackwardP(w, f), f) == w
      ensures BackwardQ(ForwardQ(w, f), f) == w && ForwardQ(BackwardQ(w, f), f) == w
    {
      MixInverse(w, f);
    }
  }

  /** The encryption state after n passes of the loop (two rounds each). */
  function EncLoop(s: Schedule, n: nat, x: State): State
    requires s.Valid() && n <= 8
  {
    if n == 0 then x else EncPair(s, 8 + 4 * (n - 1), EncLoop(s, n - 1, x))
  }

  /** The decryption state after n passes of its loop, which runs the subkeys backwards. */
  function DecLoop(s: Schedule, n: nat, x: State): State
    requires s.Valid() && n <= 8
  {
    if n == 0 then x else DecPair(s, 39 - 4 * (n - 1), DecLoop(s, n - 1, x))
  }

  // The loop invariant of decryption after encryption: with the halves swapped,
  // n backward passes undo the last n forward passes.
  lemma {:induction false} DecLoopUndoes(s: Schedule, n: nat, x: State)
    requires s.Valid() && n <= 8
    ensures DecLoop(s, n, Swap(EncLoop(s, 8, x))) == Swap(EncLoop(s, 8 - n, x))
  {
    hide EncPair, DecPair;
    if n > 0 {
      DecLoopUndoes(s, n - 1, x);
      var k := 8 + 4 * (8 - n);
      PairInverse(s, k, EncLoop(s, 8 - n, x));
      assert EncLoop(s, 8 - (n - 1), x) == EncPair(s, k, EncLoop(s, 8 - n, x));
      assert 39 - 4 * (n - 1) == k + 3;
    }
  }

  lemma {:induction false} EncLoopUndoes(s: Schedule, n: nat, x: State)
    requires s.Valid() && n <= 8
    ensures EncLoop(s, n, Swap(DecLoop(s, 8, x))) == Swap(DecLoop(s, 8 - n, x))
  {
    hide EncPair, DecPair;
    if n > 0 {
      EncLoopUndoes(s, n - 1, x);
      var k := 8 + 4 * (n - 1);
      PairInverse(s, k, DecLoop(s, 8 - n, x));
      assert DecLoop(s, 8 - (n - 1), x) == DecPair(s, k + 3, DecLoop(s, 8 - n, x));
    }
  }

  function Whiten(x: State, k0: bv32, k1: bv32, k2: bv32, k3: bv32): State {
    State(Xor(x.x0, k0), Xor(x.x1, k1), Xor(x.x2, k2), Xor(x.x3, k3))
  }

  lemma WhitenTwice(x: State, k0: bv32, k1: bv32, k2: bv32, k3: bv32)
    ensures Whiten(Whiten(x, k0, k1, k2, k3), k0, k1, k2, k3) == x
  {
    hide Xor;
    XorCancels(x.x0, k0);
    XorCancels(x.x1, k1);
    XorCancels(x.x2, k2);
    XorCancels(x.x3, k3);
  }

  function LoadWord(b: seq<bv8>, i: nat): bv32
    requires i + 4 <= |b|
  {
    Pack(b[i], b[i + 1], b[i + 2], b[i + 3])
  }

  lemma WordRoundTrip(x: bv32, b: seq<bv8>, i: nat)
    requires i + 4 <= |b|
    ensures LoadWord(WordBytes(x), 0) == x
    ensures WordBytes(LoadWord(b, i)) == b[i..i + 4]
  {
    hide Pack, Byte0, Byte1, Byte2, Byte3;
    PackUnpack(x);
    UnpackPack(b[i], b[i + 1], b[i + 2], b[i + 3]);
  }

  function Load(b: Block): State {
    State(LoadWord(b, 0), LoadWord(b, 4), LoadWord(b, 8), LoadWord(b, 12))
  }

  function Store(x: State): Block {
    WordBytes(x.x0) + WordBytes(x.x1) + WordBytes(x.x2) + WordBytes(x.x3)
  }

  lemma LoadStore(x: State)
    ensures Load(Store(x)) == x
  {
    hide WordBytes, Pack;
    var b := Store(x);
    assert WordBytes(x.x0) == b[0..4] && WordBytes(x.x1) == b[4..8];
    assert WordBytes(x.x2) == b[8..12] && WordBytes(x.x3) == b[12..16];
    WordRoundTrip(x.x0, b, 0);
    WordRoundTrip(x.x1, b, 4);
    WordRoundTrip(x.x2, b, 8);
    WordRoundTrip(x.x3, b, 12);
  }

  lemma StoreLoad(b: Block)
    ensures Store(Load(b)) == b
  {
    hide WordBytes, LoadWord;
    WordRoundTrip(0, b, 0);
    WordRoundTrip(0, b, 4);
    WordRoundTrip(0, b, 8);
    WordRoundTrip(0, b, 12);
    assert b == b[0..4] + b[4..8] + b[8..12] + b[12..16];
  }

  // Input and output whitening, with the halves swapped after the last round.
  function InWhiten(s: Schedule, x: State): State
    requires s.Valid()
  {
    Whiten(x, s.subKeys[0], s.subKeys[1], s.subKeys[2], s.subKeys[3])
  }

  function OutWhiten(s: Schedule, x: State): State
    requires s.Valid()
  {
    Whiten(x, s.subKeys[4], s.subKeys[5], s.subKeys[6], s.subKeys[7])
  }

  function Encrypt(s: Schedule, b: Block): Block
    requires s.Valid()
  {
    Store(OutWhiten(s, Swap(EncLoop(s, 8, InWhiten(s, Load(b))))))
  }

  function Decrypt(s: Schedule, b: Block): Block
    requires s.Valid()
  {
    Store(InWhiten(s, Swap(DecLoop(s, 8, OutWhiten(s, Load(b))))))
  }

  /** Decryption undoes encryption on every block, for every table contents and subkeys. */
  lemma DecryptEncrypt(s: Schedule, b: Block)
    requires s.Valid()
    ensures Decrypt(s, Encrypt(s, b)) == b
  {
    hide Xor, Load, Store, EncPair, DecPair;
    var x := InWhiten(s, Load(b));
    var y := Swap(EncLoop(s, 8, x));
    LoadStore(OutWhiten(s, y));
    WhitenTwice(y, s.subKeys[4], s.subKeys[5], s.subKeys[6], s.subKeys[7]);
    DecLoopUndoes(s, 8, x);
    WhitenTwice(Load(b), s.subKeys[0], s.subKeys[1], s.subKeys[2], s.subKeys[3]);
    StoreLoad(b);
  }

  lemma EncryptDecrypt(s: Schedule, b: Block)
    requires s.Valid()
    ensures Encrypt(s, Decrypt(s, b)) == b
  {
    hide Xor, Load, Store, EncPair, DecPair;
    var x := OutWhiten(s, Load(b));
    var y := Swap(DecLoop(s, 8, x));
    LoadStore(InWhiten(s, y));
    WhitenTwice(y, s.subKeys[0], s.subKeys[1], s.subKeys[2], s.subKeys[3]);
    EncLoopUndoes(s, 8, x);
    WhitenTwice(Load(b), s.subKeys[4], s.subKeys[5], s.subKeys[6], s.subKeys[7]);
    StoreLoad(b);
  }

  method EncryptPass(s: Schedule, k: nat, x: State) returns (y: State)
    requires s.Valid() && k + 3 < TOTAL_SUBKEYS
    ensures y == EncPair(s, k, x)
  {
    hide ForwardP, ForwardQ, BackwardP, BackwardQ, Sum, Double;
    var t0, t1 := s.g0(x.x0), s.g3(x.x1);
    var x2 := ForwardP(x.x2, Sum(t0, t1, s.subKeys[k]));
    var x3 := ForwardQ(x.x3, Sum(t0, Double(t1), s.subKeys[k + 1]));
    t0, t1 := s.g0(x2), s.g3(x3);
    var x0 := ForwardP(x.x0, Sum(t0, t1, s.subKeys[k + 2]));
    var x1 := ForwardQ(x.x1, Sum(t0, Double(t1), s.subKeys[k + 3]));
    y := State(x0, x1, x2, x3);
  }

  method EncryptRounds(s: Schedule, start: State) returns (x: State)
    requires s.Valid()
    ensures x == EncLoop(s, 8, start)
  {
    hide EncPair;
    x := start;
    var k := 8;
    var r := 0;
    ghost var n: nat := 0;
    while r < ROUNDS
      invariant n <= 8 && r == 2 * n && k == 8 + 4 * n
      invariant x == EncLoop(s, n, start)
    {
      x := EncryptPass(s, k, x);
      k := k + 4;
      r := r + 2;
      n := n + 1;
    }
  }

  method DecryptPass(s: Schedule, k: nat, x: State) returns (y: State)
    requires s.Valid() && 3 <= k < TOTAL_SUBKEYS
    ensures y == DecPair(s, k, x)
  {
    hide ForwardP, ForwardQ, BackwardP, BackwardQ, Sum, Double;
    var t0, t1 := s.g0(x.x0), s.g3(x.x1);
    var x3 := BackwardQ(x.x3, Sum(t0, Double(t1), s.subKeys[k]));
    var x2 := BackwardP(x.x2, Sum(t0, t1, s.subKeys[k - 1]));
    t0, t1 := s.g0(x2), s.g3(x3);
    var x1 := BackwardQ(x.x1, Sum(t0, Double(t1), s.subKeys[k - 2]));
    var x0 := BackwardP(x.x0, Sum(t0, t1, s.subKeys[k - 3]));
    y := State(x0, x1, x2, x3);
  }

  method DecryptRounds(s: Schedule, start: State) returns (x: State)
    requires s.Valid()
    ensures x == DecLoop(s, 8, start)
  {
    hide DecPair;
    x := start;
    var k := 7 + ROUNDS * 2;
    var r := 0;
    ghost var n: nat := 0;
    while r < ROUNDS
      invariant n <= 8 && r == 2 * n && k == 39 - 4 * n
      invariant x == DecLoop(s, n, start)
    {
      x := DecryptPass(s, k, x);
      k := k - 4;
      r := r + 2;
      n := n + 1;
    }
  }

  /** The block routine: whitening, one of the two round loops, whitening with the other keys. */
  method BlockCrypt16(s: Schedule, input: Block, decrypt: bool) returns (output: Block)
    requires s.Valid()
    ensures output == if decrypt then Decrypt(s, input) else Encrypt(s, input)
  {
    hide Xor, Load, Store;
    var x := Load(input);
    if decrypt {
      x := State(Xor(x.x0, s.subKeys[4]), Xor(x.x1, s.subKeys[5]), Xor(x.x2, s.subKeys[6]), Xor(x.x3, s.subKeys[7]));
      x := DecryptRounds(s, x);
      x := State(Xor(x.x0, s.subKeys[2]), Xor(x.x1, s.subKeys[3]), Xor(x.x2, s.subKeys[0]), Xor(x.x3, s.subKeys[1]));
    } else {
      x := State(Xor(x.x0, s.subKeys[0]), Xor(x.x1, s.subKeys[1]), Xor(x.x2, s.subKeys[2]), Xor(x.x3, s.subKeys[3]));
      x := EncryptRounds(s, x);
      x := State(Xor(x.x0, s.subKeys[6]), Xor(x.x1, s.subKeys[7]), Xor(x.x2, s.subKeys[4]), Xor(x.x3, s.subKeys[5]));
    }
    output := Store(State(x.x2, x.x3, x.x0, x.x1));
  }
}
