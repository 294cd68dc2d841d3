/** The cipher as sections 4 to 4.3.4 of "Twofish: A 128-Bit Block Cipher" write it, in 32-bit arithmetic,
    and what the program computes, against it. */
module TwofishPaper {
  import opened TwofishWords
  import opened TwofishCipher
  import opened KeySchedule
  import ReedSolomon

  // ---- The cipher ----

  /** Word i of some bytes: four of them, the least significant first. */
  function Word(b: seq<bv8>, i: nat): bv32
    requires 4 * i + 4 <= |b|
  {
    (b[4 * i] as bv32) + 0x100 * (b[4 * i + 1] as bv32)
    + 0x1_0000 * (b[4 * i + 2] as bv32) + 0x100_0000 * (b[4 * i + 3] as bv32)
  }

  function Digits(x: bv32): (r: seq<bv8>)
    ensures |r| == 4
  {
    [(x % 0x100) as bv8, (x / 0x100 % 0x100) as bv8, (x / 0x1_0000 % 0x100) as bv8, (x / 0x100_0000) as bv8]
  }

  function Mixed(x: bv32, y: bv32): bv32 { x ^ y }

  function Rotated(x: bv32): bv32 { x.RotateLeft(8) }

  // The two words that a round changes, by the outputs of g and a subkey.
  function Third(x2: bv32, t0: bv32, t1: bv32, k: bv32): bv32 { (x2 ^ (t0 + t1 + k)).RotateRight(1) }

  function Fourth(x3: bv32, t0: bv32, t1: bv32, k: bv32): bv32 { x3.RotateLeft(1) ^ (t0 + 2 * t1 + k) }

  /** One round: g of a word and of its neighbour rotated by eight bits, a pseudo-Hadamard transform
      with two subkeys, two rotations by one bit, and the halves swapped. */
  function Round(g: bv32 -> bv32, k: seq<bv32>, r: nat, x: State): State
    requires |k| == 40 && r < 16
  {
    var t0, t1 := g(x.x0), g(Rotated(x.x1));
    State(Third(x.x2, t0, t1, k[2 * r + 8]), Fourth(x.x3, t0, t1, k[2 * r + 9]), x.x0, x.x1)
  }

  function Rounds(g: bv32 -> bv32, k: seq<bv32>, r: nat, x: State): State
    requires |k| == 40 && r <= 16
  {
    if r == 0 then x else Round(g, k, r - 1, Rounds(g, k, r - 1, x))
  }

  function Start(k: seq<bv32>, p: Block): State
    requires |k| == 40
  {
    State(Mixed(Word(p, 0), k[0]), Mixed(Word(p, 1), k[1]), Mixed(Word(p, 2), k[2]), Mixed(Word(p, 3), k[3]))
  }

  // The last swap is undone.
  function Finish(k: seq<bv32>, x: State): Block
    requires |k| == 40
  {
    Digits(Mixed(x.x2, k[4])) + Digits(Mixed(x.x3, k[5])) + Digits(Mixed(x.x0, k[6])) + Digits(Mixed(x.x1, k[7]))
  }

  /** Sixteen rounds between two whitenings. */
  function Cipher(g: bv32 -> bv32, k: seq<bv32>, p: Block): Block
    requires |k| == 40
  {
    Finish(k, Rounds(g, k, 16, Start(k, p)))
  }

  // ---- The function h and the key schedule ----

  /** Which fixed permutation column j goes through in each stage, the last stage first. */
  const STAGES: seq<seq<nat>> := [[0, 0, 1, 1], [0, 1, 0, 1], [1, 1, 0, 0], [1, 0, 0, 1]]

  function Keyed(y: bv8, key: bv8): bv8 { y ^ key }

  // One stage: a permutation, and byte j of a key word.
  function Stage(t: Tables, i: nat, y: bv8, key: bv32, j: nat): bv8
    requires j < 4
  {
    Keyed(if i == 0 then t.p0(y) else t.p1(y), Digits(key)[j])
  }

  /** A byte of column j through k stages, which use up the key words from the last one on. */
  function Stages(t: Tables, j: nat, y: bv8, l: seq<bv32>, k: nat): bv8
    requires j < 4 && k <= 4 && |l| == 4
    decreases k
  {
    if k == 0 then y else Stages(t, j, Stage(t, STAGES[k - 1][j], y, l[k - 1], j), l, k - 1)
  }

  function Columns(a: bv32, b: bv32, c: bv32, d: bv32): bv32 { a ^ b ^ c ^ d }

  /** The function h of a word and k key words. */
  function H(t: Tables, x: bv32, l: seq<bv32>, k: nat): bv32
    requires k <= 4 && |l| == 4
  {
    Columns(t.mds0(Stages(t, 0, Digits(x)[0], l, k)), t.mds1(Stages(t, 1, Digits(x)[1], l, k)),
            t.mds2(Stages(t, 2, Digits(x)[2], l, k)), t.mds3(Stages(t, 3, Digits(x)[3], l, k)))
  }

  /** The multiple of 2^24 + 2^16 + 2^8 + 1 that h is applied to. */
  function Multiple(n: nat): bv32
    requires n < 80
  {
    Times(Numeral(n))
  }

  function Numeral(n: nat): bv8
    requires n < 0x100
  {
    n as bv8
  }

  function Times(c: bv8): bv32 { (c as bv32) * 0x01010101 }

  function Add(a: bv32, b: bv32): bv32 { a + b }

  function Turned(x: bv32): bv32 { x.RotateLeft(9) }

  function Me(key: seq<bv8>): (l: seq<bv32>)
    requires |key| == 32
    ensures |l| == 4
  {
    [Word(key, 0), Word(key, 2), Word(key, 4), Word(key, 6)]
  }

  function Mo(key: seq<bv8>): (l: seq<bv32>)
    requires |key| == 32
    ensures |l| == 4
  {
    [Word(key, 1), Word(key, 3), Word(key, 5), Word(key, 7)]
  }

  /** Subkey j of a 256-bit key. */
  function Key(t: Tables, key: seq<bv8>, j: nat): bv32
    requires |key| == 32 && j < 40
  {
    var a := H(t, Multiple(2 * (j / 2)), Me(key), 4);
    var b := Rotated(H(t, Multiple(2 * (j / 2) + 1), Mo(key), 4));
    if j % 2 == 0 then Add(a, b) else Turned(Add(Add(a, b), b))
  }

  function Keys(t: Tables, key: seq<bv8>): (k: seq<bv32>)
    requires |key| == 32
    ensures |k| == 40
  {
    seq(40, j requires 0 <= j < 40 => Key(t, key, j))
  }

  /** The key words of the S-boxes: the Reed-Solomon words of the quarters of the key, the last one first. */
  function Boxes(key: seq<bv8>): (l: seq<bv32>)
    requires |key| == 32
    ensures |l| == 4
  {
    [ReedSolomon.Encode(Word(key, 6), Word(key, 7)), ReedSolomon.Encode(Word(key, 4), Word(key, 5)),
     ReedSolomon.Encode(Word(key, 2), Word(key, 3)), ReedSolomon.Encode(Word(key, 0), Word(key, 1))]
  }

  /** The published cipher with a 256-bit key. */
  function Twofish(t: Tables, key: seq<bv8>, p: Block): Block
    requires |key| == 32
  {
    Cipher(x => H(t, x, Boxes(key), 4), Keys(t, key), p)
  }

  // ---- The rounds of the program ----

  lemma WordIs(b: seq<bv8>, i: nat)
    requires 4 * i + 4 <= |b|
    ensures LoadWord(b, 4 * i) == Word(b, i)
  {
  }

  lemma DigitsAre(x: bv32)
    ensures WordBytes(x) == Digits(x) == [Byte0(x), Byte1(x), Byte2(x), Byte3(x)]
  {
  }

  lemma XorIs(x: bv32, y: bv32)
    ensures Xor(x, y) == Mixed(x, y)
  {
  }

  lemma RotationsAre(x: bv32)
    ensures Rol1(x) == x.RotateLeft(1) && Ror1(x) == x.RotateRight(1)
    ensures Rol8(x) == Rotated(x) && Rol9(x) == Turned(x)
  {
  }

  lemma ThirdIs(x: bv32, t0: bv32, t1: bv32, k: bv32)
    ensures ForwardP(x, Sum(t0, t1, k)) == Third(x, t0, t1, k)
  {
    RotationsAre(x ^ (t0 + t1 + k));
  }

  lemma FourthIs(x: bv32, t0: bv32, t1: bv32, k: bv32)
    ensures ForwardQ(x, Sum(t0, TwofishCipher.Double(t1), k)) == Fourth(x, t0, t1, k)
  {
    RotationsAre(x);
    DoubleIs(t1);
  }

  lemma DoubleIs(x: bv32)
    ensures TwofishCipher.Double(x) == 2 * x
  {
  }

  /** The two look-ups of a schedule are the paper's g, of a word and of a word rotated by eight bits. */
  ghost predicate RunsOn(s: Schedule, g: bv32 -> bv32) {
    && s.Valid()
    && forall x :: s.g0(x) == g(x) && s.g3(x) == g(Rotated(x))
  }

  lemma PairIsTwoRounds(s: Schedule, g: bv32 -> bv32, n: nat, x: State)
    requires RunsOn(s, g) && n < 8
    ensures EncPair(s, 8 + 4 * n, x) == Round(g, s.subKeys, 2 * n + 1, Round(g, s.subKeys, 2 * n, x))
  {
    hide ForwardP, ForwardQ, Sum, TwofishCipher.Double, Third, Fourth, Rotated;
    var k, z := 8 + 4 * n, EncPair(s, 8 + 4 * n, x);
    ThirdIs(x.x2, g(x.x0), g(Rotated(x.x1)), s.subKeys[k]);
    FourthIs(x.x3, g(x.x0), g(Rotated(x.x1)), s.subKeys[k + 1]);
    ThirdIs(x.x0, g(z.x2), g(Rotated(z.x3)), s.subKeys[k + 2]);
    FourthIs(x.x1, g(z.x2), g(Rotated(z.x3)), s.subKeys[k + 3]);
  }

  lemma {:induction false} EncLoopIsPaper(s: Schedule, g: bv32 -> bv32, n: nat, x: State)
    requires RunsOn(s, g) && n <= 8
    ensures EncLoop(s, n, x) == Rounds(g, s.subKeys, 2 * n, x)
  {
    hide EncPair, Round, RunsOn;
    RunsOnValid(s, g);
    if n > 0 {
      EncLoopIsPaper(s, g, n - 1, x);
      PairIsTwoRounds(s, g, n - 1, EncLoop(s, n - 1, x));
      var before := Rounds(g, s.subKeys, 2 * (n - 1), x);
      assert Rounds(g, s.subKeys, 2 * n - 1, x) == Round(g, s.subKeys, 2 * (n - 1), before);
    }
  }

  lemma StartIs(s: Schedule, b: Block)
    requires s.Valid()
    ensures InWhiten(s, Load(b)) == Start(s.subKeys, b)
  {
    hide LoadWord, Word, Xor, Mixed;
    WordIs(b, 0);
    WordIs(b, 1);
    WordIs(b, 2);
    WordIs(b, 3);
    XorIs(Word(b, 0), s.subKeys[0]);
    XorIs(Word(b, 1), s.subKeys[1]);
    XorIs(Word(b, 2), s.subKeys[2]);
    XorIs(Word(b, 3), s.subKeys[3]);
  }

  lemma FinishIs(s: Schedule, x: State)
    requires s.Valid()
    ensures Store(OutWhiten(s, Swap(x))) == Finish(s.subKeys, x)
  {
    hide WordBytes, Digits, Xor, Mixed;
    XorIs(x.x2, s.subKeys[4]);
    XorIs(x.x3, s.subKeys[5]);
    XorIs(x.x0, s.subKeys[6]);
    XorIs(x.x1, s.subKeys[7]);
    DigitsAre(Mixed(x.x2, s.subKeys[4]));
    DigitsAre(Mixed(x.x3, s.subKeys[5]));
    DigitsAre(Mixed(x.x0, s.subKeys[6]));
    DigitsAre(Mixed(x.x1, s.subKeys[7]));
  }

  /** The unrolled loop, which swaps nothing, computes the published cipher. */
  lemma EncryptIsPaper(s: Schedule, g: bv32 -> bv32, b: Block)
    requires RunsOn(s, g)
    ensures Encrypt(s, b) == Cipher(g, s.subKeys, b)
  {
    hide Load, Store, InWhiten, OutWhiten, Start, Finish, EncLoop, Rounds, RunsOn;
    RunsOnValid(s, g);
    StartIs(s, b);
    EncLoopIsPaper(s, g, 8, Start(s.subKeys, b));
    FinishIs(s, EncLoop(s, 8, InWhiten(s, Load(b))));
  }

  lemma RunsOnValid(s: Schedule, g: bv32 -> bv32)
    ensures RunsOn(s, g) ==> s.Valid()
  {
  }

  // ---- The function h and the keys of the program ----

  lemma StageIs(t: Tables, i: nat, y: bv8, key: bv32)
    ensures var z := if i == 0 then t.p0(y) else t.p1(y);
      && Stage(t, i, y, key, 0) == XorByte(z, Byte0(key)) && Stage(t, i, y, key, 1) == XorByte(z, Byte1(key))
      && Stage(t, i, y, key, 2) == XorByte(z, Byte2(key)) && Stage(t, i, y, key, 3) == XorByte(z, Byte3(key))
  {
    hide Digits, Byte0, Byte1, Byte2, Byte3, WordBytes, Keyed, XorByte;
    DigitsAre(key);
    var z := if i == 0 then t.p0(y) else t.p1(y);
    KeyedIs(z, Byte0(key));
    KeyedIs(z, Byte1(key));
    KeyedIs(z, Byte2(key));
    KeyedIs(z, Byte3(key));
  }

  lemma KeyedIs(y: bv8, key: bv8)
    ensures Keyed(y, key) == XorByte(y, key)
  {
  }

  lemma StagesAre(t: Tables, j: nat, y: bv8, l: seq<bv32>, k: nat)
    requires j < 4 && 0 < k <= 4 && |l| == 4
    ensures var y4 := if k < 4 then y else Stage(t, STAGES[3][j], y, l[3], j);
            var y3 := if k < 3 then y4 else Stage(t, STAGES[2][j], y4, l[2], j);
            var y2 := if k < 2 then y3 else Stage(t, STAGES[1][j], y3, l[1], j);
            Stages(t, j, y, l, k) == Stage(t, STAGES[0][j], y2, l[0], j)
  {
    hide Stage;
    var y4 := if k < 4 then y else Stage(t, STAGES[3][j], y, l[3], j);
    var y3 := if k < 3 then y4 else Stage(t, STAGES[2][j], y4, l[2], j);
    var y2 := if k < 2 then y3 else Stage(t, STAGES[1][j], y3, l[1], j);
    assert k >= 4 ==> Stages(t, j, y, l, k) == Stages(t, j, y4, l, 3);
    assert k >= 3 ==> Stages(t, j, y4, l, 3) == Stages(t, j, y3, l, 2);
    assert k >= 2 ==> Stages(t, j, y3, l, 2) == Stages(t, j, y2, l, 1);
    assert Stages(t, j, y2, l, 1) == Stage(t, STAGES[0][j], y2, l[0], j);
  }

  // The four columns of h on a byte, for every key size.
  lemma ColumnIs(t: Tables, k: nat, y: bv8, l: seq<bv32>)
    requires 0 < k <= 4 && |l| == 4
    ensures Column0(t, k, y, l) == t.mds0(Stages(t, 0, y, l, k)) && Column1(t, k, y, l) == t.mds1(Stages(t, 1, y, l, k))
    ensures Column2(t, k, y, l) == t.mds2(Stages(t, 2, y, l, k)) && Column3(t, k, y, l) == t.mds3(Stages(t, 3, y, l, k))
  {
    hide Stage, Stages, XorByte, Byte0, Byte1, Byte2, Byte3;
    forall i: nat, z: bv8, key: bv32
      ensures var w := if i == 0 then t.p0(z) else t.p1(z);
        && Stage(t, i, z, key, 0) == XorByte(w, Byte0(key)) && Stage(t, i, z, key, 1) == XorByte(w, Byte1(key))
        && Stage(t, i, z, key, 2) == XorByte(w, Byte2(key)) && Stage(t, i, z, key, 3) == XorByte(w, Byte3(key))
    {
      StageIs(t, i, z, key);
    }
    StagesAre(t, 0, y, l, k);
    StagesAre(t, 1, y, l, k);
    StagesAre(t, 2, y, l, k);
    StagesAre(t, 3, y, l, k);
  }

  lemma ColumnsAre(a: bv32, b: bv32, c: bv32, d: bv32)
    ensures Xor4(a, b, c, d) == Columns(a, b, c, d)
  {
  }

  /** The program's h, unrolled by column and by key size, is that of the paper. */
  lemma F32IsH(t: Tables, k: nat, x: bv32, l: seq<bv32>)
    requires 0 < k <= 4 && |l| == 4
    ensures F32(t, k, x, l) == H(t, x, l, k)
  {
    hide Column0, Column1, Column2, Column3, Stages, Digits, Byte0, Byte1, Byte2, Byte3, Xor4, Columns, WordBytes;
    DigitsAre(x);
    ColumnIs(t, k, Byte0(x), l);
    ColumnIs(t, k, Byte1(x), l);
    ColumnIs(t, k, Byte2(x), l);
    ColumnIs(t, k, Byte3(x), l);
    ColumnsAre(t.mds0(Stages(t, 0, Byte0(x), l, k)), t.mds1(Stages(t, 1, Byte1(x), l, k)),
               t.mds2(Stages(t, 2, Byte2(x), l, k)), t.mds3(Stages(t, 3, Byte3(x), l, k)));
  }

  /** Adding the bump again and again gives its multiples. */
  lemma {:induction false} BumpsAre(n: nat)
    requires n < 80
    ensures Bumps(n) == Multiple(n)
  {
    hide Plus, AddOne, Times, Numeral;
    if n > 0 {
      BumpsAre(n - 1);
      NextByte(n - 1);
      BumpIs(Numeral(n - 1));
    } else {
      NoBump();
    }
  }

  lemma NoBump()
    ensures Bumps(0) == Multiple(0)
  {
  }

  lemma NextByte(n: nat)
    requires n < 80
    ensures Numeral(n + 1) == AddOne(Numeral(n)) && Numeral(n) < 80
  {
    hide AddOne;
    NatByte(n);
    var y := n as bv8;
    ByteBelow(y);
    ByteStep(y);
    ByteNat(AddOne(y));
  }

  function AddOne(y: bv8): bv8 { y + 1 }

  lemma ByteBelow(y: bv8)
    requires y as nat < 80
    ensures y < 80
  {
  }

  lemma ByteStep(y: bv8)
    requires y < 80
    ensures AddOne(y) as nat == y as nat + 1
  {
  }

  lemma BumpIs(c: bv8)
    requires c < 80
    ensures Plus(Times(c), SK_BUMP) == Times(AddOne(c))
  {
  }

  lemma PlusIs(a: bv32, b: bv32)
    ensures Plus(a, b) == Add(a, b)
  {
  }

  lemma KeyWordsAre(key: seq<bv8>)
    requires |key| == 32
    ensures EvenWords(key) == Me(key) && OddWords(key) == Mo(key) && SBoxWords(key) == Boxes(key)
  {
    hide LoadWord, Word, ReedSolomon.Encode;
    for i := 0 to 8
      invariant forall j :: 0 <= j < i ==> LoadWord(key, 4 * j) == Word(key, j)
    {
      WordIs(key, i);
    }
    assert LoadWord(key, 4 * 0) == Word(key, 0) && LoadWord(key, 4 * 1) == Word(key, 1);
    assert LoadWord(key, 4 * 2) == Word(key, 2) && LoadWord(key, 4 * 3) == Word(key, 3);
    assert LoadWord(key, 4 * 4) == Word(key, 4) && LoadWord(key, 4 * 5) == Word(key, 5);
    assert LoadWord(key, 4 * 6) == Word(key, 6) && LoadWord(key, 4 * 7) == Word(key, 7);
  }

  /** Every subkey is the one that the paper defines. */
  lemma SubKeyIs(t: Tables, key: seq<bv8>, j: nat)
    requires |key| == 32 && j < 40
    ensures SubKey(t, key, j) == Key(t, key, j)
  {
    hide F32, H, Me, Mo, EvenWords, OddWords, SBoxWords, Boxes, Bumps, Multiple, Plus, Rol1, Ror1, Rol8,
         Rol9, Rotated, Turned, Add;
    var i := j / 2;
    KeyWordsAre(key);
    BumpsAre(2 * i);
    BumpsAre(2 * i + 1);
    F32IsH(t, 4, Multiple(2 * i), Me(key));
    F32IsH(t, 4, Multiple(2 * i + 1), Mo(key));
    var b := H(t, Multiple(2 * i + 1), Mo(key), 4);
    var a, r := H(t, Multiple(2 * i), Me(key), 4), Rotated(b);
    RotationsAre(b);
    PlusIs(a, r);
    PlusIs(Add(a, r), r);
    RotationsAre(Add(Add(a, r), r));
  }

  /** What the key expansion promises of a schedule makes the block routine the published cipher. */
  lemma ScheduleIsPaper(t: Tables, key: seq<bv8>, s: Schedule, b: Block)
    requires |key| == 32 && s.Valid()
    requires forall j :: 0 <= j < TOTAL_SUBKEYS ==> s.subKeys[j] == SubKey(t, key, j)
    requires forall x :: s.g0(x) == F32(t, 4, x, SBoxWords(key)) && s.g3(x) == F32(t, 4, Rol8(x), SBoxWords(key))
    ensures Encrypt(s, b) == Twofish(t, key, b)
  {
    hide F32, SubKey, H, Key, Cipher, SBoxWords, Boxes, Rol8, Rotated, Encrypt;
    KeyWordsAre(key);
    var g := (x: bv32) => H(t, x, Boxes(key), 4);
    forall x: bv32
      ensures s.g0(x) == g(x) && s.g3(x) == g(Rotated(x))
    {
      RotationsAre(x);
      F32IsH(t, 4, x, Boxes(key));
      F32IsH(t, 4, Rol8(x), Boxes(key));
    }
    forall j | 0 <= j < 40
      ensures s.subKeys[j] == Key(t, key, j)
    {
      SubKeyIs(t, key, j);
    }
    assert s.subKeys == Keys(t, key);
    EncryptIsPaper(s, g, b);
    assert Cipher(g, Keys(t, key), b) == Twofish(t, key, b);
  }
}
