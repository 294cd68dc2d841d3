/** Key expansion: subkeys, and the four key-dependent tables that speed up the function h.

    The fixed permutations and the multiplication tables are parameters: the results hold
    for every content of them. */
module KeySchedule {
  import opened TwofishWords
  import opened TwofishCipher
  import opened ReedSolomon

  /** The fixed tables, P[0], P[1] and MDS[0] to MDS[3], as lookups. */
  datatype Tables = Tables(p0: bv8 -> bv8, p1: bv8 -> bv8,
                           mds0: bv8 -> bv32, mds1: bv8 -> bv32, mds2: bv8 -> bv32, mds3: bv8 -> bv32)

  const KEY_LENGTH: nat := 32
  const SK_BUMP: bv32 := 0x01010101

  function Index(b: bv8): nat { b as nat }

  function AsByte(i: nat): bv8
    requires i < 256
  {
    i as bv8
  }

  lemma IndexInverse(b: bv8, i: nat)
    requires i < 256
    ensures Index(b) < 256 && AsByte(Index(b)) == b && Index(AsByte(i)) == i
  {
    NatByte(i);
    ByteNat(b);
  }

  /** The byte of x with number n mod 4. */
  function ByteAt(x: bv32, n: nat): bv8 {
    match n % 4
    case 0 => Byte0(x)
    case 1 => Byte1(x)
    case 2 => Byte2(x)
    case _ => Byte3(x)
  }

  function Shift8(x: bv32): bv32 { x >> 8 }

  function ShiftBytes(x: bv32, n: nat): bv32 { if n == 0 then x else Shift8(ShiftBytes(x, n - 1)) }

  lemma ShiftedBytes(x: bv32)
    ensures Byte0(Shift8(x)) == Byte1(x)
    ensures Byte0(Shift8(Shift8(x))) == Byte2(x)
    ensures Byte0(Shift8(Shift8(Shift8(x)))) == Byte3(x)
  {
  }

  // The loop that the byte-extraction macro expands to.
  method ExtractByte(x: bv32, n: nat) returns (b: bv8)
    ensures b == ByteAt(x, n)
  {
    hide Shift8, Byte0, Byte1, Byte2, Byte3;
    var left, y := n % 4, x;
    while left > 0
      invariant 0 <= left <= n % 4 && y == ShiftBytes(x, n % 4 - left)
    {
      y := Shift8(y);
      left := left - 1;
    }
    ShiftedBytes(x);
    assert ShiftBytes(x, 2) == Shift8(ShiftBytes(x, 1));
    assert ShiftBytes(x, 3) == Shift8(ShiftBytes(x, 2));
    b := Byte0(y);
  }

  function Xor4(a: bv32, b: bv32, c: bv32, d: bv32): bv32 { a ^ b ^ c ^ d }

  // One column of h: the byte b driven through the fixed permutations and column j of the
  // key words, for 64-bit (k64Cnt = 1), 128-bit (2), 192-bit (3) and 256-bit (0 mod 4) keys.
  function Column(q4: bv8 -> bv8, q3: bv8 -> bv8, q2: bv8 -> bv8, q1: bv8 -> bv8, mds: bv8 -> bv32,
                  k64Cnt: nat, b: bv8, k0: bv8, k1: bv8, k2: bv8, k3: bv8): bv32
  {
    if k64Cnt % 4 == 1 then mds(XorByte(q1(b), k0))
    else
      var b := if k64Cnt % 4 == 0 then XorByte(q4(b), k3) else b;
      var b := if k64Cnt % 4 == 2 then b else XorByte(q3(b), k2);
      mds(XorByte(q1(XorByte(q2(b), k1)), k0))
  }

  function Column0(t: Tables, k64Cnt: nat, b: bv8, k: seq<bv32>): bv32
    requires |k| == 4
  {
    Column(t.p1, t.p1, t.p0, t.p0, t.mds0, k64Cnt, b, Byte0(k[0]), Byte0(k[1]), Byte0(k[2]), Byte0(k[3]))
  }

  function Column1(t: Tables, k64Cnt: nat, b: bv8, k: seq<bv32>): bv32
    requires |k| == 4
  {
    Column(t.p0, t.p1, t.p1, t.p0, t.mds1, k64Cnt, b, Byte1(k[0]), Byte1(k[1]), Byte1(k[2]), Byte1(k[3]))
  }

  function Column2(t: Tables, k64Cnt: nat, b: bv8, k: seq<bv32>): bv32
    requires |k| == 4
  {
    Column(t.p0, t.p0, t.p0, t.p1, t.mds2, k64Cnt, b, Byte2(k[0]), Byte2(k[1]), Byte2(k[2]), Byte2(k[3]))
  }

  function Column3(t: Tables, k64Cnt: nat, b: bv8, k: seq<bv32>): bv32
    requires |k| == 4
  {
    Column(t.p1, t.p0, t.p1, t.p1, t.mds3, k64Cnt, b, Byte3(k[0]), Byte3(k[1]), Byte3(k[2]), Byte3(k[3]))
  }

  /** The keyed function h, computed directly from the fixed tables. */
  function F32(t: Tables, k64Cnt: nat, x: bv32, k: seq<bv32>): bv32
    requires |k| == 4
  {
    Xor4(Column0(t, k64Cnt, Byte0(x), k), Column1(t, k64Cnt, Byte1(x), k),
         Column2(t, k64Cnt, Byte2(x), k), Column3(t, k64Cnt, Byte3(x), k))
  }

  // The lookups in the expanded table, whose four columns are interleaved in pairs.
  function Fe320(sBox: seq<bv32>, x: bv32): bv32
    requires |sBox| == 1024
  {
    IndexInverse(Byte0(x), 0); IndexInverse(Byte1(x), 0); IndexInverse(Byte2(x), 0); IndexInverse(Byte3(x), 0);
    Xor4(sBox[2 * Index(Byte0(x))], sBox[2 * Index(Byte1(x)) + 1],
         sBox[0x200 + 2 * Index(Byte2(x))], sBox[0x200 + 2 * Index(Byte3(x)) + 1])
  }

  function Fe323(sBox: seq<bv32>, x: bv32): bv32
    requires |sBox| == 1024
  {
    IndexInverse(Byte0(x), 0); IndexInverse(Byte1(x), 0); IndexInverse(Byte2(x), 0); IndexInverse(Byte3(x), 0);
    Xor4(sBox[2 * Index(Byte3(x))], sBox[2 * Index(Byte0(x)) + 1],
         sBox[0x200 + 2 * Index(Byte1(x))], sBox[0x200 + 2 * Index(Byte2(x)) + 1])
  }

  function Fe32(sBox: seq<bv32>, x: bv32, r: nat): bv32
    requires |sBox| == 1024
  {
    IndexInverse(ByteAt(x, r), 0); IndexInverse(ByteAt(x, r + 1), 0);
    IndexInverse(ByteAt(x, r + 2), 0); IndexInverse(ByteAt(x, r + 3), 0);
    Xor4(sBox[2 * Index(ByteAt(x, r))], sBox[2 * Index(ByteAt(x, r + 1)) + 1],
         sBox[0x200 + 2 * Index(ByteAt(x, r + 2))], sBox[0x200 + 2 * Index(ByteAt(x, r + 3)) + 1])
  }

  function Rol8(x: bv32): bv32 { (x << 8) | (x >> 24) }

  function Rol9(x: bv32): bv32 { (x << 9) | (x >> 23) }

  lemma Rol8Bytes(x: bv32)
    ensures Byte0(Rol8(x)) == Byte3(x) && Byte1(Rol8(x)) == Byte0(x)
    ensures Byte2(Rol8(x)) == Byte1(x) && Byte3(Rol8(x)) == Byte2(x)
  {
  }

  /** The table holds the four columns of h for every byte below n. */
  ghost predicate Expanded(t: Tables, k64Cnt: nat, k: seq<bv32>, sBox: seq<bv32>, n: nat)
    requires |k| == 4 && |sBox| == 1024 && n <= 256
  {
    forall b: bv8 :: Index(b) < n ==>
      && sBox[2 * Index(b)] == Column0(t, k64Cnt, b, k)
      && sBox[2 * Index(b) + 1] == Column1(t, k64Cnt, b, k)
      && sBox[0x200 + 2 * Index(b)] == Column2(t, k64Cnt, b, k)
      && sBox[0x200 + 2 * Index(b) + 1] == Column3(t, k64Cnt, b, k)
  }

  /** The fast lookups refine h: with an expanded table, for every word and every key size,
      Fe320 is h and Fe323 is h after a rotation by one byte; both are cases of Fe32. */
  lemma TablesRefineH(t: Tables, k64Cnt: nat, k: seq<bv32>, sBox: seq<bv32>, x: bv32)
    requires |k| == 4 && |sBox| == 1024 && Expanded(t, k64Cnt, k, sBox, 256)
    ensures Fe320(sBox, x) == F32(t, k64Cnt, x, k) == Fe32(sBox, x, 0)
    ensures Fe323(sBox, x) == F32(t, k64Cnt, Rol8(x), k) == Fe32(sBox, x, 3)
  {
    hide Fe320, Fe323, Fe32, F32, Expanded, Rol8;
    OneLookup(sBox, x);
    RefinesH(t, k64Cnt, k, sBox, x);
  }

  lemma OneLookup(sBox: seq<bv32>, x: bv32)
    requires |sBox| == 1024
    ensures Fe320(sBox, x) == Fe32(sBox, x, 0) && Fe323(sBox, x) == Fe32(sBox, x, 3)
  {
    hide Index, Byte0, Byte1, Byte2, Byte3, Xor4;
  }

  lemma RefinesH(t: Tables, k64Cnt: nat, k: seq<bv32>, sBox: seq<bv32>, x: bv32)
    requires |k| == 4 && |sBox| == 1024 && Expanded(t, k64Cnt, k, sBox, 256)
    ensures Fe320(sBox, x) == F32(t, k64Cnt, x, k) && Fe323(sBox, x) == F32(t, k64Cnt, Rol8(x), k)
  {
    hide Index, Byte0, Byte1, Byte2, Byte3, Rol8, Xor4, Column0, Column1, Column2, Column3, Expanded;
    Entries(t, k64Cnt, k, sBox, Byte0(x));
    Entries(t, k64Cnt, k, sBox, Byte1(x));
    Entries(t, k64Cnt, k, sBox, Byte2(x));
    Entries(t, k64Cnt, k, sBox, Byte3(x));
    Rol8Bytes(x);
  }

  // The entries of an expanded table for one byte.
  lemma Entries(t: Tables, k64Cnt: nat, k: seq<bv32>, sBox: seq<bv32>, b: bv8)
    requires |k| == 4 && |sBox| == 1024 && Expanded(t, k64Cnt, k, sBox, 256)
    ensures Index(b) < 256
    ensures sBox[2 * Index(b)] == Column0(t, k64Cnt, b, k) && sBox[2 * Index(b) + 1] == Column1(t, k64Cnt, b, k)
    ensures sBox[0x200 + 2 * Index(b)] == Column2(t, k64Cnt, b, k)
    ensures sBox[0x200 + 2 * Index(b) + 1] == Column3(t, k64Cnt, b, k)
  {
    hide Index, Column0, Column1, Column2, Column3;
    IndexInverse(b, 0);
  }

  // The table entries for one byte value, by the key size; larger keys fall through to smaller.
  method Entry(t: Tables, k64Cnt: nat, k: seq<bv32>, b: bv8) returns (c0: bv32, c1: bv32, c2: bv32, c3: bv32)
    requires |k| == 4
    ensures c0 == Column0(t, k64Cnt, b, k) && c1 == Column1(t, k64Cnt, b, k)
    ensures c2 == Column2(t, k64Cnt, b, k) && c3 == Column3(t, k64Cnt, b, k)
  {
    hide Byte0, Byte1, Byte2, Byte3, XorByte;
    var b0, b1, b2, b3 := b, b, b, b;
    if k64Cnt % 4 == 1 {
      c0 := t.mds0(XorByte(t.p0(b0), Byte0(k[0])));
      c1 := t.mds1(XorByte(t.p0(b1), Byte1(k[0])));
      c2 := t.mds2(XorByte(t.p1(b2), Byte2(k[0])));
      c3 := t.mds3(XorByte(t.p1(b3), Byte3(k[0])));
    } else {
      if k64Cnt % 4 == 0 {
        b0 := XorByte(t.p1(b0), Byte0(k[3]));
        b1 := XorByte(t.p0(b1), Byte1(k[3]));
        b2 := XorByte(t.p0(b2), Byte2(k[3]));
        b3 := XorByte(t.p1(b3), Byte3(k[3]));
      }
      if k64Cnt % 4 != 2 {
        b0 := XorByte(t.p1(b0), Byte0(k[2]));
        b1 := XorByte(t.p1(b1), Byte1(k[2]));
        b2 := XorByte(t.p0(b2), Byte2(k[2]));
        b3 := XorByte(t.p0(b3), Byte3(k[2]));
      }
      c0 := t.mds0(XorByte(t.p0(XorByte(t.p0(b0), Byte0(k[1]))), Byte0(k[0])));
      c1 := t.mds1(XorByte(t.p0(XorByte(t.p1(b1), Byte1(k[1]))), Byte1(k[0])));
      c2 := t.mds2(XorByte(t.p1(XorByte(t.p0(b2), Byte2(k[1]))), Byte2(k[0])));
      c3 := t.mds3(XorByte(t.p1(XorByte(t.p1(b3), Byte3(k[1]))), Byte3(k[0])));
    }
  }

  method FillTables(t: Tables, k64Cnt: nat, k: seq<bv32>, sBox: array<bv32>)
    requires |k| == 4 && sBox.Length == 1024
    modifies sBox
    ensures Expanded(t, k64Cnt, k, sBox[..], 256)
  {
    hide Index, AsByte, Column0, Column1, Column2, Column3;
    var i := 0;
    while i < 256
      invariant 0 <= i <= 256 && Expanded(t, k64Cnt, k, sBox[..], i)
    {
      ghost var before := sBox[..];
      var c0, c1, c2, c3 := Entry(t, k64Cnt, k, AsByte(i));
      sBox[2 * i] := c0;
      sBox[2 * i + 1] := c1;
      sBox[0x200 + 2 * i] := c2;
      sBox[0x200 + 2 * i + 1] := c3;
      assert sBox[..] == before[2 * i := c0][2 * i + 1 := c1][0x200 + 2 * i := c2][0x200 + 2 * i + 1 := c3];
      ExpandedNext(t, k64Cnt, k, before, sBox[..], i);
      i := i + 1;
    }
  }

  lemma ExpandedNext(t: Tables, k64Cnt: nat, k: seq<bv32>, before: seq<bv32>, after: seq<bv32>, i: nat)
    requires |k| == 4 && |before| == |after| == 1024 && i < 256
    requires Expanded(t, k64Cnt, k, before, i)
    requires forall j :: 0 <= j < 1024 && j / 2 != i && j / 2 != 0x100 + i ==> after[j] == before[j]
    requires after[2 * i] == Column0(t, k64Cnt, AsByte(i), k)
    requires after[2 * i + 1] == Column1(t, k64Cnt, AsByte(i), k)
    requires after[0x200 + 2 * i] == Column2(t, k64Cnt, AsByte(i), k)
    requires after[0x200 + 2 * i + 1] == Column3(t, k64Cnt, AsByte(i), k)
    ensures Expanded(t, k64Cnt, k, after, i + 1)
  {
    hide Index, AsByte, Column0, Column1, Column2, Column3;
    forall b: bv8 | Index(b) < i + 1
      ensures && after[2 * Index(b)] == Column0(t, k64Cnt, b, k)
              && after[2 * Index(b) + 1] == Column1(t, k64Cnt, b, k)
              && after[0x200 + 2 * Index(b)] == Column2(t, k64Cnt, b, k)
              && after[0x200 + 2 * Index(b) + 1] == Column3(t, k64Cnt, b, k)
    {
      IndexInverse(b, i);
    }
  }

  // ---- Key expansion ----

  /** The even, odd and S-box key words of a 256-bit key. */
  function EvenWords(key: seq<bv8>): seq<bv32>
    requires |key| == KEY_LENGTH
  {
    [LoadWord(key, 0), LoadWord(key, 8), LoadWord(key, 16), LoadWord(key, 24)]
  }

  function OddWords(key: seq<bv8>): seq<bv32>
    requires |key| == KEY_LENGTH
  {
    [LoadWord(key, 4), LoadWord(key, 12), LoadWord(key, 20), LoadWord(key, 28)]
  }

  /** The Reed-Solomon words of the four key pairs, in reverse order. */
  function SBoxWords(key: seq<bv8>): seq<bv32>
    requires |key| == KEY_LENGTH
  {
    var e, o := EvenWords(key), OddWords(key);
    [Encode(e[3], o[3]), Encode(e[2], o[2]), Encode(e[1], o[1]), Encode(e[0], o[0])]
  }

  function Plus(x: bv32, y: bv32): bv32 { x + y }

  function Bumps(n: nat): bv32 { if n == 0 then 0 else Plus(Bumps(n - 1), SK_BUMP) }

  /** Subkey j, as section 4.3.4 of the paper defines it: of the pair A = h(2i rho, Me) and
      B = ROL(h((2i+1) rho, Mo), 8), the even subkey is A + B and the odd one ROL(A + 2B, 9). */
  function SubKey(t: Tables, key: seq<bv8>, j: nat): bv32
    requires |key| == KEY_LENGTH
  {
    var i := j / 2;
    var a := F32(t, 4, Bumps(2 * i), EvenWords(key));
    var b := Rol8(F32(t, 4, Bumps(2 * i + 1), OddWords(key)));
    if j % 2 == 0 then Plus(a, b) else Rol9(Plus(Plus(a, b), b))
  }

  method KeyWords(key: seq<bv8>) returns (k32e: seq<bv32>, k32o: seq<bv32>, sBoxKey: seq<bv32>)
    requires |key| == KEY_LENGTH
    ensures k32e == EvenWords(key) && k32o == OddWords(key) && sBoxKey == SBoxWords(key)
  {
    hide LoadWord, Encode;
    k32e, k32o, sBoxKey := [0, 0, 0, 0], [0, 0, 0, 0], [0, 0, 0, 0];
    var offset, i, j := 0, 0, KEY_LENGTH / 8 - 1;
    while i < 4 && offset < KEY_LENGTH
      invariant 0 <= i <= 4 && offset == 8 * i && j == 3 - i
      invariant |k32e| == |k32o| == |sBoxKey| == 4
      invariant forall n :: 0 <= n < i ==> k32e[n] == LoadWord(key, 8 * n)
      invariant forall n :: 0 <= n < i ==> k32o[n] == LoadWord(key, 8 * n + 4)
      invariant forall n :: 0 <= n < i ==> sBoxKey[3 - n] == Encode(k32e[n], k32o[n])
    {
      k32e := k32e[i := LoadWord(key, offset)];
      offset := offset + 4;
      k32o := k32o[i := LoadWord(key, offset)];
      offset := offset + 4;
      var r := RsMdsEncode(k32e[i], k32o[i]);
      sBoxKey := sBoxKey[j := r];
      i, j := i + 1, j - 1;
    }
    assert sBoxKey[3 - 0] == Encode(k32e[0], k32o[0]) && sBoxKey[3 - 1] == Encode(k32e[1], k32o[1]);
    assert sBoxKey[3 - 2] == Encode(k32e[2], k32o[2]) && sBoxKey[3 - 3] == Encode(k32e[3], k32o[3]);
  }

  /** Expands a key: every subkey by its definition, and tables that refine h. */
  method MakeSubKeys(t: Tables, key: seq<bv8>) returns (sBox: seq<bv32>, subKeys: seq<bv32>)
    requires |key| == KEY_LENGTH
    ensures |subKeys| == TOTAL_SUBKEYS && forall j :: 0 <= j < TOTAL_SUBKEYS ==> subKeys[j] == SubKey(t, key, j)
    ensures |sBox| == 1024 && Expanded(t, 4, SBoxWords(key), sBox, 256)
  {
    hide F32, Rol8, Rol9, Plus, Expanded, EvenWords, OddWords, SBoxWords;
    var k64Cnt := KEY_LENGTH / 8;
    var k32e, k32o, sBoxKey := KeyWords(key);
    WordCounts(key);
    subKeys := [];
    var q: bv32 := 0;
    while |subKeys| < TOTAL_SUBKEYS
      invariant |subKeys| <= TOTAL_SUBKEYS && |subKeys| % 2 == 0 && q == Bumps(|subKeys|)
      invariant forall j :: 0 <= j < |subKeys| ==> subKeys[j] == SubKey(t, key, j)
      decreases TOTAL_SUBKEYS - |subKeys|
    {
      var a := F32(t, k64Cnt, q, k32e);
      q := Plus(q, SK_BUMP);
      var b := F32(t, k64Cnt, q, k32o);
      q := Plus(q, SK_BUMP);
      b := Rol8(b);
      a := Plus(a, b);
      ghost var n := |subKeys|;
      assert Bumps(n + 2) == q;
      subKeys := subKeys + [a];
      a := Plus(a, b);
      subKeys := subKeys + [Rol9(a)];
      assert subKeys[n] == SubKey(t, key, n) && subKeys[n + 1] == SubKey(t, key, n + 1);
    }
    var box := new bv32[1024];
    FillTables(t, k64Cnt, sBoxKey, box);
    sBox := box[..];
  }

  lemma WordCounts(key: seq<bv8>)
    requires |key| == KEY_LENGTH
    ensures |EvenWords(key)| == |OddWords(key)| == |SBoxWords(key)| == 4
  {
  }

  /** The schedule that the block transform runs on. */
  function ScheduleOf(sBox: seq<bv32>, subKeys: seq<bv32>): Schedule
    requires |sBox| == 1024
  {
    Schedule(x => Fe320(sBox, x), x => Fe323(sBox, x), subKeys)
  }

  /** On an expanded key the two round functions are h, and h of the word rotated by one byte. */
  lemma ScheduleIsH(t: Tables, key: seq<bv8>, sBox: seq<bv32>, subKeys: seq<bv32>, x: bv32)
    requires |key| == KEY_LENGTH && |sBox| == 1024 && Expanded(t, 4, SBoxWords(key), sBox, 256)
    ensures var s := ScheduleOf(sBox, subKeys);
            s.g0(x) == F32(t, 4, x, SBoxWords(key)) && s.g3(x) == F32(t, 4, Rol8(x), SBoxWords(key))
  {
    hide Fe320, Fe323, F32, Rol8, Expanded, SBoxWords;
    WordCounts(key);
    TablesRefineH(t, 4, SBoxWords(key), sBox, x);
  }
}
