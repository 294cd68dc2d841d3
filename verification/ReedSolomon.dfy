/** The (12, 8) Reed-Solomon step of the key schedule, against division of polynomials with
    coefficients in GF(2^8) modulo x^8 + x^6 + x^3 + x^2 + 1 (0x14D). */
module ReedSolomon {
  import opened TwofishWords

  // ---- The shift register of the library ----

  const RS_GF_FDBK: bv32 := 0x14D

  function Wide(b: bv8): bv32 { b as bv32 }

  function Feedback2(b: bv8): bv32 {
    ((Wide(b) << 1) ^ (if b & 0x80 != 0 then RS_GF_FDBK else 0)) & 0xFF
  }

  function Feedback3(b: bv8): bv32 {
    ((Wide(b) >> 1) & 0x7F) ^ (if b & 1 != 0 then RS_GF_FDBK >> 1 else 0) ^ Feedback2(b)
  }

  function Spread(b: bv32, g2: bv32, g3: bv32): bv32 { (g3 << 24) ^ (g2 << 16) ^ (g3 << 8) ^ b }

  function Xor32(x: bv32, y: bv32): bv32 { x ^ y }

  function ShiftUp(x: bv32): bv32 { x << 8 }

  /** One application of the macro: the top byte is shifted out and fed back. */
  function Rem(x: bv32): bv32 {
    var b := Byte3(x);
    Xor32(ShiftUp(x), Spread(Wide(b), Feedback2(b), Feedback3(b)))
  }

  function RemTimes(x: bv32, n: nat): bv32 { if n == 0 then x else Rem(RemTimes(x, n - 1)) }

  function Encode(k0: bv32, k1: bv32): bv32 { RemTimes(Xor32(RemTimes(k1, 4), k0), 4) }

  method RsMdsEncode(k0: bv32, k1: bv32) returns (r: bv32)
    ensures r == Encode(k0, k1)
  {
    hide Rem, Xor32;
    r := k1;
    var i := 0;
    while i < 4
      invariant 0 <= i <= 4 && r == RemTimes(k1, i)
    {
      r := Rem(r);
      i := i + 1;
    }
    r := Xor32(r, k0);
    ghost var mid := r;
    i := 0;
    while i < 4
      invariant 0 <= i <= 4 && r == RemTimes(mid, i)
    {
      r := Rem(r);
      i := i + 1;
    }
  }

  // ---- The field ----

  function Add(a: bv8, b: bv8): bv8 { a ^ b }

  function Double(a: bv8): bv8 { a << 1 }

  function Low(b: bv8): bool { b & 1 != 0 }

  function Top(b: bv8): bool { b & 0x80 != 0 }

  function Half(b: bv8): bv8 { b >> 1 }

  function Take(c: bool, a: bv8): bv8 { if c then a else 0 }

  function TimesX(a: bv8): bv8 { Add(Double(a), Take(Top(a), 0x4D)) }

  // a times the n low bits of b: shift and add.
  function MulBits(a: bv8, b: bv8, n: nat): bv8
    decreases n
  {
    if n == 0 then 0 else Add(Take(Low(b), a), MulBits(TimesX(a), Half(b), n - 1))
  }

  /** The product in the field. */
  function Mul(a: bv8, b: bv8): bv8 { MulBits(a, b, 8) }

  const A: bv8 := 0x02
  const A_INV: bv8 := 0xA6
  const A_SUM: bv8 := 0xA4  // a + 1/a

  lemma InverseOfA()
    ensures Mul(A, A_INV) == 1 && Add(A, A_INV) == A_SUM
  {
    MulBitsStep(0x02, 0xA6, 8);
    MulBitsStep(0x04, 0x53, 7);
    MulBitsStep(0x08, 0x29, 6);
    MulBitsStep(0x10, 0x14, 5);
    MulBitsStep(0x20, 0x0A, 4);
    MulBitsStep(0x40, 0x05, 3);
    MulBitsStep(0x80, 0x02, 2);
    MulBitsStep(0x4D, 0x01, 1);
  }

  /** x^4 + (a + 1/a) x^3 + a x^2 + (a + 1/a) x + 1, lowest coefficient first. */
  const G: seq<bv8> := [1, A_SUM, A, A_SUM, 1]

  lemma AddAssoc(a: bv8, b: bv8, c: bv8)
    ensures Add(a, Add(b, c)) == Add(Add(a, b), c)
  {
  }

  lemma AddFacts(a: bv8, b: bv8)
    ensures Add(a, 0) == a && Add(0, a) == a && Add(a, a) == 0 && Add(a, b) == Add(b, a)
  {
  }

  lemma AddInterchange(a: bv8, b: bv8, c: bv8, d: bv8)
    ensures Add(Add(a, b), Add(c, d)) == Add(Add(a, c), Add(b, d))
  {
    hide Add;
    AddAssoc(Add(a, b), c, d);
    AddAssoc(a, b, c);
    AddFacts(b, c);
    AddAssoc(a, c, b);
    AddAssoc(Add(a, c), b, d);
  }

  lemma DoubleAdds(a: bv8, b: bv8)
    ensures Double(Add(a, b)) == Add(Double(a), Double(b))
  {
  }

  lemma TopAdds(a: bv8, b: bv8)
    ensures Top(Add(a, b)) == (Top(a) != Top(b))
  {
  }

  lemma TimesXAdds(a: bv8, b: bv8)
    ensures TimesX(Add(a, b)) == Add(TimesX(a), TimesX(b))
  {
    hide Add, Double, Top;
    DoubleAdds(a, b);
    TopAdds(a, b);
    AddFacts(0x4D, 0x4D);
    AddFacts(0, 0);
    AddInterchange(Double(a), Double(b), Take(Top(a), 0x4D), Take(Top(b), 0x4D));
  }

  lemma {:induction false} MulBitsAdds(a: bv8, b: bv8, c: bv8, n: nat)
    ensures MulBits(Add(a, b), c, n) == Add(MulBits(a, c, n), MulBits(b, c, n))
    decreases n
  {
    hide Add, TimesX, Low, Half;
    AddFacts(0, 0);
    if n > 0 {
      TimesXAdds(a, b);
      MulBitsAdds(TimesX(a), TimesX(b), Half(c), n - 1);
      var x, y := MulBits(TimesX(a), Half(c), n - 1), MulBits(TimesX(b), Half(c), n - 1);
      AddInterchange(Take(Low(c), a), Take(Low(c), b), x, y);
    }
  }

  lemma {:induction false} MulBitsZero(a: bv8, n: nat)
    ensures MulBits(a, 0, n) == 0
    decreases n
  {
    hide Add, TimesX;
    AddFacts(0, 0);
    if n > 0 {
      MulBitsZero(TimesX(a), n - 1);
    }
  }

  lemma MulBitsStep(a: bv8, b: bv8, n: nat)
    requires n > 0
    ensures !Low(b) ==> MulBits(a, b, n) == MulBits(TimesX(a), Half(b), n - 1)
    ensures Low(b) ==> MulBits(a, b, n) == Add(a, MulBits(TimesX(a), Half(b), n - 1))
  {
    hide Add, TimesX, Half, Low;
    AddFacts(MulBits(TimesX(a), Half(b), n - 1), 0);
  }

  // b (x^2 + x^5 + x^7), the product with a + 1/a.
  function Powers(b: bv8): bv8 {
    var b2 := TimesX(TimesX(b));
    var b5 := TimesX(TimesX(TimesX(b2)));
    Add(b2, Add(b5, TimesX(TimesX(b5))))
  }

  lemma MulByG(b: bv8)
    ensures Mul(b, 0) == 0 && Mul(b, 1) == b && Mul(b, A) == TimesX(b)
    ensures Mul(b, A_SUM) == Powers(b)
  {
    hide Add, TimesX;
    var b1 := TimesX(b);
    var b2 := TimesX(b1);
    var b3 := TimesX(b2);
    var b4 := TimesX(b3);
    var b5 := TimesX(b4);
    var b6 := TimesX(b5);
    var b7 := TimesX(b6);
    MulBitsZero(b, 8);
    MulBitsZero(b1, 7);
    MulBitsZero(b2, 6);
    MulBitsZero(TimesX(b7), 0);
    AddFacts(b, 0);
    AddFacts(b1, 0);
    AddFacts(b7, 0);
    MulBitsStep(b, 1, 8);
    MulBitsStep(b, 2, 8);
    MulBitsStep(b1, 1, 7);
    MulBitsStep(b, 0xA4, 8);
    MulBitsStep(b1, 0x52, 7);
    MulBitsStep(b2, 0x29, 6);
    MulBitsStep(b3, 0x14, 5);
    MulBitsStep(b4, 0x0A, 4);
    MulBitsStep(b5, 0x05, 3);
    MulBitsStep(b6, 0x02, 2);
    MulBitsStep(b7, 0x01, 1);
  }

  // ---- The feedback bytes are products with the coefficients of G ----

  lemma Feedback2Is(b: bv8)
    ensures Feedback2(b) == Wide(TimesX(b))
  {
  }

  // Division by a: shift down, and feed back what a multiplication would have shifted out.
  function Over(b: bv8): bv8 { Add(Half(b), Take(Low(b), A_INV)) }

  function OverAndTimes(b: bv8): bv8 { Add(Over(b), TimesX(b)) }

  lemma Feedback3Halves(b: bv8)
    ensures Feedback3(b) == Wide(OverAndTimes(b))
  {
  }

  lemma OverAdds(a: bv8, b: bv8)
    ensures Over(Add(a, b)) == Add(Over(a), Over(b))
  {
  }

  lemma OverAndTimesAdds(a: bv8, b: bv8)
    ensures OverAndTimes(Add(a, b)) == Add(OverAndTimes(a), OverAndTimes(b))
  {
    hide Add, Over, TimesX;
    OverAdds(a, b);
    TimesXAdds(a, b);
    AddInterchange(Over(a), Over(b), TimesX(a), TimesX(b));
  }

  lemma TwiceAdds(a: bv8, b: bv8)
    ensures TimesX(TimesX(Add(a, b))) == Add(TimesX(TimesX(a)), TimesX(TimesX(b)))
  {
    hide Add, TimesX;
    TimesXAdds(a, b);
    TimesXAdds(TimesX(a), TimesX(b));
  }

  lemma PowersAdds(a: bv8, b: bv8)
    ensures Powers(Add(a, b)) == Add(Powers(a), Powers(b))
  {
    hide Add, TimesX;
    var a2, b2 := TimesX(TimesX(a)), TimesX(TimesX(b));
    var a5, b5 := TimesX(TimesX(TimesX(a2))), TimesX(TimesX(TimesX(b2)));
    var a7, b7 := TimesX(TimesX(a5)), TimesX(TimesX(b5));
    TwiceAdds(a, b);
    TwiceAdds(a2, b2);
    TimesXAdds(TimesX(TimesX(a2)), TimesX(TimesX(b2)));
    TwiceAdds(a5, b5);
    AddInterchange(a5, b5, a7, b7);
    AddInterchange(a2, b2, Add(a5, a7), Add(b5, b7));
  }

  // Both are linear, and they agree on every single bit.
  predicate Agree(b: bv8) { OverAndTimes(b) == Powers(b) }

  lemma AgreeLowBits(b: bv8)
    ensures Agree(b & 1) && Agree(b & 2) && Agree(b & 4) && Agree(b & 8)
  {
  }

  lemma AgreeHighBits(b: bv8)
    ensures Agree(b & 16) && Agree(b & 32) && Agree(b & 64) && Agree(b & 128)
  {
  }

  lemma AgreeAdds(a: bv8, b: bv8)
    requires Agree(a) && Agree(b)
    ensures Agree(Add(a, b))
  {
    hide Add, Powers, OverAndTimes;
    OverAndTimesAdds(a, b);
    PowersAdds(a, b);
  }

  lemma SplitBits(b: bv8)
    ensures Add(b & 0x0F, b & 0xF0) == b && Add(b & 3, b & 12) == b & 0x0F && Add(b & 48, b & 192) == b & 0xF0
    ensures Add(b & 1, b & 2) == b & 3 && Add(b & 4, b & 8) == b & 12
    ensures Add(b & 16, b & 32) == b & 48 && Add(b & 64, b & 128) == b & 192
  {
  }

  lemma Feedback3Is(b: bv8)
    ensures Feedback3(b) == Wide(Powers(b))
  {
    hide Add, Agree, Powers, OverAndTimes, Feedback3, Wide;
    Feedback3Halves(b);
    AgreeLowBits(b);
    AgreeHighBits(b);
    SplitBits(b);
    AgreeAdds(b & 1, b & 2);
    AgreeAdds(b & 4, b & 8);
    AgreeAdds(b & 16, b & 32);
    AgreeAdds(b & 64, b & 128);
    AgreeAdds(b & 3, b & 12);
    AgreeAdds(b & 48, b & 192);
    AgreeAdds(b & 0x0F, b & 0xF0);
    AgreeMeans(b);
  }

  lemma AgreeMeans(b: bv8)
    requires Agree(b)
    ensures OverAndTimes(b) == Powers(b)
  {
  }

  lemma SpreadBytes(b: bv8, g2: bv8, g3: bv8)
    ensures Spread(Wide(b), Wide(g2), Wide(g3)) == Pack(b, g3, g2, g3)
  {
  }

  lemma XorByte0(x: bv32, y: bv32)
    ensures Byte0(Xor32(x, y)) == Add(Byte0(x), Byte0(y))
  {
  }

  lemma XorByte1(x: bv32, y: bv32)
    ensures Byte1(Xor32(x, y)) == Add(Byte1(x), Byte1(y))
  {
  }

  lemma XorByte2(x: bv32, y: bv32)
    ensures Byte2(Xor32(x, y)) == Add(Byte2(x), Byte2(y))
  {
  }

  lemma XorByte3(x: bv32, y: bv32)
    ensures Byte3(Xor32(x, y)) == Add(Byte3(x), Byte3(y))
  {
  }

  lemma XorBytes(x: bv32, y: bv32)
    ensures Byte0(Xor32(x, y)) == Add(Byte0(x), Byte0(y)) && Byte1(Xor32(x, y)) == Add(Byte1(x), Byte1(y))
    ensures Byte2(Xor32(x, y)) == Add(Byte2(x), Byte2(y)) && Byte3(Xor32(x, y)) == Add(Byte3(x), Byte3(y))
  {
    hide Byte0, Byte1, Byte2, Byte3, Xor32, Add;
    XorByte0(x, y);
    XorByte1(x, y);
    XorByte2(x, y);
    XorByte3(x, y);
  }

  lemma ShiftUpBytes(x: bv32)
    ensures var y := ShiftUp(x);
            Byte0(y) == 0 && Byte1(y) == Byte0(x) && Byte2(y) == Byte1(x) && Byte3(y) == Byte2(x)
  {
  }

  lemma RemBytes(x: bv32)
    ensures var b, y := Byte3(x), Rem(x);
            && Byte0(y) == Mul(b, 1)
            && Byte1(y) == Add(Byte0(x), Mul(b, A_SUM))
            && Byte2(y) == Add(Byte1(x), Mul(b, A))
            && Byte3(y) == Add(Byte2(x), Mul(b, A_SUM))
  {
    hide Pack, Add, TimesX, Powers, Feedback2, Feedback3, Spread, Xor32, ShiftUp, Wide, Byte0, Byte1, Byte2, Byte3,
         Mul;
    var b := Byte3(x);
    MulByG(b);
    Feedback2Is(b);
    Feedback3Is(b);
    SpreadBytes(b, Mul(b, A), Mul(b, A_SUM));
    UnpackPack(b, Mul(b, A_SUM), Mul(b, A), Mul(b, A_SUM));
    ShiftUpBytes(x);
    XorBytes(ShiftUp(x), Spread(Wide(b), Feedback2(b), Feedback3(b)));
    AddFacts(b, 0);
  }

  // ---- Polynomials, by their coefficients: index i holds the coefficient of x^i ----

  function Coef(p: seq<bv8>, i: nat): bv8 { if i < |p| then p[i] else 0 }

  /** Coefficient i of the product q * G. */
  function TimesG(q: seq<bv8>, i: nat): bv8 {
    if q == [] then 0
    else Add(Mul(q[0], Coef(G, i)), if i == 0 then 0 else TimesG(q[1..], i - 1))
  }

  /** p = q * G + r. */
  ghost predicate Divides(p: seq<bv8>, q: seq<bv8>, r: seq<bv8>) {
    forall i: nat :: Coef(p, i) == Add(TimesG(q, i), Coef(r, i))
  }

  lemma RemStep(p: seq<bv8>, q: seq<bv8>, x: bv32)
    requires Divides(p, q, WordBytes(x))
    ensures Divides([0] + p, [Byte3(x)] + q, WordBytes(Rem(x)))
  {
    hide Add, Mul, Byte0, Byte1, Byte2, Byte3, Rem;
    var b := Byte3(x);
    var p', q' := [0] + p, [b] + q;
    RemBytes(x);
    MulByG(b);
    forall i: nat
      ensures Coef(p', i) == Add(TimesG(q', i), Coef(WordBytes(Rem(x)), i))
    {
      assert q'[1..] == q;
      RemStepCoef(x, i);
      AddFacts(Mul(b, Coef(G, i)), 0);
      if i > 0 {
        assert Coef(p', i) == Coef(p, i - 1);
        var t := TimesG(q, i - 1);
        var g, r := Mul(b, Coef(G, i)), Coef(WordBytes(Rem(x)), i);
        assert Coef(WordBytes(x), i - 1) == Add(g, r);
        AddAssoc(t, g, r);
        AddFacts(t, g);
      }
    }
  }

  // The coefficient equations of one division step.
  lemma RemStepCoef(x: bv32, i: nat)
    ensures i == 0 ==> Add(Mul(Byte3(x), Coef(G, i)), Coef(WordBytes(Rem(x)), i)) == 0
    ensures i > 0 ==> Add(Mul(Byte3(x), Coef(G, i)), Coef(WordBytes(Rem(x)), i)) == Coef(WordBytes(x), i - 1)
  {
    hide Add, Mul, Byte0, Byte1, Byte2, Byte3, Rem;
    var b := Byte3(x);
    RemBytes(x);
    MulByG(b);
    AddFacts(b, 0);
    AddFacts(0, 0);
    var s := Mul(b, A_SUM);
    AddCancels(s, Byte0(x));
    AddCancels(Mul(b, A), Byte1(x));
    AddCancels(s, Byte2(x));
  }

  lemma AddCancels(a: bv8, b: bv8)
    ensures Add(a, Add(b, a)) == b
  {
  }

  lemma {:induction false} RemSteps(p: seq<bv8>, q: seq<bv8>, x: bv32, n: nat) returns (p': seq<bv8>, q': seq<bv8>)
    requires Divides(p, q, WordBytes(x))
    ensures Divides(p', q', WordBytes(RemTimes(x, n)))
    ensures |p'| == n + |p| && p'[n..] == p && (forall i :: 0 <= i < n ==> p'[i] == 0)
  {
    hide Divides, WordBytes, Rem;
    if n == 0 {
      p', q' := p, q;
    } else {
      p', q' := RemSteps(p, q, x, n - 1);
      var y := RemTimes(x, n - 1);
      RemStep(p', q', y);
      p', q' := [0] + p', [Byte3(y)] + q';
    }
  }

  lemma BytesAdd(x: bv32, k: bv32, i: nat)
    requires i < 4
    ensures WordBytes(Xor32(x, k))[i] == Add(WordBytes(x)[i], WordBytes(k)[i])
  {
    hide Add, Byte0, Byte1, Byte2, Byte3, Xor32;
    XorBytes(x, k);
  }

  // Adding a word to both a polynomial with four zero coefficients at the bottom and its remainder.
  lemma AddWord(p: seq<bv8>, q: seq<bv8>, x: bv32, k: bv32)
    requires |p| >= 4 && p[0] == p[1] == p[2] == p[3] == 0 && Divides(p, q, WordBytes(x))
    ensures Divides(WordBytes(k) + p[4..], q, WordBytes(Xor32(x, k)))
  {
    hide Add, WordBytes, Xor32;
    var p' := WordBytes(k) + p[4..];
    forall i: nat
      ensures Coef(p', i) == Add(TimesG(q, i), Coef(WordBytes(Xor32(x, k)), i))
    {
      assert Coef(p, i) == Add(TimesG(q, i), Coef(WordBytes(x), i));
      if i < 4 {
        var t, c, d := TimesG(q, i), Coef(WordBytes(x), i), Coef(WordBytes(k), i);
        BytesAdd(x, k, i);
        AddAssoc(t, c, d);
        AddFacts(d, 0);
      } else {
        assert Coef(p', i) == Coef(p, i);
      }
    }
  }

  /** The dividend x^4 (k1 x^4 + k0). */
  function Dividend(k0: bv32, k1: bv32): seq<bv8> { [0, 0, 0, 0] + WordBytes(k0) + WordBytes(k1) }

  /** The key word is a remainder of x^4 (k1 x^4 + k0) by G. */
  lemma EncodeIsRemainder(k0: bv32, k1: bv32)
    ensures exists q :: Divides(Dividend(k0, k1), q, WordBytes(Encode(k0, k1)))
  {
    hide RemTimes, Xor32, Divides, Byte0, Byte1, Byte2, Byte3;
    assert Divides(WordBytes(k1), [], WordBytes(k1)) by { DividesZero(WordBytes(k1)); }
    var p, q := RemSteps(WordBytes(k1), [], k1, 4);
    AddWord(p, q, RemTimes(k1, 4), k0);
    assert p[4..] == WordBytes(k1);
    assert Divides(WordBytes(k0) + WordBytes(k1), q, WordBytes(Xor32(RemTimes(k1, 4), k0)));
    var p2, q2 := RemSteps(WordBytes(k0) + WordBytes(k1), q, Xor32(RemTimes(k1, 4), k0), 4);
    assert p2 == p2[..4] + p2[4..] && p2[..4] == [0, 0, 0, 0];
    assert p2 == Dividend(k0, k1);
    assert Divides(Dividend(k0, k1), q2, WordBytes(Encode(k0, k1)));
  }

  lemma DividesZero(r: seq<bv8>)
    ensures Divides(r, [], r)
  {
    hide Add;
    forall i: nat
      ensures Coef(r, i) == Add(TimesG([], i), Coef(r, i))
    {
      AddFacts(Coef(r, i), 0);
    }
  }

  // ---- Remainders by G are unique, and the step is linear ----

  lemma MulZero(c: bv8)
    ensures Mul(0, c) == 0
  {
    hide Add;
    MulBitsAdds(0, 0, c, 8);
    AddFacts(0, 0);
    AddFacts(Mul(0, c), 0);
  }

  lemma {:induction false} TimesGSnoc(q: seq<bv8>, c: bv8, i: nat)
    ensures TimesG(q + [c], i) == Add(TimesG(q, i), Mul(c, if i >= |q| then Coef(G, i - |q|) else 0))
    decreases |q|
  {
    hide Add, Mul, Coef;
    MulByG(c);
    AddFacts(0, 0);
    if q == [] {
      assert ([] + [c])[1..] == [];
      AddFacts(Mul(c, Coef(G, i)), 0);
    } else {
      assert (q + [c])[1..] == q[1..] + [c];
      var first := Mul(q[0], Coef(G, i));
      AddFacts(first, 0);
      if i > 0 {
        TimesGSnoc(q[1..], c, i - 1);
        AddAssoc(first, TimesG(q[1..], i - 1), Mul(c, if i >= |q| then Coef(G, i - |q|) else 0));
      }
    }
  }

  lemma {:induction false} TimesGDegree(q: seq<bv8>, i: nat)
    requires i >= |q| + 4
    ensures TimesG(q, i) == 0
    decreases |q|
  {
    hide Add, Mul;
    if q != [] {
      MulByG(q[0]);
      AddFacts(0, 0);
      TimesGDegree(q[1..], i - 1);
    }
  }

  ghost predicate SameSum(q1: seq<bv8>, r1: seq<bv8>, q2: seq<bv8>, r2: seq<bv8>) {
    forall i: nat :: Add(TimesG(q1, i), Coef(r1, i)) == Add(TimesG(q2, i), Coef(r2, i))
  }

  // Quotients of one length: their leading coefficients agree, so both can be dropped.
  lemma {:induction false} SameLength(q1: seq<bv8>, r1: seq<bv8>, q2: seq<bv8>, r2: seq<bv8>)
    requires |q1| == |q2| && |r1| == |r2| == 4 && SameSum(q1, r1, q2, r2)
    ensures r1 == r2
    decreases |q1|
  {
    hide Add, Mul;
    if q1 == [] {
      forall i | 0 <= i < 4
        ensures r1[i] == r2[i]
      {
        assert Add(TimesG(q1, i), Coef(r1, i)) == Add(TimesG(q2, i), Coef(r2, i));
        AddFacts(r1[i], 0);
        AddFacts(r2[i], 0);
      }
    } else {
      var n := |q1| - 1;
      var a1, c1, a2, c2 := q1[..n], q1[n], q2[..n], q2[n];
      assert q1 == a1 + [c1] && q2 == a2 + [c2];
      TimesGSnoc(a1, c1, n + 4);
      TimesGSnoc(a2, c2, n + 4);
      TimesGDegree(a1, n + 4);
      TimesGDegree(a2, n + 4);
      MulByG(c1);
      MulByG(c2);
      AddFacts(c1, 0);
      AddFacts(c2, 0);
      assert Add(TimesG(q1, n + 4), Coef(r1, n + 4)) == Add(TimesG(q2, n + 4), Coef(r2, n + 4));
      assert c1 == c2;
      forall i: nat
        ensures Add(TimesG(a1, i), Coef(r1, i)) == Add(TimesG(a2, i), Coef(r2, i))
      {
        var d := Mul(c1, if i >= n then Coef(G, i - n) else 0);
        TimesGSnoc(a1, c1, i);
        TimesGSnoc(a2, c2, i);
        assert Add(TimesG(q1, i), Coef(r1, i)) == Add(TimesG(q2, i), Coef(r2, i));
        DropMiddle(TimesG(a1, i), d, Coef(r1, i), TimesG(a2, i), Coef(r2, i));
      }
      SameLength(a1, r1, a2, r2);
    }
  }

  lemma DropMiddle(a: bv8, d: bv8, r: bv8, b: bv8, s: bv8)
    requires Add(Add(a, d), r) == Add(Add(b, d), s)
    ensures Add(a, r) == Add(b, s)
  {
  }

  lemma {:induction false} PadZeros(q: seq<bv8>, n: nat) returns (q': seq<bv8>)
    ensures |q'| == |q| + n && forall i: nat :: TimesG(q', i) == TimesG(q, i)
    decreases n
  {
    hide Add, Mul;
    q' := q;
    if n > 0 {
      var p := PadZeros(q, n - 1);
      q' := p + [0];
      forall i: nat
        ensures TimesG(q', i) == TimesG(q, i)
      {
        TimesGSnoc(p, 0, i);
        MulZero(if i >= |p| then Coef(G, i - |p|) else 0);
        AddFacts(TimesG(p, i), 0);
      }
    }
  }

  /** The remainder of a polynomial by G is unique, so the key word is the remainder. */
  lemma RemainderUnique(p: seq<bv8>, q1: seq<bv8>, r1: seq<bv8>, q2: seq<bv8>, r2: seq<bv8>)
    requires |r1| == |r2| == 4 && Divides(p, q1, r1) && Divides(p, q2, r2)
    ensures r1 == r2
  {
    hide Add, Mul, TimesG;
    var b1 := PadZeros(q1, if |q1| < |q2| then |q2| - |q1| else 0);
    var b2 := PadZeros(q2, if |q2| < |q1| then |q1| - |q2| else 0);
    forall i: nat
      ensures Add(TimesG(b1, i), Coef(r1, i)) == Add(TimesG(b2, i), Coef(r2, i))
    {
      assert Coef(p, i) == Add(TimesG(q1, i), Coef(r1, i)) == Add(TimesG(q2, i), Coef(r2, i));
    }
    SameLength(b1, r1, b2, r2);
  }

  lemma SameBytes(x: bv32, y: bv32)
    requires Byte0(x) == Byte0(y) && Byte1(x) == Byte1(y) && Byte2(x) == Byte2(y) && Byte3(x) == Byte3(y)
    ensures x == y
  {
    hide Byte0, Byte1, Byte2, Byte3, Pack;
    PackUnpack(x);
    PackUnpack(y);
  }

  lemma RemAdds(x: bv32, y: bv32)
    ensures Rem(Xor32(x, y)) == Xor32(Rem(x), Rem(y))
  {
    hide Add, Byte0, Byte1, Byte2, Byte3, Rem, Xor32, MulBits;
    var bx, cy := Byte3(x), Byte3(y);
    RemBytes(x);
    RemBytes(y);
    RemBytes(Xor32(x, y));
    XorBytes(x, y);
    XorBytes(Rem(x), Rem(y));
    MulBitsAdds(bx, cy, 1, 8);
    MulBitsAdds(bx, cy, A, 8);
    MulBitsAdds(bx, cy, A_SUM, 8);
    AddInterchange(Byte0(x), Byte0(y), Mul(bx, A_SUM), Mul(cy, A_SUM));
    AddInterchange(Byte1(x), Byte1(y), Mul(bx, A), Mul(cy, A));
    AddInterchange(Byte2(x), Byte2(y), Mul(bx, A_SUM), Mul(cy, A_SUM));
    SameBytes(Rem(Xor32(x, y)), Xor32(Rem(x), Rem(y)));
  }

  lemma {:induction false} RemTimesAdds(x: bv32, y: bv32, n: nat)
    ensures RemTimes(Xor32(x, y), n) == Xor32(RemTimes(x, n), RemTimes(y, n))
    decreases n
  {
    hide Rem, Xor32;
    if n > 0 {
      RemTimesAdds(x, y, n - 1);
      RemAdds(RemTimes(x, n - 1), RemTimes(y, n - 1));
    }
  }

  lemma XorInterchange(a: bv32, b: bv32, c: bv32, d: bv32)
    ensures Xor32(Xor32(a, b), Xor32(c, d)) == Xor32(Xor32(a, c), Xor32(b, d))
  {
    hide Xor32;
    XorFacts(Xor32(a, b), c, d);
    XorFacts(a, b, c);
    XorFacts(a, c, b);
    XorFacts(Xor32(a, c), b, d);
  }

  lemma XorFacts(a: bv32, b: bv32, c: bv32)
    ensures Xor32(a, Xor32(b, c)) == Xor32(Xor32(a, b), c) && Xor32(b, c) == Xor32(c, b)
  {
  }

  /** The key word is linear over GF(2) in the two key entities. */
  lemma EncodeLinear(k0: bv32, k1: bv32, j0: bv32, j1: bv32)
    ensures Encode(Xor32(k0, j0), Xor32(k1, j1)) == Xor32(Encode(k0, k1), Encode(j0, j1))
  {
    hide RemTimes, Xor32;
    RemTimesAdds(k1, j1, 4);
    XorInterchange(RemTimes(k1, 4), RemTimes(j1, 4), k0, j0);
    RemTimesAdds(Xor32(RemTimes(k1, 4), k0), Xor32(RemTimes(j1, 4), j0), 4);
  }
}
