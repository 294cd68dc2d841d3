/** The hexadecimal codec, which converts a buffer in place in either direction. */
module HexCodec {

  function HexDigit(v: bv8): bv8 { if v > 9 then v + 87 else v + 48 }

  function LowNibble(b: bv8): bv8 { b & 15 }

  function HighNibble(b: bv8): bv8 { (b >> 4) & 15 }

  function ToLower(c: bv8): bv8 { if 65 <= c <= 90 then c + 32 else c }

  // uint8_t arithmetic: the differences wrap for bytes that are no digits.
  function HexValue(c: bv8): bv8 {
    var v := ToLower(c) - 48;
    if v > 9 then v - 39 else v
  }

  function Shifted(hi: bv8): bv8 { hi << 4 }

  function Or(a: bv8, b: bv8): bv8 { a | b }

  function Join(hi: bv8, lo: bv8): bv8 { Or(Shifted(hi), lo) }

  predicate IsHexDigit(c: bv8) { 48 <= c <= 57 || 65 <= c <= 70 || 97 <= c <= 102 }

  function EncodedAt(b: bv8, odd: bool): bv8 {
    HexDigit(if odd then LowNibble(b) else HighNibble(b))
  }

  function HexEncode(b: seq<bv8>): (r: seq<bv8>)
    ensures |r| == 2 * |b| && |r| % 2 == 0
  {
    seq(2 * |b|, i requires 0 <= i < 2 * |b| => EncodedAt(b[i / 2], i % 2 == 1))
  }

  function HexDecode(h: seq<bv8>): (r: seq<bv8>)
    requires |h| % 2 == 0
    ensures 2 * |r| == |h|
  {
    seq(|h| / 2, i requires 0 <= i < |h| / 2 => Join(HexValue(h[2 * i]), HexValue(h[2 * i + 1])))
  }

  lemma NibblesJoin(b: bv8)
    ensures Join(HexValue(EncodedAt(b, false)), HexValue(EncodedAt(b, true))) == b
  {
    DigitValue(LowNibble(b));
    DigitValue(HighNibble(b));
  }

  lemma DigitValue(v: bv8)
    requires v < 16
    ensures HexValue(HexDigit(v)) == v
  {
  }

  lemma DigitsSplit(hi: bv8, lo: bv8)
    requires IsHexDigit(hi) && IsHexDigit(lo)
    ensures var b := Join(HexValue(hi), HexValue(lo));
            EncodedAt(b, false) == ToLower(hi) && EncodedAt(b, true) == ToLower(lo)
  {
  }

  const DIGITS: string := "0123456789abcdef"

  /** Each byte becomes two digits, that of its upper half first. */
  lemma HexIsText(b: seq<bv8>, i: nat)
    requires i < |b|
    ensures var v := b[i] as nat;
      && v < 256 && HexEncode(b)[2 * i] as int == DIGITS[v / 16] as int
      && HexEncode(b)[2 * i + 1] as int == DIGITS[v % 16] as int
  {
    hide EncodedAt;
    HalvesAre(b[i]);
    DigitIs(HighNibble(b[i]));
    DigitIs(LowNibble(b[i]));
    TextAt(b, i);
  }

  lemma TextAt(b: seq<bv8>, i: nat)
    requires i < |b|
    ensures HexEncode(b)[2 * i] == HexDigit(HighNibble(b[i])) && HexEncode(b)[2 * i + 1] == HexDigit(LowNibble(b[i]))
  {
    hide HexDigit, HighNibble, LowNibble;
    assert (2 * i) / 2 == i && (2 * i + 1) / 2 == i;
  }

  lemma HalvesAre(b: bv8)
    ensures HighNibble(b) as nat == b as nat / 16 < 16 && LowNibble(b) as nat == b as nat % 16 && b as nat < 256
  {
  }

  lemma DigitIs(v: bv8)
    requires v as nat < 16
    ensures HexDigit(v) as int == DIGITS[v as nat] as int
  {
  }

  /** Decoding an encoding restores every byte string. */
  lemma HexRoundTrip(b: seq<bv8>)
    ensures HexDecode(HexEncode(b)) == b
  {
    hide EncodedAt, HexValue, Join;
    forall i | 0 <= i < |b|
      ensures HexDecode(HexEncode(b))[i] == b[i]
    {
      NibblesJoin(b[i]);
      assert (2 * i) / 2 == i && (2 * i + 1) / 2 == i;
    }
  }

  /** Encoding a decoding restores the digits, in lower case. */
  lemma HexDecodeEncode(h: seq<bv8>)
    requires |h| % 2 == 0 && forall i :: 0 <= i < |h| ==> IsHexDigit(h[i])
    ensures HexEncode(HexDecode(h)) == seq(|h|, i requires 0 <= i < |h| => ToLower(h[i]))
  {
    hide EncodedAt, HexValue, Join, ToLower, IsHexDigit;
    forall i | 0 <= i < |h|
      ensures HexEncode(HexDecode(h))[i] == ToLower(h[i])
    {
      var k := i / 2;
      assert 2 * k <= i <= 2 * k + 1 < |h|;
      DigitsSplit(h[2 * k], h[2 * k + 1]);
    }
  }

  method BinHex(buf: array<bv8>, len: nat, bintohex: bool)
    requires if bintohex then 2 * len <= buf.Length else len <= buf.Length && len % 2 == 0
    modifies buf
    ensures bintohex ==> buf[..2 * len] == HexEncode(old(buf[..len])) && buf[2 * len..] == old(buf[2 * len..])
    ensures !bintohex ==> buf[..len / 2] == HexDecode(old(buf[..len])) && buf[len / 2..] == old(buf[len / 2..])
  {
    if bintohex {
      BinToHex(buf, len);
    } else {
      HexToBin(buf, len);
    }
  }

  // What two neighbouring places of an encoding, and one of a decoding, hold.
  lemma EncodedPair(b: seq<bv8>, i: nat)
    requires i < |b|
    ensures HexEncode(b)[2 * i] == HexDigit(HighNibble(b[i])) && HexEncode(b)[2 * i + 1] == HexDigit(LowNibble(b[i]))
  {
    hide HexDigit, HighNibble, LowNibble;
  }

  lemma DecodedAt(h: seq<bv8>, i: nat)
    requires |h| % 2 == 0 && 2 * i < |h|
    ensures HexDecode(h)[i] == Or(Shifted(HexValue(h[2 * i])), HexValue(h[2 * i + 1]))
  {
    hide HexValue, Or, Shifted;
  }

  // From the last byte to the first: each byte is read twice before its place is reused.
  method BinToHex(buf: array<bv8>, len: nat)
    requires 2 * len <= buf.Length
    modifies buf
    ensures buf[..2 * len] == HexEncode(old(buf[..len])) && buf[2 * len..] == old(buf[2 * len..])
  {
    hide HighNibble, LowNibble, HexDigit, HexEncode;
    ghost var was := buf[..len];
    ghost var encoded := HexEncode(was);
    var left, pi, po := len, len - 1, 2 * len - 1;
    while left > 0
      invariant 0 <= left <= len && pi == left - 1 && po == 2 * left - 1
      invariant forall j :: 0 <= j < left ==> buf[j] == was[j]
      invariant forall j :: 2 * left <= j < 2 * len ==> buf[j] == encoded[j]
      invariant forall j :: 2 * len <= j < buf.Length ==> buf[j] == old(buf[j])
    {
      EncodedPair(was, pi);
      var c := LowNibble(buf[pi]);
      buf[po] := HexDigit(c);
      po := po - 1;
      c := HighNibble(buf[pi]);
      buf[po] := HexDigit(c);
      pi, po, left := pi - 1, po - 1, left - 1;
    }
  }

  // From the first digit to the last: a byte is written only behind the digits still to be read.
  method HexToBin(buf: array<bv8>, len: nat)
    requires len <= buf.Length && len % 2 == 0
    modifies buf
    ensures buf[..len / 2] == HexDecode(old(buf[..len])) && buf[len / 2..] == old(buf[len / 2..])
  {
    hide HexValue, Or, Shifted, HexDecode;
    ghost var was := buf[..len];
    ghost var decoded := HexDecode(was);
    var left, pi, po := len, 0, 0;
    while left > 0
      invariant 0 <= left && pi + left == len && pi == 2 * po
      invariant forall j :: 0 <= j < po ==> buf[j] == decoded[j]
      invariant forall j :: po <= j < buf.Length ==> buf[j] == old(buf[j])
    {
      DecodedAt(was, po);
      var c := HexValue(buf[pi]);
      assert c == HexValue(was[2 * po]);
      pi := pi + 1;
      ghost var lo := buf[pi];
      assert lo == was[2 * po + 1];
      buf[po] := Shifted(c);
      c := HexValue(buf[pi]);
      buf[po] := Or(buf[po], c);
      pi, po, left := pi + 1, po + 1, left - 2;
    }
  }
}
