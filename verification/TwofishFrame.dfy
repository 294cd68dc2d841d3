/** The header frame: salt, length and magic in one block ahead of the data, so that a
    receiver can tell a good decryption and knows how much of it is data. */
module TwofishFrame {
  import opened TwofishWords
  import opened TwofishCipher
  import opened CipherStealing
  import opened HexCodec

  datatype Option<T> = None | Some(value: T)

  const MAGIC: seq<bv8> := [0x54, 0x77, 0x6F, 0x46, 0x69, 0x73, 0x68, 0x00]  // "TwoFish" and its terminator
  const TWO31: nat := 0x8000_0000
  const TWO32: nat := 0x1_0000_0000
  const TWO63: nat := 0x8000_0000_0000_0000
  const TWO64: nat := 0x1_0000_0000_0000_0000

  function ToByte(n: nat): bv8 { (n % 256) as bv8 }

  function FromByte(b: bv8): nat { b as nat }

  lemma ByteValue(n: nat)
    ensures FromByte(ToByte(n)) == n % 256
  {
    NatByte(n % 256);
  }

  function LengthBytes(n: nat): (r: seq<bv8>)
    ensures |r| == 4
  {
    [ToByte(n), ToByte(n / 0x100), ToByte(n / 0x1_0000), ToByte(n / 0x100_0000)]
  }

  function Header(salt: seq<bv8>, n: nat): Block
    requires |salt| == 4
  {
    salt + LengthBytes(n) + MAGIC
  }

  const MAGIC_TEXT: string := "TwoFish"

  /** The layout of the header: four bytes of salt, the length with its least significant byte first, and
      the text of the magic with its terminator. */
  lemma HeaderLayout(salt: seq<bv8>, n: nat)
    requires |salt| == 4
    ensures var h := Header(salt, n);
      && h[..4] == salt
      && h[4] as nat == n % 0x100 && h[5] as nat == n / 0x100 % 0x100
      && h[6] as nat == n / 0x1_0000 % 0x100 && h[7] as nat == n / 0x100_0000 % 0x100
      && (forall i :: 0 <= i < 7 ==> h[8 + i] as int == MAGIC_TEXT[i] as int) && h[15] as int == 0
  {
    hide ToByte, FromByte;
    ByteIs(n);
    ByteIs(n / 0x100);
    ByteIs(n / 0x1_0000);
    ByteIs(n / 0x100_0000);
    MagicIs();
    var h := Header(salt, n);
    assert h == salt + LengthBytes(n) + MAGIC;
    assert forall i :: 0 <= i < 8 ==> h[8 + i] == MAGIC[i];
  }

  lemma ByteIs(n: nat)
    ensures ToByte(n) as nat == n % 0x100
  {
    NatByte(n % 0x100);
  }

  lemma MagicIs()
    ensures forall i :: 0 <= i < 7 ==> MAGIC[i] as int == MAGIC_TEXT[i] as int
    ensures MAGIC[7] as int == 0
  {
  }

  /** The length field as the receiver computes it: the bytes are promoted to a 32-bit int
      before they are shifted together, and that int is then widened to an unsigned 64-bit
      long, so a set bit 31 fills the upper half with ones. */
  function StoredLength(h: Block): nat
  {
    var v := FromByte(h[4]) + FromByte(h[5]) * 0x100 + FromByte(h[6]) * 0x1_0000 + FromByte(h[7]) * 0x100_0000;
    if v >= TWO31 then v + TWO64 - TWO32 else v
  }

  /** The data of a decrypted frame, cut to what was received; None when the magic is wrong. */
  function OpenFrame(p: seq<bv8>): (r: Option<seq<bv8>>)
    requires 16 <= |p|
  {
    if p[8..16] != MAGIC then None
    else
      var olen := |p| - 16;
      var elen := if StoredLength(p[..16]) > olen then olen else StoredLength(p[..16]);
      Some(p[16..16 + elen])
  }

  function Framed(salt: seq<bv8>, data: seq<bv8>): (m: seq<bv8>)
    requires |salt| == 4
    ensures |m| == 16 + |data|
  {
    Header(salt, |data|) + data
  }

  function Seal(s: Schedule, salt: seq<bv8>, data: seq<bv8>, binhex: bool): (r: seq<bv8>)
    requires s.Valid() && |salt| == 4
    ensures |r| == if binhex then 2 * (16 + |data|) else 16 + |data|
    ensures Receivable(r, binhex)
  {
    var c := Stolen(s, false, Framed(salt, data));
    if binhex then HexEncode(c) else c
  }

  /** At least a header, in whole bytes. */
  predicate Receivable(c: seq<bv8>, binhex: bool) {
    if binhex then |c| % 2 == 0 && 2 * 16 <= |c| else 16 <= |c|
  }

  function Unseal(s: Schedule, c: seq<bv8>, binhex: bool): Option<seq<bv8>>
    requires s.Valid() && Receivable(c, binhex)
  {
    OpenFrame(Stolen(s, true, if binhex then HexDecode(c) else c))
  }

  /** Which data lengths survive the length field. */
  predicate Faithful(n: nat) { n < TWO31 || n / TWO31 % 2 == 1 }

  function Kept(n: nat): (k: nat)
    ensures k <= n && (k == n <==> Faithful(n))
  {
    if Faithful(n) then n else n % TWO32
  }

  /** What the receiver reads from the length field: the length itself below 2^31 only. Cut to what was
      received, as the receiver does, it is Kept, which is the length exactly for the faithful ones. */
  lemma StoredLengthOf(salt: seq<bv8>, n: nat)
    requires |salt| == 4
    ensures var m := n % TWO32;
            StoredLength(Header(salt, n)) == if m >= TWO31 then m + TWO64 - TWO32 else m
    ensures n < TWO63 ==>
              var stored := StoredLength(Header(salt, n));
              && (stored == n <==> n < TWO31)
              && (if stored > n then n else stored) == Kept(n)
  {
    hide ToByte, FromByte, Kept;
    var h := Header(salt, n);
    assert h[4..8] == LengthBytes(n);
    ByteValue(n);
    ByteValue(n / 0x100);
    ByteValue(n / 0x1_0000);
    ByteValue(n / 0x100_0000);
    LowBytes(n);
    if n < TWO63 {
      FieldCut(n, n / TWO32, n % TWO32);
    }
  }

  lemma FieldCut(n: nat, q: nat, m: nat)
    requires n < TWO63 && n == TWO32 * q + m && m < TWO32
    ensures var stored := if m >= TWO31 then m + TWO64 - TWO32 else m;
            && (stored == n <==> n < TWO31)
            && (if stored > n then n else stored) == Kept(n)
  {
    assert n / TWO31 == 2 * q + m / TWO31;
    assert n % TWO32 == m;
  }

  lemma LowBytes(n: nat)
    ensures n % 256 + n / 0x100 % 256 * 0x100 + n / 0x1_0000 % 256 * 0x1_0000 + n / 0x100_0000 % 256 * 0x100_0000
            == n % TWO32
  {
    SecondByte(n);
    ThirdByte(n);
    FourthByte(n);
  }

  lemma SecondByte(n: nat)
    ensures n % 0x100 + n / 0x100 % 256 * 0x100 == n % 0x1_0000
  {
    var q, r := n / 0x100, n % 0x100;
    var k, d := q / 256, q % 256;
    assert n == 0x1_0000 * k + (0x100 * d + r);
  }

  lemma ThirdByte(n: nat)
    ensures n % 0x1_0000 + n / 0x1_0000 % 256 * 0x1_0000 == n % 0x100_0000
  {
    var q, r := n / 0x1_0000, n % 0x1_0000;
    var k, d := q / 256, q % 256;
    assert n == 0x100_0000 * k + (0x1_0000 * d + r);
  }

  lemma FourthByte(n: nat)
    ensures n % 0x100_0000 + n / 0x100_0000 % 256 * 0x100_0000 == n % TWO32
  {
    var q, r := n / 0x100_0000, n % 0x100_0000;
    var k, d := q / 256, q % 256;
    assert n == TWO32 * k + (0x100_0000 * d + r);
  }

  lemma OpenFrameOf(salt: seq<bv8>, data: seq<bv8>)
    requires |salt| == 4 && |data| < TWO63
    ensures OpenFrame(Framed(salt, data))
            == Some(data[..Kept(|data|)])
  {
    hide StoredLength, LengthBytes;
    var p := Framed(salt, data);
    assert p[..16] == Header(salt, |data|) && p[8..16] == MAGIC && p[16..] == data;
    StoredLengthOf(salt, |data|);
    var n := |data|;
    assert n / TWO31 % 2 == n % TWO32 / TWO31;
    assert p[16..16 + Kept(n)] == data[..Kept(n)];
  }

  /** The framed round trip: for every key, salt, encoding and length that a signed long can
      hold, the receiver gets the data back exactly when the length field is faithful to it;
      otherwise it gets the first |data| mod 2^32 bytes (Kept). */
  lemma FrameRoundTrip(s: Schedule, salt: seq<bv8>, data: seq<bv8>, binhex: bool)
    requires s.Valid() && |salt| == 4 && |data| < TWO63
    ensures Unseal(s, Seal(s, salt, data, binhex), binhex) == Some(data) <==> Faithful(|data|)
    ensures Unseal(s, Seal(s, salt, data, binhex), binhex) == Some(data[..Kept(|data|)])
  {
    hide Framed, StealEncrypt, StealDecrypt, Sealer, Opener, HexEncode, HexDecode, OpenFrame;
    var m := Framed(salt, data);
    KeyInverse(s);
    StealRoundTrip(Sealer(s), Opener(s), m);
    HexRoundTrip(Stolen(s, false, m));
    OpenFrameOf(salt, data);
    assert data[..|data|] == data;
  }

  // Without a frame, at most a block is encrypted as one zero-padded block, unchained.
  function RawCrypt(s: Schedule, decrypt: bool, m: seq<bv8>): (r: seq<bv8>)
    requires s.Valid()
    ensures |r| == if |m| <= 16 then 16 else |m|
  {
    if |m| > 16 then Stolen(s, decrypt, m)
    else if decrypt then Decrypt(s, PaddedBlock(m, 0)) else Encrypt(s, PaddedBlock(m, 0))
  }

  /** Raw decryption returns the message, filled up with zeros to one block if it was shorter. */
  lemma RawRoundTrip(s: Schedule, m: seq<bv8>)
    requires s.Valid()
    ensures RawCrypt(s, true, RawCrypt(s, false, m)) == if |m| < 16 then PaddedBlock(m, 0) else m
  {
    hide Encrypt, Decrypt, StealEncrypt, StealDecrypt, Sealer, Opener;
    if |m| > 16 {
      KeyInverse(s);
      StealRoundTrip(Sealer(s), Opener(s), m);
    } else {
      var b := PaddedBlock(m, 0);
      assert PaddedBlock(Encrypt(s, b), 0) == Encrypt(s, b);
      DecryptEncrypt(s, b);
      assert |m| == 16 ==> b == m;
    }
  }

  /** What the library allocates for an output buffer. For decryption it subtracts a block and adds
      one again: below one block the unsigned length wraps around and back. */
  function AllocSize(len: nat, binhex: bool, decrypt: bool): nat {
    if decrypt then (if binhex then len / 2 else len)
    else (if binhex then 2 * (len + 16) else len + 16) + 16
  }

  /** How far into its buffer sealing writes, in either encoding. */
  function SealExtent(len: nat, binhex: bool): nat {
    var binary := Extent(16 + len);
    if binhex && binary < 2 * (16 + len) then 2 * (16 + len) else binary
  }

  /** The bytes written past the end of an encrypted message: the rest of its last cipher block. */
  function Overrun(s: Schedule, m: seq<bv8>): seq<bv8>
    requires s.Valid()
  {
    CipherAt(Sealer(s), m, |m| / 16)[|m| % 16..]
  }

  /** The extra block of padding that the allocation adds is enough, at most fifteen bytes of
      it are used, and without it every partial final block would be written out of bounds. */
  lemma AllocCovers(len: nat, binhex: bool)
    ensures SealExtent(len, binhex) <= AllocSize(len, binhex, false)
    ensures Extent(16 + len) <= 16 + len + 15
    ensures Extent(16 + len) == 16 + len + 15 <==> len % 16 == 1
    ensures AllocSize(len, false, false) - 16 < SealExtent(len, false) <==> len % 16 != 0
  {
    assert (16 + len + 15) / 16 == 1 + len / 16 + (if len % 16 == 0 then 0 else 1);
  }
}
