/** 32-bit words as four bytes, least significant first. */
module TwofishWords {

  function Pack(b0: bv8, b1: bv8, b2: bv8, b3: bv8): bv32 {
    (b0 as bv32) | ((b1 as bv32) << 8) | ((b2 as bv32) << 16) | ((b3 as bv32) << 24)
  }

  function Byte0(x: bv32): bv8 { (x & 0xFF) as bv8 }

  function Byte1(x: bv32): bv8 { ((x >> 8) & 0xFF) as bv8 }

  function Byte2(x: bv32): bv8 { ((x >> 16) & 0xFF) as bv8 }

  function Byte3(x: bv32): bv8 { ((x >> 24) & 0xFF) as bv8 }

  function WordBytes(x: bv32): (r: seq<bv8>)
    ensures |r| == 4
  {
    [Byte0(x), Byte1(x), Byte2(x), Byte3(x)]
  }

  function XorByte(a: bv8, b: bv8): bv8 { a ^ b }

  lemma UnpackPack(b0: bv8, b1: bv8, b2: bv8, b3: bv8)
    ensures var x := Pack(b0, b1, b2, b3);
            Byte0(x) == b0 && Byte1(x) == b1 && Byte2(x) == b2 && Byte3(x) == b3
  {
  }

  lemma PackUnpack(x: bv32)
    ensures Pack(Byte0(x), Byte1(x), Byte2(x), Byte3(x)) == x
  {
  }

  lemma NatByte(n: nat)
    requires n < 256
    ensures (n as bv8) as nat == n
  {
    assert n % 256 == n;
  }

  lemma ByteNat(b: bv8)
    ensures (b as nat) < 256 && (b as nat) as bv8 == b
  {
  }
}
