/** Fixed-width machine integers and little-endian byte order, as the C
    sources use them. Dafny integers are unbounded, so every width, every
    wrap-around and every reinterpretation of bits is written out here. */
module Machine {

  const TWO_31: int := 0x8000_0000
  const TWO_32: int := 0x1_0000_0000
  const TWO_64: int := 0x1_0000_0000_0000_0000

  type u32 = x: int | 0 <= x < 0x1_0000_0000
  type s32 = x: int | -0x8000_0000 <= x < 0x8000_0000
  type u64 = x: int | 0 <= x < 0x1_0000_0000_0000_0000
  type i64 = x: int | -0x8000_0000_0000_0000 <= x < 0x8000_0000_0000_0000

  datatype Option<+T> = None | Some(value: T)

  /** What an unsigned 32-bit assignment keeps of an integer: its residue
      modulo 2^32 (C's unsigned arithmetic wraps). */
  function U32(x: int): (r: u32)
    ensures 0 <= x < TWO_32 ==> r == x
    ensures -TWO_32 <= x < 0 ==> r == x + TWO_32
    ensures TWO_32 <= x < 2 * TWO_32 ==> r == x - TWO_32
  {
    x % TWO_32
  }

  /** `x++` on a u32 counter: it wraps to 0 after 0xFFFF_FFFF. */
  function Inc32(x: u32): (r: u32)
    ensures x < TWO_32 - 1 ==> r == x + 1
    ensures x == TWO_32 - 1 ==> r == 0
  {
    U32(x + 1)
  }

  /** Reads the 32 bits of a u32 as a two's-complement signed value, the
      conversion GCC performs for a cast to a signed 32-bit type. */
  function ToS32(x: u32): (r: s32)
    ensures S32Bits(r) == x
    ensures (r < 0) == (x >= TWO_31)
  {
    if x < TWO_31 then x else x - TWO_32
  }

  /** The two's-complement bit pattern of an s32, read as a u32. */
  function S32Bits(x: s32): (r: u32)
    ensures (x < 0) == (r >= TWO_31)
    ensures U32(r - x) == 0
  {
    if x < 0 then x + TWO_32 else x
  }

  lemma S32BitsInverse(x: s32)
    ensures ToS32(S32Bits(x)) == x
  {
  }

  function Pow256(n: nat): (p: nat)
    ensures p >= 1
  {
    if n == 0 then 1 else 256 * Pow256(n - 1)
  }

  lemma Pow256Widths()
    ensures Pow256(4) == TWO_32
    ensures Pow256(8) == TWO_64
  {
    assert Pow256(2) == 0x1_0000;
    assert Pow256(4) == 0x1_0000_0000 by {
      assert Pow256(3) == 0x100_0000;
    }
    assert Pow256(6) == 0x1_0000_0000_0000 by {
      assert Pow256(5) == 0x100_0000_0000;
    }
    assert Pow256(7) == 0x100_0000_0000_0000;
  }

  /** The unsigned value of a little-endian byte string: the first byte is
      the least significant. */
  function LeValue(bytes: seq<bv8>): (v: nat)
    ensures v < Pow256(|bytes|)
  {
    if bytes == [] then 0 else bytes[0] as nat + 256 * LeValue(bytes[1..])
  }

  /** The n-byte little-endian representation of a value that fits in n bytes. */
  function LeBytes(v: nat, n: nat): (bytes: seq<bv8>)
    requires v < Pow256(n)
    ensures |bytes| == n
  {
    if n == 0 then [] else [(v % 256) as bv8] + LeBytes(v / 256, n - 1)
  }

  lemma ByteValue(x: int)
    requires 0 <= x < 256
    ensures (x as bv8) as int == x
  {
    if x < 16 {} else if x < 32 {} else if x < 64 {} else if x < 128 {} else {}
  }

  lemma {:induction false} LeValueOfLeBytes(v: nat, n: nat)
    requires v < Pow256(n)
    ensures LeValue(LeBytes(v, n)) == v
  {
    if n > 0 {
      var bytes := LeBytes(v, n);
      assert bytes[1..] == LeBytes(v / 256, n - 1);
      ByteValue(v % 256);
      assert bytes[0] as int == v % 256;
      LeValueOfLeBytes(v / 256, n - 1);
    }
  }

  lemma {:induction false} LeBytesOfLeValue(bytes: seq<bv8>)
    ensures LeBytes(LeValue(bytes), |bytes|) == bytes
  {
    if bytes != [] {
      var v := LeValue(bytes);
      assert v / 256 == LeValue(bytes[1..]);
      LeBytesOfLeValue(bytes[1..]);
    }
  }

  function LeU32(bytes: seq<bv8>): (v: u32)
    requires |bytes| == 4
    ensures LeBytes(v, 4) == bytes
  {
    Pow256Widths();
    LeBytesOfLeValue(bytes);
    LeValue(bytes)
  }

  function LeU64(bytes: seq<bv8>): (v: u64)
    requires |bytes| == 8
    ensures LeBytes(v, 8) == bytes
  {
    Pow256Widths();
    LeBytesOfLeValue(bytes);
    LeValue(bytes)
  }

  /** The four bytes a u32 occupies in little-endian memory. */
  function U32Bytes(v: u32): (bytes: seq<bv8>)
    ensures |bytes| == 4 && LeU32(bytes) == v
  {
    Pow256Widths();
    LeValueOfLeBytes(v, 4);
    LeBytes(v, 4)
  }

  /** The eight bytes a u64 occupies in little-endian memory. */
  function U64Bytes(v: u64): (bytes: seq<bv8>)
    ensures |bytes| == 8 && LeU64(bytes) == v
  {
    Pow256Widths();
    LeValueOfLeBytes(v, 8);
    LeBytes(v, 8)
  }

  /** The four bytes of a 32-bit word in little-endian memory, by shifts
      and masks. */
  function Bits32Bytes(w: bv32): (bytes: seq<bv8>)
    ensures |bytes| == 4
  {
    [(w & 0xFF) as bv8, ((w >> 8) & 0xFF) as bv8, ((w >> 16) & 0xFF) as bv8, (w >> 24) as bv8]
  }

  /** The 32-bit word that four little-endian bytes hold. */
  function LeBits32(bytes: seq<bv8>): (w: bv32)
    requires |bytes| == 4
    ensures Bits32Bytes(w) == bytes
  {
    (bytes[0] as bv32) | ((bytes[1] as bv32) << 8) | ((bytes[2] as bv32) << 16) | ((bytes[3] as bv32) << 24)
  }

  lemma LeBits32OfBits32Bytes(w: bv32)
    ensures LeBits32(Bits32Bytes(w)) == w
  {
  }
}
