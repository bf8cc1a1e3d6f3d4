/** Bytes, fixed-width integers, big-endian fields and the XOR masking of section 14.2 of RFC 8489. */
module Bytes {

  type byte = x: int | 0 <= x < 0x100
  type u16 = x: int | 0 <= x < 0x1_0000
  type u32 = x: int | 0 <= x < 0x1_0000_0000
  type i16 = x: int | -0x8000 <= x < 0x8000
  type Octets = seq<byte>

  datatype Option<+T> = None | Some(value: T)

  function Be16(v: u16): (r: Octets)
    ensures |r| == 2
  {
    [v / 0x100, v % 0x100]
  }

  function Be32(v: u32): (r: Octets)
    ensures |r| == 4
  {
    Be16(v / 0x1_0000) + Be16(v % 0x1_0000)
  }

  /** The big-endian number in a byte string. */
  function Value(b: Octets): nat {
    if b == [] then 0 else 0x100 * Value(b[..|b| - 1]) + b[|b| - 1]
  }

  lemma ValueOfTwo(hi: byte, lo: byte)
    ensures Value([hi, lo]) == hi as int * 0x100 + lo as int
  {
    assert [hi, lo][..1] == [hi] && [hi][..0] == [];
    assert Value([hi]) == hi;
  }

  lemma ValueOfFour(b: Octets)
    requires |b| == 4
    ensures Value(b) == 0x1_0000 * Value(b[..2]) + Value(b[2..])
    ensures Value(b[..2]) < 0x1_0000 && Value(b[2..]) < 0x1_0000
  {
    assert b[..2] == [b[0], b[1]] && b[2..] == [b[2], b[3]];
    ValueOfTwo(b[0], b[1]);
    ValueOfTwo(b[2], b[3]);
    assert b[..3][..2] == b[..2];
    assert Value(b[..3]) == 0x100 * Value(b[..2]) + b[2];
  }

  function Word16(hi: byte, lo: byte): u16 {
    ValueOfTwo(hi, lo);
    Value([hi, lo])
  }

  function Word32(b: Octets): u32
    requires |b| == 4
  {
    ValueOfFour(b);
    Value(b)
  }

  /** The number in two bytes, written out. */
  lemma Word16Is(hi: byte, lo: byte)
    ensures Word16(hi, lo) == hi as int * 0x100 + lo as int
  {
    ValueOfTwo(hi, lo);
  }

  lemma Word32Is(b: Octets)
    requires |b| == 4
    ensures Word32(b) as int == 0x1_0000 * Word16(b[0], b[1]) as int + Word16(b[2], b[3]) as int
  {
    ValueOfFour(b);
    assert b[..2] == [b[0], b[1]] && b[2..] == [b[2], b[3]];
  }

  /** Fields read back, and bytes are written back. */
  lemma Word16OfBe16(v: u16)
    ensures Word16(v / 0x100, v % 0x100) == v && Be16(v) == [v / 0x100, v % 0x100]
  {
    Word16Is(v / 0x100, v % 0x100);
  }

  lemma Be16OfWord16(hi: byte, lo: byte)
    ensures Be16(Word16(hi, lo)) == [hi, lo]
  {
    Word16Is(hi, lo);
  }

  lemma Word32OfBe32(v: u32)
    ensures Word32(Be32(v)) == v
  {
    hide Value;
    Word16OfBe16(v / 0x1_0000);
    Word16OfBe16(v % 0x1_0000);
    hide Word16, Word32;
    Word32Is(Be32(v));
  }

  lemma Be32OfWord32(b: Octets)
    requires |b| == 4
    ensures Be32(Word32(b)) == b
  {
    hide Value;
    Be16OfWord16(b[0], b[1]);
    Be16OfWord16(b[2], b[3]);
    hide Be16, Word16, Word32;
    Word32Is(b);
  }

  function Zeros(n: nat): (r: Octets)
    ensures |r| == n
  {
    seq(n, _ => 0)
  }

  /** Bytes of padding after a field of n bytes, so that the next one starts on a 4-byte boundary. */
  function Padding(n: nat): (r: nat)
    ensures r < 4 && (n + r) % 4 == 0
  {
    if n % 4 == 0 then 0 else 4 - n % 4
  }

  function Pow2(k: nat): (r: nat)
    ensures r > 0
  {
    if k == 0 then 1 else 2 * Pow2(k - 1)
  }

  lemma Pow2Values()
    ensures Pow2(16) == 0x1_0000
    ensures Pow2(32) == 0x1_0000_0000
  {
    assert Pow2(4) == 0x10;
    assert Pow2(8) == 0x100;
    assert Pow2(12) == 0x1000;
    assert Pow2(16) == 0x1_0000;
    assert Pow2(20) == 0x10_0000;
    assert Pow2(24) == 0x100_0000;
    assert Pow2(28) == 0x1000_0000;
  }

  /** Bitwise exclusive or of the lowest k bits. */
  function Xor(a: nat, b: nat, k: nat): (r: nat)
    ensures r < Pow2(k)
  {
    if k == 0 then 0 else (a + b) % 2 + 2 * Xor(a / 2, b / 2, k - 1)
  }

  lemma XorBits(a: nat, b: nat, k: nat)
    requires k > 0
    ensures Xor(a, b, k) % 2 == (a + b) % 2 && Xor(a, b, k) / 2 == Xor(a / 2, b / 2, k - 1)
  {
  }

  lemma ParityTwice(x: nat, a: nat, b: nat)
    requires x % 2 == (a + b) % 2
    ensures (x + b) % 2 == a % 2
  {
  }

  lemma {:induction false} XorTwice(a: nat, b: nat, k: nat)
    requires a < Pow2(k)
    ensures Xor(Xor(a, b, k), b, k) == a
  {
    if k > 0 {
      var x := Xor(a, b, k);
      XorBits(a, b, k);
      XorTwice(a / 2, b / 2, k - 1);
      ParityTwice(x, a, b);
      XorBits(x, b, k);
    }
  }

  /** Bit i of a number, counted from the lowest. */
  function Bit(a: nat, i: nat): nat {
    if i == 0 then a % 2 else Bit(a / 2, i - 1)
  }

  lemma ParityOfSum(a: nat, b: nat)
    ensures (a + b) % 2 == (a % 2 + b % 2) % 2
  {
  }

  /** Each bit of the result is set if exactly one of the two bits is. */
  lemma {:induction false} XorMeans(a: nat, b: nat, k: nat, i: nat)
    requires i < k
    ensures Bit(Xor(a, b, k), i) == (Bit(a, i) + Bit(b, i)) % 2
  {
    XorBits(a, b, k);
    hide Xor;
    if i == 0 {
      ParityOfSum(a, b);
    } else {
      XorMeans(a / 2, b / 2, k - 1, i - 1);
    }
  }

  const MAGIC_COOKIE: u32 := 0x2112A442

  function XorPort(port: u16): u16 {
    Pow2Values();
    Xor(port, MAGIC_COOKIE / 0x1_0000, 16)
  }

  function XorAddr(ip: u32): u32 {
    Pow2Values();
    Xor(ip, MAGIC_COOKIE, 32)
  }

  /** Masking flips exactly the bits of the magic cookie, and of its upper half in a port. */
  lemma MaskMeans(ip: u32, port: u16, i: nat)
    ensures i < 32 ==> Bit(XorAddr(ip), i) == (Bit(ip, i) + Bit(0x2112A442, i)) % 2
    ensures i < 16 ==> Bit(XorPort(port), i) == (Bit(port, i) + Bit(0x2112, i)) % 2
  {
    if i < 32 { XorMeans(ip, MAGIC_COOKIE, 32, i); }
    if i < 16 { XorMeans(port, MAGIC_COOKIE / 0x1_0000, 16, i); }
  }

  /** Masking is its own inverse, so the same function writes and reads an XOR address. */
  lemma XorIsInvolution(ip: u32, port: u16)
    ensures XorAddr(XorAddr(ip)) == ip
    ensures XorPort(XorPort(port)) == port
  {
    Pow2Values();
    XorTwice(ip, MAGIC_COOKIE, 32);
    XorTwice(port, MAGIC_COOKIE / 0x1_0000, 16);
  }
}
