/** Machine-level vocabulary shared by every part of the firmware model:
    bytes and the fixed-width integers the firmware uses, bitwise XOR on
    bytes, big-endian and two's-complement conversions, and GPIO output
    pins. */
module Common {

  /** An unsigned 8-bit value (`u8`). */
  type Byte = x: int | 0 <= x < 0x100

  /** `u16`, `i16` and `u64` as ranges of mathematical integers. */
  type U16 = x: int | 0 <= x < 0x1_0000
  type I16 = x: int | -0x8000 <= x < 0x8000
  type U64 = x: int | 0 <= x < 0x1_0000_0000_0000_0000

  datatype Option<+T> = None | Some(value: T)

  datatype Result<+T, +E> = Ok(value: T) | Err(error: E)

  /** Electrical level of a GPIO output. */
  datatype Level = Low | High

  /** A GPIO pin driven as an output (embassy's `Flex`); its one piece of
      state is the level it currently drives. */
  class Pin {
    var level: Level

    constructor (initial: Level)
      ensures level == initial
    {
      level := initial;
    }
  }

  /** Bitwise exclusive-or of two naturals, lowest bit first. */
  function BitXor(a: nat, b: nat): nat
    decreases a + b
  {
    if a == 0 && b == 0 then 0 else 2 * BitXor(a / 2, b / 2) + (a % 2 + b % 2) % 2
  }

  function Pow2(w: nat): nat
  {
    if w == 0 then 1 else 2 * Pow2(w - 1)
  }

  /** Dropping the lowest bit commutes with XOR; the lowest bit of an XOR
      is the parity of the operands' lowest bits. */
  lemma BitXorHalves(a: nat, b: nat)
    ensures BitXor(a, b) / 2 == BitXor(a / 2, b / 2)
    ensures BitXor(a, b) % 2 == (a % 2 + b % 2) % 2
  {
  }

  /** XOR of two w-bit values is a w-bit value. */
  lemma {:induction false} BitXorWidth(a: nat, b: nat, w: nat)
    requires a < Pow2(w) && b < Pow2(w)
    ensures BitXor(a, b) < Pow2(w)
  {
    if w > 0 && a + b != 0 {
      BitXorWidth(a / 2, b / 2, w - 1);
    }
  }

  /** `a ^ b` on `u8`. */
  function ByteXor(a: Byte, b: Byte): Byte
  {
    assert Pow2(8) == 0x100;
    BitXorWidth(a, b, 8);
    BitXor(a, b)
  }

  lemma {:induction false} BitXorComm(a: nat, b: nat)
    ensures BitXor(a, b) == BitXor(b, a)
    decreases a + b
  {
    if a + b != 0 {
      BitXorComm(a / 2, b / 2);
    }
  }

  lemma {:induction false} BitXorZero(a: nat)
    ensures BitXor(a, 0) == a
  {
    if a != 0 {
      BitXorZero(a / 2);
    }
  }

  lemma {:induction false} BitXorSelf(a: nat)
    ensures BitXor(a, a) == 0
  {
    if a != 0 {
      BitXorSelf(a / 2);
    }
  }

  lemma {:induction false} BitXorAssoc(a: nat, b: nat, c: nat)
    ensures BitXor(BitXor(a, b), c) == BitXor(a, BitXor(b, c))
    decreases a + b + c
  {
    if a + b + c != 0 {
      var x, y := BitXor(a, b), BitXor(b, c);
      var l, r := BitXor(x, c), BitXor(a, y);
      assert l / 2 == r / 2 by {
        BitXorHalves(a, b);
        BitXorHalves(b, c);
        BitXorHalves(x, c);
        BitXorHalves(a, y);
        BitXorAssoc(a / 2, b / 2, c / 2);
      }
      assert l % 2 == r % 2 by {
        BitXorHalves(a, b);
        BitXorHalves(b, c);
        BitXorHalves(x, c);
        BitXorHalves(a, y);
        ParityAssoc(l, r, x, y, a, b, c);
      }
    }
  }

  lemma ParityAssoc(l: nat, r: nat, x: nat, y: nat, a: nat, b: nat, c: nat)
    requires x % 2 == (a % 2 + b % 2) % 2 && y % 2 == (b % 2 + c % 2) % 2
    requires l % 2 == (x % 2 + c % 2) % 2 && r % 2 == (a % 2 + y % 2) % 2
    ensures l % 2 == r % 2
  {
  }

  /** The group laws of XOR on bytes: 0 is neutral, every byte is its own
      inverse, and the operation is commutative and associative. */
  lemma XorLaws(a: Byte, b: Byte, c: Byte)
    ensures ByteXor(a, 0) == a && ByteXor(0, a) == a && ByteXor(a, a) == 0
    ensures ByteXor(a, b) == ByteXor(b, a)
    ensures ByteXor(ByteXor(a, b), c) == ByteXor(a, ByteXor(b, c))
  {
    BitXorZero(a);
    BitXorComm(a, 0);
    BitXorSelf(a);
    BitXorComm(a, b);
    BitXorAssoc(a, b, c);
  }

  /** XOR with a nonzero mask changes every byte. */
  lemma XorMaskChanges(a: Byte, mask: Byte)
    requires mask != 0
    ensures ByteXor(a, mask) != a
  {
    XorLaws(a, a, mask);
    XorLaws(mask, 0, 0);
    assert ByteXor(a, ByteXor(a, mask)) == mask;
  }

  /** First byte of `u16::to_be_bytes`. */
  function HighByte(v: U16): Byte
  {
    v / 0x100
  }

  /** Second byte of `u16::to_be_bytes`. */
  function LowByte(v: U16): Byte
  {
    v % 0x100
  }

  /** `u16::from_be_bytes([hi, lo])`: the inverse of HighByte/LowByte. */
  function FromBeBytes(hi: Byte, lo: Byte): (v: U16)
    ensures HighByte(v) == hi && LowByte(v) == lo
  {
    hi * 0x100 + lo
  }

  lemma BeBytesRoundTrip(v: U16)
    ensures FromBeBytes(HighByte(v), LowByte(v)) == v
  {
  }

  /** The bit pattern of an `i16`, read as a `u16` (`v as u16`). */
  function I16Bits(v: I16): (u: U16)
    ensures ToI16(u) == v
  {
    if v < 0 then v + 0x1_0000 else v
  }

  /** `u16 as i16`: two's-complement reading of a 16-bit pattern. */
  function ToI16(u: U16): I16
  {
    if u >= 0x8000 then u - 0x1_0000 else u
  }

  /** Concatenation is associative; stated generically because proving it
      for a particular element type inside a larger proof is costly. */
  lemma ConcatAssoc<T>(a: seq<T>, b: seq<T>, c: seq<T>)
    ensures (a + b) + c == a + (b + c)
  {
  }

  /** The value a `bool` takes on the wire and in GPIO logic: 1 or 0. */
  function BoolByte(b: bool): (r: Byte)
    ensures (r != 0) == b && r <= 1
  {
    if b then 1 else 0
  }

  /** A decimal digit. */
  type Digit = d: nat | d < 10

  /** The number a sequence of decimal digits denotes, most significant
      first. */
  function DigitsValue(ds: seq<Digit>): nat
  {
    if ds == [] then 0 else DigitsValue(ds[..|ds| - 1]) * 10 + ds[|ds| - 1]
  }

  /** The decimal digits of `n`, most significant first, with no leading
      zero ("0" for zero). */
  function Digits(n: nat): (ds: seq<Digit>)
    ensures 1 <= |ds|
    ensures |ds| > 1 ==> ds[0] != 0
  {
    if n < 10 then [n]
    else
      var ds := Digits(n / 10) + [n % 10];
      assert ds[..|ds| - 1] == Digits(n / 10);
      ds
  }

  /** The digits of `n` denote `n`. */
  lemma {:induction false} DigitsDenote(n: nat)
    ensures DigitsValue(Digits(n)) == n
  {
    if n >= 10 {
      var ds := Digits(n);
      assert ds[..|ds| - 1] == Digits(n / 10);
      DigitsDenote(n / 10);
    }
  }

  /** `Pow10(k)`: ten to the power `k`. */
  function Pow10(k: nat): (p: nat)
    ensures p >= 1
  {
    if k == 0 then 1 else 10 * Pow10(k - 1)
  }

  /** A number below ten to the `k` has at most `k` digits. */
  lemma {:induction false} DigitsLength(n: nat, k: nat)
    requires 1 <= k && n < Pow10(k)
    ensures |Digits(n)| <= k
  {
    if n >= 10 {
      DigitsLength(n / 10, k - 1);
    }
  }
}
