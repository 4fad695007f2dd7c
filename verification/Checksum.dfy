/** The 64-bit xor-multiply checksum of the cold archive, and its sixteen hex digits. */
module Checksum {
  import opened Lines

  const TWO_64: nat := 0x1_0000_0000_0000_0000
  const OFFSET_BASIS: nat := 0xcbf2_9ce4_8422_2325
  const MULTIPLIER: nat := 0x1000_0000_01b3
  /** The inverse of the multiplier modulo 2^64; it exists because the multiplier is odd. */
  const INVERSE: nat := 0xb46d_d957_aff6_957b

  /** Exclusive or of the low `bits` bits. */
  function Xor(x: nat, y: nat, bits: nat): (r: nat) {
    if bits == 0 then 0 else (x % 2 + y % 2) % 2 + 2 * Xor(x / 2, y / 2, bits - 1)
  }

  /** `hash ^ u64::from(b)`: the byte only meets the low eight bits. */
  function XorByte(hash: nat, b: Byte): nat {
    hash / 256 * 256 + Xor(hash % 256, b, 8)
  }

  function Step(hash: nat, b: Byte): nat {
    XorByte(hash, b) * MULTIPLIER % TWO_64
  }

  function Fold(hash: nat, bytes: Bytes): nat
    decreases |bytes|
  {
    if bytes == [] then hash else Fold(Step(hash, bytes[0]), bytes[1..])
  }

  const HEX_DIGITS: string := "0123456789abcdef"

  function HexDigits(hash: nat, width: nat): string {
    if width == 0 then "" else HexDigits(hash / 16, width - 1) + [HEX_DIGITS[hash % 16]]
  }

  /** `format!("{hash:016x}")` of the running hash over all bytes. */
  function HexSum(bytes: Bytes): string {
    HexDigits(Fold(OFFSET_BASIS, bytes), 16)
  }

  /** `checksum_of`. */
  method ChecksumOf(bytes: Bytes) returns (sum: string)
    ensures sum == HexSum(bytes)
  {
    var hash: nat := OFFSET_BASIS;
    for i := 0 to |bytes|
      invariant Fold(OFFSET_BASIS, bytes) == Fold(hash, bytes[i..])
    {
      assert bytes[i..][1..] == bytes[i + 1..];
      hash := XorByte(hash, bytes[i]);
      hash := hash * MULTIPLIER % TWO_64;
    }
    sum := HexDigits(hash, 16);
  }

  /** An odd multiplier is invertible modulo 2^64, so the wrapping product loses nothing. */
  lemma MultiplyInjective(a: nat, b: nat)
    requires a < TWO_64 && b < TWO_64
    requires a * MULTIPLIER % TWO_64 == b * MULTIPLIER % TWO_64
    ensures a == b
  {
    var q, q' := a * MULTIPLIER / TWO_64, b * MULTIPLIER / TWO_64;
    var d := a - b;
    assert d * MULTIPLIER == (q - q') * TWO_64;
    assert MULTIPLIER * INVERSE == 1 + 0xb46_dd95_7c32 * TWO_64;
    assert d == TWO_64 * ((q - q') * INVERSE - d * 0xb46_dd95_7c32);
  }

  predicate Bit(n: nat, k: nat) {
    if k == 0 then n % 2 == 1 else Bit(n / 2, k - 1)
  }

  /** Bit by bit, exactly one of the two. */
  lemma {:induction false} XorBit(x: nat, y: nat, bits: nat, k: nat)
    requires k < bits
    ensures Bit(Xor(x, y, bits), k) <==> Bit(x, k) != Bit(y, k)
  {
    if k > 0 {
      XorBit(x / 2, y / 2, bits - 1, k - 1);
    }
  }

  function Pow2(n: nat): nat {
    if n == 0 then 1 else 2 * Pow2(n - 1)
  }

  lemma {:induction false} XorInjective(x: nat, y: nat, a: nat, b: nat, bits: nat)
    requires x < Pow2(bits) && y < Pow2(bits) && a < Pow2(bits) && b < Pow2(bits)
    requires Xor(x, a, bits) == Xor(y, b, bits)
    ensures a == b ==> x == y
    ensures x == y ==> a == b
  {
    if bits > 0 {
      XorInjective(x / 2, y / 2, a / 2, b / 2, bits - 1);
      FromHalves(x, y, a, b);
    }
  }

  lemma FromHalves(x: nat, y: nat, a: nat, b: nat)
    requires (x % 2 + a % 2) % 2 == (y % 2 + b % 2) % 2
    requires a / 2 == b / 2 <==> x / 2 == y / 2
    ensures a == b <==> x == y
  {
  }

  lemma {:induction false} XorBound(x: nat, y: nat, bits: nat)
    ensures Xor(x, y, bits) < Pow2(bits)
  {
    if bits > 0 {
      XorBound(x / 2, y / 2, bits - 1);
    }
  }

  lemma XorByteInjective(g: nat, h: nat, a: Byte, b: Byte)
    requires XorByte(g, a) == XorByte(h, b)
    ensures a == b ==> g == h
    ensures g == h ==> a == b
  {
    XorBound(g % 256, a, 8);
    XorBound(h % 256, b, 8);
    LowByte(g / 256, h / 256, Xor(g % 256, a, 8), Xor(h % 256, b, 8));
    XorInjective(g % 256, h % 256, a, b, 8);
  }

  lemma XorByteBound(h: nat, b: Byte)
    requires h < TWO_64
    ensures XorByte(h, b) < TWO_64
  {
    XorBound(h % 256, b, 8);
  }

  lemma LowByte(p: nat, q: nat, x: nat, y: nat)
    requires x < 256 && y < 256
    ensures p * 256 + x == q * 256 + y ==> p == q && x == y
  {
  }

  /** A step loses nothing: neither two running hashes nor two bytes can meet. */
  lemma StepInjective(g: nat, h: nat, a: Byte, b: Byte)
    requires g < TWO_64 && h < TWO_64
    requires Step(g, a) == Step(h, b)
    ensures a == b ==> g == h
    ensures g == h ==> a == b
  {
    XorByteBound(g, a);
    XorByteBound(h, b);
    MultiplyInjective(XorByte(g, a), XorByte(h, b));
    XorByteInjective(g, h, a, b);
  }

  lemma {:induction false} FoldInjective(g: nat, h: nat, bytes: Bytes)
    requires g < TWO_64 && h < TWO_64 && g != h
    ensures Fold(g, bytes) != Fold(h, bytes)
    decreases |bytes|
  {
    if bytes != [] {
      if Step(g, bytes[0]) == Step(h, bytes[0]) {
        StepInjective(g, h, bytes[0], bytes[0]);
      }
      FoldInjective(Step(g, bytes[0]), Step(h, bytes[0]), bytes[1..]);
    }
  }

  lemma {:induction false} FoldBound(h: nat, bytes: Bytes)
    requires h < TWO_64
    ensures Fold(h, bytes) < TWO_64
    decreases |bytes|
  {
    if bytes != [] {
      FoldBound(Step(h, bytes[0]), bytes[1..]);
    }
  }

  lemma {:induction false} FoldDetectsChange(h: nat, bytes: Bytes, i: nat, b: Byte)
    requires h < TWO_64 && i < |bytes| && bytes[i] != b
    ensures Fold(h, bytes[i := b]) != Fold(h, bytes)
    decreases |bytes|
  {
    var changed := bytes[i := b];
    if i == 0 {
      if Step(h, b) == Step(h, bytes[0]) {
        StepInjective(h, h, b, bytes[0]);
      }
      FoldInjective(Step(h, b), Step(h, bytes[0]), bytes[1..]);
      assert changed[1..] == bytes[1..];
    } else {
      FoldDetectsChange(Step(h, bytes[0]), bytes[1..], i - 1, b);
      assert changed[1..] == bytes[1..][i - 1 := b];
    }
  }

  function Pow16(n: nat): nat {
    if n == 0 then 1 else 16 * Pow16(n - 1)
  }

  lemma {:induction false} HexInjective(a: nat, b: nat, width: nat)
    requires a < Pow16(width) && b < Pow16(width)
    requires HexDigits(a, width) == HexDigits(b, width)
    ensures a == b
  {
    if width > 0 {
      var x, y := HexDigits(a, width), HexDigits(b, width);
      assert x[..|x| - 1] == HexDigits(a / 16, width - 1);
      assert y[..|y| - 1] == HexDigits(b / 16, width - 1);
      assert x[|x| - 1] == HEX_DIGITS[a % 16] && y[|y| - 1] == HEX_DIGITS[b % 16];
      HexInjective(a / 16, b / 16, width - 1);
      DigitInjective(a % 16, b % 16);
    }
  }

  /** The hash without its last `n` hex digits. */
  function Without(hash: nat, n: nat): nat {
    if n == 0 then hash else Without(hash / 16, n - 1)
  }

  /** The digits from the last one on: each is what the hash without the digits after it leaves modulo 16. */
  lemma {:induction false} DigitAt(hash: nat, width: nat, i: nat)
    requires i < width
    ensures |HexDigits(hash, width)| == width
    ensures HexDigits(hash, width)[width - 1 - i] == "0123456789abcdef"[Without(hash, i) % 16]
  {
    if i > 0 {
      DigitAt(hash / 16, width - 1, i - 1);
    } else if width > 1 {
      DigitAt(hash / 16, width - 1, 0);
    }
  }

  lemma DigitInjective(i: nat, j: nat)
    requires i < 16 && j < 16 && HEX_DIGITS[i] == HEX_DIGITS[j]
    ensures i == j
  {
  }

  lemma SixteenDigits()
    ensures Pow16(16) == TWO_64
  {
    assert Pow16(4) == 0x1_0000;
    assert Pow16(8) == 0x1_0000_0000;
    assert Pow16(12) == 0x1_0000_0000_0000;
  }

  /** Replacing any one byte by a different one changes the checksum. */
  lemma ChecksumDetectsChange(bytes: Bytes, i: nat, b: Byte)
    requires i < |bytes| && bytes[i] != b
    ensures HexSum(bytes[i := b]) != HexSum(bytes)
  {
    FoldDetectsChange(OFFSET_BASIS, bytes, i, b);
    FoldBound(OFFSET_BASIS, bytes);
    FoldBound(OFFSET_BASIS, bytes[i := b]);
    SixteenDigits();
    if HexSum(bytes[i := b]) == HexSum(bytes) {
      HexInjective(Fold(OFFSET_BASIS, bytes[i := b]), Fold(OFFSET_BASIS, bytes), 16);
    }
  }
}
