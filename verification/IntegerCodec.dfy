/** Division with a remainder, as far as the codec needs it. */
module Arithmetic {

  lemma {:induction false} MulIsSmall(x: int, d: int)
    requires d > 0
    requires -d < x * d < d
    ensures x == 0
  {
  }

  /** Quotient and remainder are determined by the division equation. */
  lemma {:induction false} DivModUnique(a: int, d: int, q: int, r: int)
    requires d > 0
    requires a == q * d + r
    requires 0 <= r < d
    ensures a / d == q && a % d == r
  {
    var q', r' := a / d, a % d;
    assert a == q' * d + r';
    assert (q - q') * d == r' - r;
    MulIsSmall(q - q', d);
  }

  lemma ModAsShift(a: int, d: int) returns (k: int)
    requires d > 0
    ensures a % d == a + k * d
  {
    k := -(a / d);
    assert k * d == -(a / d * d);
  }

  lemma {:induction false} ModShift(a: int, d: int, k: int)
    requires d > 0
    ensures (a + k * d) % d == a % d
  {
    var q, r := a / d, a % d;
    assert a == q * d + r;
    assert a + k * d == (q + k) * d + r by {
      assert (q + k) * d == q * d + k * d;
    }
    DivModUnique(a + k * d, d, q + k, r);
  }
}

/** The byte-wise integer codec of `src/protocol/encode_decode_util.c`.

    A C `char` cell is a `Byte` (its value masked by 0xff).  The two shift loops are modelled
    for an arbitrary width; the 16, 32 and 64 bit entry points are their instances.
 */
module IntegerCodec {
  import opened Arithmetic

  type Byte = b: int | 0 <= b < 256

  /** The number of values of an unsigned integer of `n` bytes. */
  function Pow256(n: nat): (p: int)
    ensures p >= 1
  {
    if n == 0 then 1 else 256 * Pow256(n - 1)
  }

  /** `v` is a value of the signed integer type of `n` bytes. */
  predicate Fits(n: nat, v: int) {
    n > 0 && -Pow256(n) <= 2 * v < Pow256(n)
  }

  /** Truncation of a wider value to the signed type of `n` bytes. */
  function Truncate(n: nat, v: int): int
    requires n > 0
  {
    (v + Pow256(n) / 2) % Pow256(n) - Pow256(n) / 2
  }

  /** The big-endian bytes of `v`, defined from the low digit upwards. */
  function IntBytes(n: nat, v: int): (bs: seq<Byte>)
    ensures |bs| == n
  {
    if n == 0 then [] else IntBytes(n - 1, v / 256) + [v % 256]
  }

  /** The unsigned big-endian reading of a byte string. */
  function Unsigned(bs: seq<Byte>): (v: int)
    ensures 0 <= v < Pow256(|bs|)
  {
    if bs == [] then 0 else 256 * Unsigned(bs[..|bs| - 1]) + bs[|bs| - 1]
  }

  /** The two's complement reading of a byte string. */
  function BytesInt(bs: seq<Byte>): int {
    var u, p := Unsigned(bs), Pow256(|bs|);
    if 2 * u < p then u else u - p
  }

  lemma {:induction false} BytesIntIsTruncated(bs: seq<Byte>)
    requires bs != []
    ensures BytesInt(bs) == Truncate(|bs|, Unsigned(bs))
  {
    var u, n := Unsigned(bs), |bs|;
    Pow256Even(n);
    if 2 * u < Pow256(n) {
      TruncateOfFitting(n, u);
    } else {
      TruncateOfFitting(n, u - Pow256(n));
      TruncatePeriodic(n, u, -1);
    }
  }

  /** Splitting off the low byte of `v` commutes with dividing by `d`. */
  lemma {:induction false} DigitSplit(v: int, d: int)
    requires d > 0
    ensures v / 256 / d == v / (256 * d)
    ensures v % (256 * d) == 256 * (v / 256 % d) + v % 256
  {
    var q, r := v / 256, v % 256;
    var qq, rr := q / d, q % d;
    assert q == qq * d + rr;
    assert v == qq * (256 * d) + (256 * rr + r) by {
      assert 256 * (qq * d) == qq * (256 * d);
    }
    assert 256 * rr + r < 256 * d by { assert rr <= d - 1; }
    DivModUnique(v, 256 * d, qq, 256 * rr + r);
  }

  /** Every byte of the big-endian form is the matching arithmetic shift of the value. */
  lemma {:induction false} IntBytesAt(n: nat, v: int, k: nat)
    requires k < n
    ensures IntBytes(n, v)[k] == v / Pow256(n - 1 - k) % 256
  {
    if k == n - 1 {
    } else {
      IntBytesAt(n - 1, v / 256, k);
      DigitSplit(v, Pow256(n - 2 - k));
    }
  }

  /** The bytes of `v` carry `v` modulo the size of the type. */
  lemma {:induction false} UnsignedOfIntBytes(n: nat, v: int)
    ensures Unsigned(IntBytes(n, v)) == v % Pow256(n)
  {
    if n == 0 {
    } else {
      UnsignedOfIntBytes(n - 1, v / 256);
      assert IntBytes(n, v)[..n - 1] == IntBytes(n - 1, v / 256);
      DigitSplit(v, Pow256(n - 1));
    }
  }

  /** Reading back the low digits recovers the byte string. */
  lemma {:induction false} IntBytesOfUnsigned(bs: seq<Byte>)
    ensures IntBytes(|bs|, Unsigned(bs)) == bs
  {
    if bs == [] {
    } else {
      var front, last := bs[..|bs| - 1], bs[|bs| - 1];
      IntBytesOfUnsigned(front);
      DivModUnique(Unsigned(bs), 256, Unsigned(front), last);
      assert bs == front + [last];
    }
  }

  lemma {:induction false} IntBytesPeriodic(n: nat, v: int, k: int)
    ensures IntBytes(n, v + k * Pow256(n)) == IntBytes(n, v)
  {
    UnsignedOfIntBytes(n, v);
    UnsignedOfIntBytes(n, v + k * Pow256(n));
    ModShift(v, Pow256(n), k);
    IntBytesOfUnsigned(IntBytes(n, v));
    IntBytesOfUnsigned(IntBytes(n, v + k * Pow256(n)));
  }

  lemma {:induction false} Pow256Even(n: nat)
    requires n > 0
    ensures Pow256(n) % 2 == 0
  {
    assert Pow256(n) == 2 * (128 * Pow256(n - 1));
  }

  /** Truncation changes a value by a multiple of the size of the type. */
  lemma {:induction false} TruncateShift(n: nat, v: int) returns (k: int)
    requires n > 0
    ensures Truncate(n, v) == v + k * Pow256(n)
    ensures Fits(n, Truncate(n, v))
  {
    var p := Pow256(n);
    var h := p / 2;
    k := -((v + h) / p);
    assert v + h == (v + h) / p * p + (v + h) % p;
    assert k * p == -((v + h) / p * p);
    Pow256Even(n);
  }

  lemma {:induction false} TruncatePeriodic(n: nat, v: int, k: int)
    requires n > 0
    ensures Truncate(n, v + k * Pow256(n)) == Truncate(n, v)
  {
    ModShift(v + Pow256(n) / 2, Pow256(n), k);
    assert v + k * Pow256(n) + Pow256(n) / 2 == v + Pow256(n) / 2 + k * Pow256(n);
  }

  lemma {:induction false} TruncateOfFitting(n: nat, v: int)
    requires Fits(n, v)
    ensures Truncate(n, v) == v
  {
    Pow256Even(n);
    DivModUnique(v + Pow256(n) / 2, Pow256(n), 0, v + Pow256(n) / 2);
  }

  /** One more input byte may be truncated now or later. */
  lemma {:induction false} TruncateStep(n: nat, v: int, b: Byte)
    requires n > 0
    ensures Truncate(n, 256 * Truncate(n, v) + b) == Truncate(n, 256 * v + b)
  {
    var k := TruncateShift(n, v);
    assert 256 * Truncate(n, v) + b == (256 * v + b) + (256 * k) * Pow256(n) by {
      assert 256 * (k * Pow256(n)) == (256 * k) * Pow256(n);
    }
    TruncatePeriodic(n, 256 * v + b, 256 * k);
  }

  /** Main result: decoding undoes encoding on every value of the type. */
  lemma {:induction false} DecodeOfEncode(n: nat, v: int)
    requires Fits(n, v)
    ensures BytesInt(IntBytes(n, v)) == v
  {
    UnsignedOfIntBytes(n, v);
    var k := ModAsShift(v, Pow256(n));
    TruncatePeriodic(n, v, k);
    TruncateOfFitting(n, v);
    BytesIntIsTruncated(IntBytes(n, v));
  }

  /** Main result: encoding undoes decoding on every byte string, and decoding stays in range. */
  lemma {:induction false} EncodeOfDecode(bs: seq<Byte>)
    requires bs != []
    ensures Fits(|bs|, BytesInt(bs))
    ensures IntBytes(|bs|, BytesInt(bs)) == bs
  {
    var k := TruncateShift(|bs|, Unsigned(bs));
    BytesIntIsTruncated(bs);
    IntBytesPeriodic(|bs|, Unsigned(bs), k);
    IntBytesOfUnsigned(bs);
  }

  lemma Widths()
    ensures Pow256(2) == 0x1_0000
    ensures Pow256(4) == 0x1_0000_0000
    ensures Pow256(8) == 0x1_0000_0000_0000_0000
  {
    assert Pow256(3) == 256 * Pow256(2);
    assert Pow256(5) == 256 * Pow256(4);
    assert Pow256(6) == 256 * Pow256(5);
    assert Pow256(7) == 256 * Pow256(6);
  }

  /** The ENCODE_INT loop: the high byte first, each an arithmetic shift cut to one cell. */
  method EncodeInt(buffer: array<Byte>, start: nat, val: int, size: nat)
    requires start + size <= buffer.Length
    modifies buffer
    ensures buffer[..] == old(buffer[..start]) + IntBytes(size, val) + old(buffer[start + size..])
  {
    var len, offset := size, start;
    while len > 0
      invariant 0 <= len <= size && offset == start + size - len
      invariant buffer[..start] == old(buffer[..start])
      invariant buffer[start + size..] == old(buffer[start + size..])
      invariant buffer[start..offset] == IntBytes(size, val)[..size - len]
    {
      IntBytesAt(size, val, size - len);
      buffer[offset] := val / Pow256(len - 1) % 256;
      len, offset := len - 1, offset + 1;
    }
    assert buffer[..] == buffer[..start] + buffer[start..start + size] + buffer[start + size..];
  }

  /** The DECODE_INT loop: the accumulator has the width of the result at every turn. */
  method DecodeInt(buf: array<Byte>, start: nat, size: nat) returns (val: int)
    requires size > 0
    requires start + size <= buf.Length
    ensures val == BytesInt(buf[start..start + size])
  {
    var len := 0;
    val := 0;
    ghost var bs := buf[start..start + size];
    TruncateOfFittingZero(size);
    while len < size
      invariant 0 <= len <= size
      invariant val == Truncate(size, Unsigned(bs[..len]))
    {
      TruncateStep(size, Unsigned(bs[..len]), buf[start + len]);
      assert bs[..len + 1][..len] == bs[..len];
      val := Truncate(size, val * 256 + buf[start + len]);
      len := len + 1;
    }
    assert bs[..len] == bs;
    BytesIntIsTruncated(bs);
  }

  lemma {:induction false} TruncateOfFittingZero(n: nat)
    requires n > 0
    ensures Truncate(n, 0) == 0
  {
    assert Pow256(n) == 256 * Pow256(n - 1);
    TruncateOfFitting(n, 0);
  }
}
