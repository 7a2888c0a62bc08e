/** The integer formatter `itoa` of `src/common/smts_util.c`. */
module IntegerText {

  const DIGITS := "0123456789abcdefghijklmnopqrstuvwxyz"
  /** The mirrored table: entry 35 + d is the digit of |d|. */
  const MIRRORED_DIGITS := "zyxwvutsrqponmlkjihgfedcba987654321" + DIGITS

  function Abs(v: int): nat {
    if v < 0 then -v else v
  }

  /** Division of C: the quotient is rounded toward zero. */
  function TruncDiv(a: int, b: int): (q: int)
    requires b > 0
    ensures Abs(q) == Abs(a) / b
    ensures a >= 0 ==> q >= 0
    ensures a <= 0 ==> q <= 0
    ensures a - q * b == if a >= 0 then Abs(a) % b else -(Abs(a) % b)
  {
    if a >= 0 then a / b else -(-a / b)
  }

  function DigitValue(c: char): int {
    if '0' <= c <= '9' then c as int - '0' as int else c as int - 'a' as int + 10
  }

  /** Positional notation of a natural number, most significant digit first. */
  function Numeral(n: nat, base: nat): (s: string)
    requires 2 <= base <= 36
    ensures |s| >= 1
    decreases n
  {
    if n < base then [DIGITS[n]] else QuotientIsSmaller(n, base); Numeral(n / base, base) + [DIGITS[n % base]]
  }

  lemma QuotientIsSmaller(n: nat, base: nat)
    requires 2 <= base && 0 < n
    ensures n / base <= n / 2 < n
  {
    var q, r := n / base, n % base;
    assert q * base >= q * 2;
  }

  /** The text of a signed number. */
  function Text(v: int, base: nat): string
    requires 2 <= base <= 36
  {
    if v < 0 then "-" + Numeral(-v, base) else Numeral(v, base)
  }

  /** The value of a digit string. */
  function Magnitude(s: string, base: nat): int {
    if s == "" then 0 else Magnitude(s[..|s| - 1], base) * base + DigitValue(s[|s| - 1])
  }

  /** A parser: an optional minus sign, then digits. */
  function Parse(s: string, base: nat): int {
    if s != "" && s[0] == '-' then -Magnitude(s[1..], base) else Magnitude(s, base)
  }

  function Reverse(s: string): (r: string)
    ensures |r| == |s|
    ensures forall k :: 0 <= k < |s| ==> r[k] == s[|s| - 1 - k]
  {
    if s == "" then "" else [s[|s| - 1]] + Reverse(s[..|s| - 1])
  }

  lemma DigitChars()
    ensures forall d :: 0 <= d < 36 ==> DigitValue(DIGITS[d]) == d && DIGITS[d] != '-'
    ensures forall d :: 0 < d < 36 ==> DIGITS[d] != '0'
  {
  }

  lemma MirroredTable(d: int)
    requires -36 < d < 36
    ensures MIRRORED_DIGITS[35 + d] == DIGITS[Abs(d)]
  {
  }

  lemma AppendDigit(s: string, d: nat, base: nat)
    requires d < 36
    ensures Magnitude(s + [DIGITS[d]], base) == Magnitude(s, base) * base + d
  {
    DigitChars();
    assert (s + [DIGITS[d]])[..|s|] == s;
  }

  lemma Recompose(n: nat, base: nat)
    requires base > 0
    ensures n / base * base + n % base == n
  {
  }

  lemma {:induction false} NumeralValue(n: nat, base: nat)
    requires 2 <= base <= 36
    ensures Magnitude(Numeral(n, base), base) == n
    ensures Numeral(n, base)[0] != '-'
    ensures n > 0 ==> Numeral(n, base)[0] != '0'
    decreases n
  {
    DigitChars();
    if n < base {
      AppendDigit("", n, base);
      assert "" + [DIGITS[n]] == [DIGITS[n]];
    } else {
      QuotientIsSmaller(n, base);
      Recompose(n, base);
      var q, d := n / base, n % base;
      assert q > 0;
      NumeralValue(q, base);
      AppendDigit(Numeral(q, base), d, base);
      assert Numeral(n, base) == Numeral(q, base) + [DIGITS[d]];
    }
  }

  /** Main result: parsing the text gives the number back, and the text has no leading zero. */
  lemma {:induction false} ParseOfText(v: int, base: nat)
    requires 2 <= base <= 36
    ensures Parse(Text(v, base), base) == v
    ensures v > 0 ==> Text(v, base)[0] != '0'
    ensures v < 0 ==> Text(v, base)[1] != '0'
  {
    NumeralValue(Abs(v), base);
    if v < 0 {
      assert Text(v, base)[1..] == Numeral(-v, base);
    }
  }

  function Pow2(k: nat): nat {
    if k == 0 then 1 else 2 * Pow2(k - 1)
  }

  lemma {:induction false} NumeralLength(n: nat, base: nat, k: nat)
    requires 2 <= base <= 36
    requires k > 0 && n < Pow2(k)
    ensures |Numeral(n, base)| <= k
  {
    if n >= base {
      QuotientIsSmaller(n, base);
      assert k > 1 by { assert Pow2(1) == 2 * Pow2(0); }
      NumeralLength(n / base, base, k - 1);
    }
  }

  lemma Double(x: nat, y: nat)
    ensures (2 * x) * y == 2 * (x * y)
  {
  }

  lemma {:induction false} Pow2Add(a: nat, b: nat)
    ensures Pow2(a + b) == Pow2(a) * Pow2(b)
  {
    if a > 0 {
      Pow2Add(a - 1, b);
      Double(Pow2(a - 1), Pow2(b));
    }
  }

  lemma Pow2Of32()
    ensures Pow2(32) == 0x1_0000_0000
  {
    assert Pow2(4) == 16 by {
      assert Pow2(1) == 2;
      assert Pow2(2) == 4;
      assert Pow2(3) == 8;
    }
    Pow2Add(4, 4);
    Pow2Add(8, 8);
    Pow2Add(16, 16);
  }

  /** Main result: 33 characters suffice for every 32-bit value in every base. */
  lemma {:induction false} TextLength(v: int, base: nat)
    requires 2 <= base <= 36
    requires -0x8000_0000 <= v < 0x8000_0000
    ensures |Text(v, base)| <= 33
  {
    Pow2Of32();
    NumeralLength(Abs(v), base, 32);
  }

  lemma ReverseAppend(s: string, c: char)
    ensures Reverse(s + [c]) == [c] + Reverse(s)
  {
    assert (s + [c])[..|s|] == s;
  }

  /** The low digit moves from the number still to print to the printed digits. */
  lemma NumeralStep(n: nat, base: nat, printed: string)
    requires 2 <= base <= 36
    ensures 0 <= n % base < 36
    ensures Numeral(n, base) + Reverse(printed)
         == (if n / base == 0 then "" else Numeral(n / base, base)) + Reverse(printed + [DIGITS[n % base]])
  {
    ReverseAppend(printed, DIGITS[n % base]);
    SmallQuotient(n, base);
    var c := [DIGITS[n % base]];
    if n < base {
      assert Numeral(n, base) == c;
    } else {
      assert Numeral(n, base) == Numeral(n / base, base) + c;
    }
  }

  lemma SmallQuotient(n: nat, base: nat)
    requires base > 0
    ensures n / base == 0 <==> n < base
    ensures n < base ==> n % base == n
  {
    assert n == n / base * base + n % base;
    if n / base >= 1 {
      assert n / base * base >= base;
    }
  }

  /** Formats `value`; a base outside 2..36 gives the empty string.  The caller's array has room
      for the text and its terminator. */
  method Itoa(value0: int, result: array<char>, base: int)
    requires 2 <= base <= 36 ==> |Text(value0, base)| < result.Length
    requires 0 < result.Length
    modifies result
    ensures !(2 <= base <= 36) ==> result[0] == '\0'
    ensures 2 <= base <= 36 ==> result[..|Text(value0, base)|] == Text(value0, base)
    ensures 2 <= base <= 36 ==> result[|Text(value0, base)|] == '\0'
  {
    if base < 2 || base > 36 {
      result[0] := '\0';
      return;
    }
    var ptr, tmpValue := WriteDigits(value0, result, base);
    if tmpValue < 0 {
      ReverseAppend(result[..ptr], '-');
      Append(result, ptr, '-');
      ptr := ptr + 1;
    }
    ghost var text := Text(value0, base);
    assert Reverse(result[..ptr]) == text && |text| == ptr;
    TerminateAndReverse(result, ptr);
  }

  method TerminateAndReverse(result: array<char>, ptr: nat)
    requires 0 < ptr < result.Length
    modifies result
    ensures result[..ptr] == Reverse(old(result[..ptr]))
    ensures result[ptr] == '\0'
  {
    ghost var digits := result[..ptr];
    result[ptr] := '\0';
    assert result[..ptr] == digits;
    ReverseInPlace(result, ptr);
  }

  /** The digit loop: the digits of |value0|, low digit first, and the sign of the last quotient. */
  method WriteDigits(value0: int, result: array<char>, base: nat) returns (ptr: nat, tmpValue: int)
    requires 2 <= base <= 36
    requires |Numeral(Abs(value0), base)| < result.Length
    modifies result
    ensures ptr == |Numeral(Abs(value0), base)|
    ensures Reverse(result[..ptr]) == Numeral(Abs(value0), base)
    ensures tmpValue < 0 <==> value0 < 0
  {
    var value := value0;
    ptr := 0;
    while true
      invariant 0 <= ptr < result.Length
      invariant value == 0 ==> ptr == 0
      invariant value0 >= 0 ==> value >= 0
      invariant value0 < 0 ==> value < 0
      invariant Numeral(Abs(value0), base) == Numeral(Abs(value), base) + Reverse(result[..ptr])
      decreases Abs(value)
    {
      tmpValue := value;
      var digit;
      value, digit := DivideOut(tmpValue, base);
      NumeralStep(Abs(tmpValue), base, result[..ptr]);
      Append(result, ptr, digit);
      ptr := ptr + 1;
      if value == 0 {
        break;
      }
      QuotientIsSmaller(Abs(tmpValue), base);
    }
  }

  /** One turn of the digit loop: the quotient, and the table entry of the signed remainder. */
  method DivideOut(tmpValue: int, base: nat) returns (value: int, digit: char)
    requires 2 <= base <= 36
    ensures Abs(value) == Abs(tmpValue) / base
    ensures value != 0 ==> (value < 0 <==> tmpValue < 0)
    ensures Abs(tmpValue) % base < 36 && digit == DIGITS[Abs(tmpValue) % base]
  {
    value := TruncDiv(tmpValue, base);
    var remainder := tmpValue - value * base;
    MirroredTable(remainder);
    digit := MIRRORED_DIGITS[35 + remainder];
  }

  /** The idiom `*ptr++ = c`. */
  method Append(result: array<char>, ptr: nat, c: char)
    requires ptr < result.Length
    modifies result
    ensures result[..ptr + 1] == old(result[..ptr]) + [c]
  {
    result[ptr] := c;
  }

  /** The two-pointer swap loop that turns the digits around. */
  method ReverseInPlace(result: array<char>, n: nat)
    requires 0 < n <= result.Length
    modifies result
    ensures result[..n] == Reverse(old(result[..n]))
    ensures forall k :: n <= k < result.Length ==> result[k] == old(result[k])
  {
    var ptr, ptr1 := n - 1, 0;
    while ptr1 < ptr
      invariant 0 <= ptr1 <= n && ptr == n - 1 - ptr1
      invariant ptr1 <= ptr + 2
      invariant forall k :: 0 <= k < ptr1 ==> result[k] == old(result[n - 1 - k])
      invariant forall k :: ptr < k < n ==> result[k] == old(result[n - 1 - k])
      invariant forall k :: ptr1 <= k <= ptr ==> result[k] == old(result[k])
      invariant forall k :: n <= k < result.Length ==> result[k] == old(result[k])
    {
      var tmpChar := result[ptr];
      result[ptr] := result[ptr1];
      ptr := ptr - 1;
      result[ptr1] := tmpChar;
      ptr1 := ptr1 + 1;
    }
    assert forall k :: 0 <= k < n ==> result[..n][k] == Reverse(old(result[..n]))[k];
  }
}
