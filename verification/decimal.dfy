/** Decimal digit strings as Go's `strconv` and `time` packages read and write
    them: fixed-width fields of a date, `%d` in a format string, and
    `strconv.ParseInt(s, 10, 64)`. Also the 64-bit two's-complement wrap-around
    of Go's `int64` addition. */
module Decimal {
  import opened Wrappers

  predicate IsDigit(c: char) {
    '0' <= c <= '9'
  }

  predicate AllDigits(s: string) {
    forall i :: 0 <= i < |s| ==> IsDigit(s[i])
  }

  function DigitChar(d: nat): (c: char)
    requires d < 10
    ensures IsDigit(c)
  {
    ['0', '1', '2', '3', '4', '5', '6', '7', '8', '9'][d]
  }

  function DigitValue(c: char): (d: nat)
    requires IsDigit(c)
    ensures d < 10 && DigitChar(d) == c
  {
    (c as int - '0' as int) as nat
  }

  function Pow10(w: nat): (p: nat)
    ensures p >= 1
  {
    if w == 0 then 1 else 10 * Pow10(w - 1)
  }

  /** The number a string of digits denotes, most significant digit first. */
  function ValueOf(s: string): (v: nat)
    requires AllDigits(s)
    ensures v < Pow10(|s|)
  {
    if |s| == 0 then 0 else ValueOf(s[..|s| - 1]) * 10 + DigitValue(s[|s| - 1])
  }

  /** `n` written with exactly `w` digits, zero-padded on the left
      (the layout fields "01", "02", "2006" of Go's time formatting). */
  function Fixed(n: nat, w: nat): (s: string)
    requires n < Pow10(w)
    ensures |s| == w && AllDigits(s)
  {
    if w == 0 then [] else Fixed(n / 10, w - 1) + [DigitChar(n % 10)]
  }

  /** `n` in decimal without leading zeros, as Go's `%d` prints a non-negative int. */
  function ToDecimal(n: nat): (s: string)
    ensures 1 <= |s| && AllDigits(s)
  {
    if n < 10 then [DigitChar(n)] else ToDecimal(n / 10) + [DigitChar(n % 10)]
  }

  /** Go's internal `appendInt(b, n, width)`: zero-padded to `width`, or all the
      digits when `n` needs more than `width` of them. */
  function Padded(n: nat, width: nat): (s: string)
    ensures AllDigits(s)
  {
    if n < Pow10(width) then Fixed(n, width) else ToDecimal(n)
  }

  lemma DivModTen(a: nat, d: nat)
    requires d < 10
    ensures (a * 10 + d) / 10 == a && (a * 10 + d) % 10 == d
  {
  }

  /** Reading back a fixed-width field gives the number that was written. */
  lemma {:induction false} ValueOfFixed(n: nat, w: nat)
    requires n < Pow10(w)
    ensures ValueOf(Fixed(n, w)) == n
  {
    if w > 0 {
      var s := Fixed(n, w);
      assert s[..w - 1] == Fixed(n / 10, w - 1);
      ValueOfFixed(n / 10, w - 1);
    }
  }

  /** Writing back the value of a digit string at its own width gives the string. */
  lemma {:induction false} FixedOfValue(s: string)
    requires AllDigits(s)
    ensures ValueOf(s) < Pow10(|s|) && Fixed(ValueOf(s), |s|) == s
  {
    if |s| > 0 {
      var init := s[..|s| - 1];
      FixedOfValue(init);
      DivModTen(ValueOf(init), DigitValue(s[|s| - 1]));
      assert s == init + [s[|s| - 1]];
    }
  }

  /** `%d` output read back as a decimal number is the number printed. */
  lemma {:induction false} ValueOfToDecimal(n: nat)
    ensures ValueOf(ToDecimal(n)) == n
  {
    if n >= 10 {
      var s := ToDecimal(n);
      assert s[..|s| - 1] == ToDecimal(n / 10);
      ValueOfToDecimal(n / 10);
    }
  }

  const Int64Min: int := -0x8000_0000_0000_0000
  const Int64Max: int := 0x7FFF_FFFF_FFFF_FFFF
  const TwoTo64: int := 0x1_0000_0000_0000_0000

  predicate IsInt64(v: int) {
    Int64Min <= v <= Int64Max
  }

  /** What follows an optional leading sign. */
  function Magnitude(s: string): string
    requires |s| > 0
  {
    if s[0] == '+' || s[0] == '-' then s[1..] else s
  }

  /** Base-10 integer syntax: an optional sign and at least one digit, nothing else. */
  predicate IsDecimalInteger(s: string) {
    |s| > 0 && |Magnitude(s)| > 0 && AllDigits(Magnitude(s))
  }

  /** The integer such a string denotes, leading zeros allowed. */
  function SignedValue(s: string): int
    requires IsDecimalInteger(s)
  {
    var v: int := ValueOf(Magnitude(s));
    if s[0] == '-' then -v else v
  }

  /** `strconv.ParseInt(s, 10, 64)`: an optional `+` or `-`, then one or more
      decimal digits, with the value inside the int64 range. Syntax and range
      errors both become `None`. */
  function ParseInt64(s: string): (r: Option<int>)
    ensures r.Some? ==> IsInt64(r.value)
    ensures r.Some? <==> IsDecimalInteger(s) && IsInt64(SignedValue(s))
    ensures r.Some? ==> r.value == SignedValue(s)
  {
    if |s| == 0 then None
    else
      var neg := s[0] == '-';
      var digits := if s[0] == '+' || s[0] == '-' then s[1..] else s;
      if |digits| == 0 || !AllDigits(digits) then None
      else
        var un: int := ValueOf(digits);
        if !neg && un > Int64Max then None
        else if neg && un > -Int64Min then None
        else Some(if neg then -un else un)
  }

  /** `strconv.FormatInt(v, 10)`. */
  function FormatInt(v: int): string {
    if v < 0 then "-" + ToDecimal(-v) else ToDecimal(v)
  }

  /** Every int64 survives printing and parsing back. */
  lemma ParseFormatInt(v: int)
    requires IsInt64(v)
    ensures ParseInt64(FormatInt(v)) == Some(v)
  {
    FormatIntDenotes(v);
  }

  /** `FormatInt` writes integer syntax that denotes the number written. */
  lemma FormatIntDenotes(v: int)
    ensures IsDecimalInteger(FormatInt(v)) && SignedValue(FormatInt(v)) == v
  {
    var s := FormatInt(v);
    if v < 0 {
      var m := ToDecimal(-v);
      assert s == "-" + m && s[1..] == m;
      assert Magnitude(s) == m;
      ValueOfToDecimal(-v);
    } else {
      var m := ToDecimal(v);
      assert s == m && IsDigit(s[0]) && Magnitude(s) == m;
      ValueOfToDecimal(v);
    }
  }

  /** The ends of the int64 range: "-9223372036854775808" and
      "9223372036854775807" parse, one past either end does not. */
  lemma Int64Edges()
    ensures ParseInt64(FormatInt(Int64Min)) == Some(Int64Min)
    ensures ParseInt64(FormatInt(Int64Max)) == Some(Int64Max)
    ensures ParseInt64(FormatInt(Int64Max + 1)) == None
    ensures ParseInt64(FormatInt(Int64Min - 1)) == None
  {
    ParseFormatInt(Int64Min);
    ParseFormatInt(Int64Max);
    OutOfRange(Int64Max + 1);
    OutOfRange(Int64Min - 1);
  }

  /** A printed integer outside the int64 range does not parse. */
  lemma OutOfRange(v: int)
    requires !IsInt64(v)
    ensures ParseInt64(FormatInt(v)) == None
  {
    FormatIntDenotes(v);
  }

  /** Text that is not a base-10 integer is refused: a fraction, letters,
      a bare sign, surrounding blanks. */
  lemma NonIntegersRejected()
    ensures ParseInt64("1.5") == None && ParseInt64("abc") == None
    ensures ParseInt64("") == None && ParseInt64("-") == None && ParseInt64(" 1") == None
    ensures ParseInt64("+7") == Some(7)
  {
    assert !IsDigit("1.5"[1]);
    assert !IsDigit("abc"[0]);
    assert !IsDigit(" 1"[0]);
    assert "+7"[1..] == "7";
  }

  /** The int64 that Go's two's-complement arithmetic leaves for the
      mathematical value `x`. */
  function Wrap64(x: int): (r: int)
    ensures IsInt64(r)
    ensures IsInt64(x) ==> r == x
  {
    (x - Int64Min) % TwoTo64 + Int64Min
  }

  /** The wrapped value differs from the mathematical one by a multiple of 2^64. */
  lemma WrapCongruent(x: int)
    ensures (x - Wrap64(x)) % TwoTo64 == 0
  {
  }

  /** Wrapping after every addition is the same as wrapping once at the end,
      so a running int64 sum equals the wrapped mathematical sum. */
  lemma WrapAdd(a: int, b: int)
    ensures Wrap64(Wrap64(a) + b) == Wrap64(a + b)
  {
  }
}
