/**
 * Character classes, the ordinal string order, and the 32-bit integer
 * conversions of .NET that the pipeline relies on: `char.IsWhiteSpace`,
 * `int.TryParse`, `int.ToString` and unchecked `int` arithmetic.
 */
module Text {
  import opened Wrappers

  // ---------------------------------------------------------------------
  // Whitespace
  // ---------------------------------------------------------------------

  /** `char.IsWhiteSpace`: the Unicode White_Space characters. */
  predicate IsWhiteSpace(c: char) {
    || ('\t' <= c <= '\r')
    || c == ' '
    || c == '\U{85}'
    || c == '\U{A0}'
    || c == '\U{1680}'
    || ('\U{2000}' <= c <= '\U{200A}')
    || c == '\U{2028}'
    || c == '\U{2029}'
    || c == '\U{202F}'
    || c == '\U{205F}'
    || c == '\U{3000}'
  }

  /** `string.IsNullOrWhiteSpace` on a string that is present. */
  predicate IsBlank(s: string) {
    forall i :: 0 <= i < |s| ==> IsWhiteSpace(s[i])
  }

  // ---------------------------------------------------------------------
  // Ordinal order on strings
  // ---------------------------------------------------------------------

  /** Lexicographic order on character codes; a prefix comes first. */
  predicate OrdinalLe(a: string, b: string)
    decreases |a|
  {
    || a == []
    || (b != [] && (a[0] < b[0] || (a[0] == b[0] && OrdinalLe(a[1..], b[1..]))))
  }

  lemma {:induction false} OrdinalLeReflexive(a: string)
    ensures OrdinalLe(a, a)
    decreases |a|
  {
    if a != [] {
      OrdinalLeReflexive(a[1..]);
    }
  }

  lemma {:induction false} OrdinalLeAntisymmetric(a: string, b: string)
    requires OrdinalLe(a, b) && OrdinalLe(b, a)
    ensures a == b
    decreases |a|
  {
    if a != [] && b != [] {
      OrdinalLeAntisymmetric(a[1..], b[1..]);
      assert a == [a[0]] + a[1..] && b == [b[0]] + b[1..];
    }
  }

  lemma {:induction false} OrdinalLeTransitive(a: string, b: string, c: string)
    requires OrdinalLe(a, b) && OrdinalLe(b, c)
    ensures OrdinalLe(a, c)
    decreases |a|
  {
    if a != [] && a[0] == b[0] && b[0] == c[0] {
      OrdinalLeTransitive(a[1..], b[1..], c[1..]);
    }
  }

  lemma {:induction false} OrdinalLeTotal(a: string, b: string)
    ensures OrdinalLe(a, b) || OrdinalLe(b, a)
    decreases |a|
  {
    if a != [] && b != [] && a[0] == b[0] {
      OrdinalLeTotal(a[1..], b[1..]);
    }
  }

  // ---------------------------------------------------------------------
  // 32-bit integers
  // ---------------------------------------------------------------------

  const Int32Min: int := -0x8000_0000
  const Int32Max: int := 0x7FFF_FFFF

  predicate IsInt32(x: int) {
    Int32Min <= x <= Int32Max
  }

  /** The C# `int` type. */
  type Int32 = x: int | IsInt32(x)

  /** Unchecked conversion of a mathematical integer to `int`: keeps the low 32 bits. */
  function WrapInt32(x: int): (r: Int32)
    ensures (r - x) % 0x1_0000_0000 == 0
    ensures IsInt32(x) ==> r == x
  {
    var m := x % 0x1_0000_0000;
    if m <= Int32Max then m else m - 0x1_0000_0000
  }

  // ---------------------------------------------------------------------
  // int.TryParse and int.ToString
  // ---------------------------------------------------------------------

  /** White space that `NumberStyles.Integer` allows around a number. */
  predicate IsNumberWhite(c: char) {
    c == ' ' || '\t' <= c <= '\r'
  }

  predicate IsDigit(c: char) {
    '0' <= c <= '9'
  }

  predicate AllDigits(s: string) {
    forall i :: 0 <= i < |s| ==> IsDigit(s[i])
  }

  function DigitValue(c: char): nat
    requires IsDigit(c)
  {
    (c as int) - ('0' as int)
  }

  function DigitChar(d: nat): (c: char)
    requires d < 10
    ensures IsDigit(c) && DigitValue(c) == d
  {
    ('0' as int + d) as char
  }

  /** The value of a string of decimal digits. */
  function DigitsValue(s: string): nat
    requires AllDigits(s)
  {
    if s == [] then 0 else DigitsValue(s[..|s| - 1]) * 10 + DigitValue(s[|s| - 1])
  }

  function TrimStart(s: string): (r: string)
    ensures r == [] || !IsNumberWhite(r[0])
    ensures |r| <= |s| && r == s[|s| - |r|..]
  {
    if s != [] && IsNumberWhite(s[0]) then TrimStart(s[1..]) else s
  }

  function TrimEnd(s: string): (r: string)
    ensures r == [] || !IsNumberWhite(r[|r| - 1])
    ensures |r| <= |s| && r == s[..|r|]
  {
    if s != [] && IsNumberWhite(s[|s| - 1]) then TrimEnd(s[..|s| - 1]) else s
  }

  /**
   * `int.TryParse(s, out id)` with `NumberStyles.Integer`: optional white
   * space around an optional sign and at least one digit; `None` when the
   * text is malformed or the value does not fit in an `int`.
   */
  function ParseInt32(s: string): (r: Option<Int32>)
  {
    ParseTrimmed(TrimEnd(TrimStart(s)))
  }

  /** The sign-and-digits part of `ParseInt32`, once the white space is gone. */
  function ParseTrimmed(t: string): Option<Int32>
  {
    if |t| > 0 && t[0] == '-' then
      match DigitsOf(t[1..]) case None => None case Some(v) => Fit(-(v as int))
    else if |t| > 0 && t[0] == '+' then
      match DigitsOf(t[1..]) case None => None case Some(v) => Fit(v)
    else
      match DigitsOf(t) case None => None case Some(v) => Fit(v)
  }

  /** The value of a non-empty run of digits; `None` for anything else. */
  function DigitsOf(d: string): Option<nat>
  {
    if d == [] || !AllDigits(d) then None else Some(DigitsValue(d))
  }

  /** The value when it fits in an `int`. */
  function Fit(v: int): Option<Int32>
  {
    if IsInt32(v) then Some(v) else None
  }

  /** Decimal digits of a natural number, most significant first. */
  function FormatNat(n: nat): string
  {
    if n < 10 then [DigitChar(n)] else FormatNat(n / 10) + [DigitChar(n % 10)]
  }

  /** `int.ToString()` with the invariant culture's minus sign. */
  function FormatInt(n: int): string
  {
    if n < 0 then "-" + FormatNat(-n) else FormatNat(n)
  }

  lemma {:induction false} FormatNatDigits(n: nat)
    ensures |FormatNat(n)| >= 1 && AllDigits(FormatNat(n))
    ensures DigitsValue(FormatNat(n)) == n
  {
    var s := FormatNat(n);
    if n >= 10 {
      FormatNatDigits(n / 10);
      assert s[..|s| - 1] == FormatNat(n / 10);
    } else {
      assert s[..|s| - 1] == [];
    }
  }

  /** Trimming leaves a string alone when neither end is white space. */
  lemma TrimUnpadded(s: string)
    requires |s| >= 1 && !IsNumberWhite(s[0]) && !IsNumberWhite(s[|s| - 1])
    ensures TrimEnd(TrimStart(s)) == s
  {
    assert TrimStart(s) == s;
  }

  /** A run of digits parses to its value when that fits in an `int`. */
  lemma ParseUnsigned(d: string)
    requires |d| >= 1 && AllDigits(d) && IsInt32(DigitsValue(d))
    ensures ParseInt32(d) == Some(DigitsValue(d) as Int32)
  {
    assert IsDigit(d[0]) && IsDigit(d[|d| - 1]);
    TrimUnpadded(d);
  }

  /** Once trimming changes nothing, parsing is sign-and-digits parsing. */
  lemma ParseUntrimmed(s: string)
    requires TrimEnd(TrimStart(s)) == s
    ensures ParseInt32(s) == ParseTrimmed(s)
  {
  }

  lemma NegativeDigits(s: string, n: nat)
    requires |s| >= 2 && s[0] == '-' && AllDigits(s[1..]) && DigitsValue(s[1..]) == n
    ensures ParseTrimmed(s) == Fit(-(n as int))
  {
  }

  /** A minus sign before a run of digits parses to the negated value. */
  lemma ParseNegative(s: string, n: nat)
    requires |s| >= 2 && s[0] == '-' && AllDigits(s[1..]) && DigitsValue(s[1..]) == n
    ensures ParseInt32(s) == Fit(-(n as int))
  {
    assert IsDigit(s[1..][|s| - 2]);
    TrimUnpadded(s);
    ParseUntrimmed(s);
    NegativeDigits(s, n);
  }

  /** Parsing what `ToString` printed gives the number back. */
  lemma ParseFormatRoundTrip(n: Int32)
    ensures ParseInt32(FormatInt(n)) == Some(n)
  {
    assert IsInt32(n);
    if n < 0 {
      var m: nat := -(n as int);
      FormatNatDigits(m);
      var s := FormatInt(n);
      assert s[0] == '-' && s[1..] == FormatNat(m);
      ParseNegative(s, m);
    } else {
      FormatNatDigits(n as int);
      ParseUnsigned(FormatNat(n as int));
    }
  }
}
