/** Decimal digit strings: the `%d` formatting used to build page URLs and file
    names, and `strconv.ParseUint(s, 10, 32)`, the parser shared by the request
    handler and the configuration getters. */
module Decimal {
  import opened Basics

  /** The largest value `ParseUint` accepts with a bit size of 32. */
  const MaxUint32: nat := 4294967295

  predicate IsDigit(c: char) {
    '0' <= c <= '9'
  }

  predicate AllDigits(s: string) {
    forall i :: 0 <= i < |s| ==> IsDigit(s[i])
  }

  function DigitValue(c: char): nat
    requires IsDigit(c)
  {
    c as int - '0' as int
  }

  function DigitChar(d: nat): char
    requires d < 10
  {
    (d + '0' as int) as char
  }

  /** The number a string of decimal digits denotes; leading zeros are allowed. */
  function Value(s: string): nat
    requires AllDigits(s)
  {
    if s == [] then 0 else Value(s[..|s| - 1]) * 10 + DigitValue(s[|s| - 1])
  }

  /** `fmt.Sprintf("%d", n)` for a non-negative `n`: the shortest digit string
      that denotes `n`. */
  function Format(n: nat): (s: string)
    ensures |s| > 0 && AllDigits(s) && Value(s) == n
    ensures n > 0 ==> s[0] != '0'
    ensures n == 0 ==> s == "0"
  {
    if n < 10 then
      var s := [DigitChar(n)];
      assert s[..0] == [];
      s
    else
      var prefix := Format(n / 10);
      var s := prefix + [DigitChar(n % 10)];
      assert s[..|s| - 1] == prefix;
      s
  }

  /** Distinct numbers are written differently. */
  lemma FormatInjective(m: nat, n: nat)
    ensures Format(m) == Format(n) ==> m == n
  {
  }

  /** A longer prefix of a digit string never denotes a smaller number. */
  lemma {:induction false} ValuePrefixMono(s: string, j: nat)
    requires AllDigits(s) && j <= |s|
    ensures Value(s[..j]) <= Value(s)
    decreases |s|
  {
    if j == |s| {
      assert s[..j] == s;
    } else {
      var t := s[..|s| - 1];
      assert t[..j] == s[..j];
      ValuePrefixMono(t, j);
    }
  }

  datatype NumErrorKind = ErrSyntax | ErrRange

  /** Go's `*strconv.NumError`: the function name, the rejected input and the cause. */
  datatype NumError = NumError(func: string, num: string, kind: NumErrorKind) {
    function Message(): string {
      "strconv." + func + ": parsing " + Quote(num) + ": "
        + (if kind == ErrSyntax then "invalid syntax" else "value out of range")
    }
  }

  /** `strconv.Quote` for inputs without characters that need escaping. */
  function Quote(s: string): string {
    "\"" + s + "\""
  }

  /** The inputs `strconv.ParseUint(s, 10, 32)` accepts: a non-empty run of
      decimal digits, no sign, no base prefix, no underscore, at most 2^32 - 1. */
  predicate IsUint32(s: string) {
    |s| > 0 && AllDigits(s) && Value(s) <= MaxUint32
  }

  /** The digit loop of `ParseUint`: `n` is the value of `s[..i]`; the first
      non-digit is a syntax error, the first prefix above the bound a range error. */
  function Scan(s: string, i: nat, n: nat): Result<nat, NumError>
    requires i <= |s|
    decreases |s| - i
  {
    if i == |s| then Ok(n)
    else if !IsDigit(s[i]) then Fail(NumError("ParseUint", s, ErrSyntax))
    else
      var n1 := n * 10 + DigitValue(s[i]);
      if n1 > MaxUint32 then Fail(NumError("ParseUint", s, ErrRange))
      else Scan(s, i + 1, n1)
  }

  lemma {:induction false} ScanCorrect(s: string, i: nat, n: nat)
    requires i <= |s| && AllDigits(s[..i]) && n == Value(s[..i]) && n <= MaxUint32
    ensures Scan(s, i, n).Ok? <==> AllDigits(s) && Value(s) <= MaxUint32
    ensures Scan(s, i, n).Ok? ==> Scan(s, i, n).value == Value(s)
    ensures AllDigits(s) && Value(s) > MaxUint32 ==> Scan(s, i, n) == Fail(NumError("ParseUint", s, ErrRange))
    ensures Scan(s, i, n).Fail? ==> Scan(s, i, n).error.func == "ParseUint" && Scan(s, i, n).error.num == s
    decreases |s| - i
  {
    if i == |s| {
      assert s[..i] == s;
    } else if !IsDigit(s[i]) {
      assert !AllDigits(s);
    } else {
      var n1 := n * 10 + DigitValue(s[i]);
      assert s[..i + 1][..i] == s[..i];
      assert AllDigits(s[..i + 1]);
      assert n1 == Value(s[..i + 1]);
      if n1 > MaxUint32 {
        if AllDigits(s) {
          ValuePrefixMono(s, i + 1);
        }
      } else {
        ScanCorrect(s, i + 1, n1);
      }
    }
  }

  /** `strconv.ParseUint(s, 10, 32)`. */
  function ParseUint32(s: string): (r: Result<nat, NumError>)
    ensures r.Ok? <==> IsUint32(s)
    ensures r.Ok? ==> r.value == Value(s) && r.value <= MaxUint32
    ensures r.Fail? ==> r.error.func == "ParseUint" && r.error.num == s
    ensures s == "" ==> r == Fail(NumError("ParseUint", s, ErrSyntax))
    ensures |s| > 0 && !IsDigit(s[0]) ==> r == Fail(NumError("ParseUint", s, ErrSyntax))
    ensures |s| > 0 && AllDigits(s) && Value(s) > MaxUint32 ==> r == Fail(NumError("ParseUint", s, ErrRange))
  {
    if s == [] then Fail(NumError("ParseUint", s, ErrSyntax))
    else
      assert s[..0] == [];
      ScanCorrect(s, 0, 0);
      Scan(s, 0, 0)
  }

  /** Formatting and parsing are inverse on the 32-bit range. */
  lemma ParseFormatRoundTrip(n: nat)
    requires n <= MaxUint32
    ensures ParseUint32(Format(n)) == Ok(n)
  {
  }
}
