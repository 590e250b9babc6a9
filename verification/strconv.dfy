/** The parts of Go's `strconv` (and `fmt.Sprint` of integers and booleans)
    that the two log tools depend on, for a 64-bit `int`. */
module Strconv {
  import opened Results

  const MinInt: int := -0x8000_0000_0000_0000
  const MaxInt: int := 0x7fff_ffff_ffff_ffff

  predicate IsDigit(c: char) {
    '0' <= c <= '9'
  }

  predicate AllDigits(s: string) {
    forall i :: 0 <= i < |s| ==> IsDigit(s[i])
  }

  /** A decimal numeral without superfluous leading zeros. */
  predicate Canonical(s: string) {
    |s| > 0 && AllDigits(s) && (|s| == 1 || s[0] != '0')
  }

  function DigitValue(c: char): nat
    requires IsDigit(c)
  {
    c as int - '0' as int
  }

  function DigitChar(d: nat): (c: char)
    requires d < 10
    ensures IsDigit(c) && DigitValue(c) == d
  {
    ('0' as int + d) as char
  }

  /** The value of a string of decimal digits. */
  function DigitsValue(s: string): nat
    requires AllDigits(s)
  {
    if |s| == 0 then 0 else 10 * DigitsValue(s[..|s| - 1]) + DigitValue(s[|s| - 1])
  }

  /** `fmt.Sprint` of a non-negative integer (Rust's `{}` prints the same). */
  function FormatNat(n: nat): (s: string)
    ensures Canonical(s)
    ensures DigitsValue(s) == n
  {
    if n < 10 then [DigitChar(n)]
    else
      var init := FormatNat(n / 10);
      var s := init + [DigitChar(n % 10)];
      assert s[..|s| - 1] == init;
      s
  }

  /** `fmt.Sprint` of an `int`. */
  function FormatInt(n: int): (s: string)
    ensures |s| > 0
    ensures n < 0 <==> s[0] == '-'
  {
    if n < 0 then "-" + FormatNat(-n) else FormatNat(n)
  }

  /** `strconv.Atoi`: an optional sign followed by at least one decimal digit,
      whose value fits a 64-bit `int`; anything else is an error. */
  function Atoi(s: string): (r: Option<int>)
    ensures r.Some? ==> MinInt <= r.value <= MaxInt
    ensures r.Some? ==> |s| > 0 && (IsDigit(s[0]) || s[0] == '+' || s[0] == '-')
    ensures AllDigits(s) && |s| > 0 ==> (r.Some? <==> DigitsValue(s) <= MaxInt)
    ensures r.Some? && AllDigits(s) ==> r.value == DigitsValue(s)
  {
    if |s| == 0 then None
    else
      var digits := if s[0] == '-' || s[0] == '+' then s[1..] else s;
      if |digits| == 0 || !AllDigits(digits) then None
      else
        var v := if s[0] == '-' then 0 - DigitsValue(digits) as int else DigitsValue(digits) as int;
        if MinInt <= v <= MaxInt then Some(v) else None
  }

  /** Printing then parsing an `int` gives it back. */
  lemma AtoiFormatInt(n: int)
    requires MinInt <= n <= MaxInt
    ensures Atoi(FormatInt(n)) == Some(n)
  {
    if n < 0 {
      assert FormatInt(n)[1..] == FormatNat(-n);
    }
  }

  /** Parsing then printing a canonical numeral in range gives it back: the
      numeral is the unique canonical spelling of its value. */
  lemma {:induction false} FormatDigitsValue(s: string)
    requires Canonical(s)
    ensures FormatNat(DigitsValue(s)) == s
  {
    var n := |s|;
    if n > 1 {
      var init := s[..n - 1];
      assert Canonical(init) by {
        assert init[0] == s[0];
      }
      FormatDigitsValue(init);
      LeadingDigitPositive(init);
      var v := DigitsValue(s);
      assert v / 10 == DigitsValue(init) && v % 10 == DigitValue(s[n - 1]);
      assert DigitChar(v % 10) == s[n - 1];
    }
  }

  lemma LeadingDigitPositive(s: string)
    requires Canonical(s) && s[0] != '0'
    ensures DigitsValue(s) >= 1
  {
    if |s| > 1 {
      var init := s[..|s| - 1];
      assert init[0] == s[0];
      LeadingDigitPositive(init);
    }
  }

  /** A numeral and its canonical spelling parse to the same value, leading
      zeros or a `+` sign notwithstanding. */
  lemma AtoiCanonical(s: string)
    requires Canonical(s) && DigitsValue(s) <= MaxInt
    ensures Atoi(s) == Some(DigitsValue(s))
    ensures FormatInt(Atoi(s).value) == s
  {
    FormatDigitsValue(s);
  }

  const TrueSpellings: set<string> := {"1", "t", "T", "TRUE", "true", "True"}
  const FalseSpellings: set<string> := {"0", "f", "F", "FALSE", "false", "False"}

  /** `strconv.ParseBool`. */
  function ParseBool(s: string): (r: Option<bool>)
    ensures r == Some(true) <==> s in TrueSpellings
    ensures r == Some(false) <==> s in FalseSpellings
    ensures r == None <==> s !in TrueSpellings + FalseSpellings
  {
    if s in TrueSpellings then Some(true)
    else if s in FalseSpellings then Some(false)
    else None
  }

  /** `fmt.Sprint` of a `bool` (Rust's `{}` prints the same). */
  function FormatBool(b: bool): (s: string)
    ensures s in TrueSpellings + FalseSpellings
  {
    if b then "true" else "false"
  }

  /** Printing then parsing a boolean gives it back; parsing then printing
      normalises every accepted spelling. */
  lemma ParseBoolRoundTrip(b: bool, s: string)
    ensures ParseBool(FormatBool(b)) == Some(b)
    ensures ParseBool(s).Some? ==> ParseBool(FormatBool(ParseBool(s).value)) == ParseBool(s)
  {
  }
}
