/**
 * The pieces of Go's language and standard library that the rate limiter
 * relies on, stated over Dafny's unbounded integers and character sequences:
 * truncating integer division, `strings.Index`, `strings.Split`,
 * `strconv.Atoi`, and `time.ParseDuration` restricted to whole seconds.
 */
module GoLib {
  import opened Wrappers

  // ---------------------------------------------------------------------
  // Integer division and remainder as Go's `/` and `%` compute them
  // ---------------------------------------------------------------------

  function Abs(x: int): nat {
    if x < 0 then -x else x
  }

  /** Go's `a / b` on integers: the quotient rounded toward zero. */
  function TruncDiv(a: int, b: int): int
    requires b != 0
  {
    if (a < 0) == (b < 0) then Abs(a) / Abs(b) else -(Abs(a) / Abs(b))
  }

  /**
   * Go's `a % b` on integers: what is left after `TruncDiv`. It is smaller
   * than the divisor in magnitude and never has the opposite sign of `a`.
   */
  function TruncMod(a: int, b: int): (r: int)
    requires b != 0
    ensures Abs(r) < Abs(b)
    ensures a >= 0 ==> r >= 0
    ensures a <= 0 ==> r <= 0
  {
    if a < 0 then -(Abs(a) % Abs(b)) else Abs(a) % Abs(b)
  }

  /** Quotient and remainder reassemble the dividend, as the Go specification demands. */
  lemma TruncDivMod(a: int, b: int)
    requires b != 0
    ensures a == b * TruncDiv(a, b) + TruncMod(a, b)
  {
  }

  /** On a non-negative dividend and a positive divisor Go agrees with Dafny. */
  lemma TruncAgreesOnNatural(a: int, b: int)
    requires a >= 0 && b > 0
    ensures TruncDiv(a, b) == a / b
    ensures TruncMod(a, b) == a % b
  {
  }

  // ---------------------------------------------------------------------
  // Durations (package time), as integer nanoseconds
  // ---------------------------------------------------------------------

  const SECOND := 1_000_000_000

  /** The largest number of whole seconds a Duration (an int64 of nanoseconds) can hold. */
  const MAX_WHOLE_SECONDS := 9_223_372_036

  /**
   * `int(d.Seconds())`: the float conversion is left out and the
   * nanoseconds are truncated toward zero to whole seconds.
   */
  function WholeSeconds(d: int): int {
    TruncDiv(d, SECOND)
  }

  /** A duration truncates to zero whole seconds exactly when it is shorter than one second. */
  lemma WholeSecondsZero(d: int)
    ensures WholeSeconds(d) == 0 <==> -SECOND < d < SECOND
  {
  }

  // ---------------------------------------------------------------------
  // strings.Index
  // ---------------------------------------------------------------------

  /** `pat` occurs in `s` starting at position `i`. */
  predicate OccursAt(s: string, pat: string, i: int) {
    0 <= i && i + |pat| <= |s| && s[i..i + |pat|] == pat
  }

  /** `i` is the leftmost position at which `pat` occurs in `s`. */
  predicate IsFirstOccurrence(s: string, pat: string, i: int) {
    OccursAt(s, pat, i) && forall j :: 0 <= j < i ==> !OccursAt(s, pat, j)
  }

  /** The leftmost occurrence of `pat` in `s` at or after `from`. */
  function IndexFrom(s: string, pat: string, from: nat): (r: Option<nat>)
    ensures r.Some? ==> from <= r.value && OccursAt(s, pat, r.value)
    ensures r.Some? ==> forall j :: from <= j < r.value ==> !OccursAt(s, pat, j)
    ensures r.None? ==> forall j :: from <= j ==> !OccursAt(s, pat, j)
    decreases |s| - from
  {
    if from + |pat| > |s| then None
    else if s[from..from + |pat|] == pat then Some(from)
    else IndexFrom(s, pat, from + 1)
  }

  /** `strings.Index(s, pat)`, with `None` standing for Go's -1. */
  function Index(s: string, pat: string): (r: Option<nat>)
    ensures r.Some? ==> IsFirstOccurrence(s, pat, r.value)
    ensures r.None? <==> forall j :: !OccursAt(s, pat, j)
  {
    IndexFrom(s, pat, 0)
  }

  /** The leftmost occurrence is unique. */
  lemma FirstOccurrenceUnique(s: string, pat: string, i: int, j: int)
    requires IsFirstOccurrence(s, pat, i) && IsFirstOccurrence(s, pat, j)
    ensures i == j
  {
  }

  // ---------------------------------------------------------------------
  // strings.Split and strings.Join, for a one-character separator
  // ---------------------------------------------------------------------

  /**
   * `strings.Split(s, string(sep))`: the pieces of `s` between the
   * separators. There is always at least one piece (`Split("", sep)` is `[""]`).
   */
  function Split(s: string, sep: char): (parts: seq<string>)
    ensures |parts| >= 1
    decreases |s|
  {
    if |s| == 0 then [""]
    else if s[0] == sep then [""] + Split(s[1..], sep)
    else
      var rest := Split(s[1..], sep);
      [[s[0]] + rest[0]] + rest[1..]
  }

  /** `strings.Join(parts, string(sep))`. */
  function Join(parts: seq<string>, sep: char): string
    requires |parts| >= 1
  {
    if |parts| == 1 then parts[0] else parts[0] + [sep] + Join(parts[1..], sep)
  }

  /** Joining the pieces back with the separator gives the original text. */
  lemma {:induction false} JoinSplit(s: string, sep: char)
    ensures Join(Split(s, sep), sep) == s
  {
    if |s| == 0 {
    } else if s[0] == sep {
      JoinSplit(s[1..], sep);
      assert s == [sep] + s[1..];
    } else {
      var rest := Split(s[1..], sep);
      JoinSplit(s[1..], sep);
      if |rest| == 1 {
        assert s == [s[0]] + s[1..];
      } else {
        assert rest == [rest[0]] + rest[1..];
        assert Join(rest, sep) == rest[0] + [sep] + Join(rest[1..], sep);
        var parts := [[s[0]] + rest[0]] + rest[1..];
        assert parts[1..] == rest[1..];
        assert s == [s[0]] + (rest[0] + [sep] + Join(rest[1..], sep));
      }
    }
  }

  /** No piece contains the separator. */
  lemma {:induction false} SplitPartsAvoidSep(s: string, sep: char)
    ensures forall k :: 0 <= k < |Split(s, sep)| ==> sep !in Split(s, sep)[k]
  {
    if |s| > 0 {
      SplitPartsAvoidSep(s[1..], sep);
      if s[0] != sep {
        var rest := Split(s[1..], sep);
        assert sep !in rest[0];
        assert sep !in [s[0]] + rest[0];
      }
    }
  }

  /**
   * `h` is the longest prefix of `s` that does not contain `sep`: it is a
   * prefix, it avoids `sep`, and it stops at the end of `s` or at a `sep`.
   */
  predicate IsHeadBefore(h: string, s: string, sep: char) {
    |h| <= |s| && h == s[..|h|] && sep !in h && (|h| == |s| || s[|h|] == sep)
  }

  /** The first piece of a split is the text up to the first separator. */
  lemma {:induction false} SplitHead(s: string, sep: char)
    ensures IsHeadBefore(Split(s, sep)[0], s, sep)
  {
    if |s| > 0 && s[0] != sep {
      SplitHead(s[1..], sep);
      var rest := Split(s[1..], sep);
      assert sep !in [s[0]] + rest[0];
    }
  }

  /** There is only one longest separator-free prefix. */
  lemma HeadBeforeUnique(h1: string, h2: string, s: string, sep: char)
    requires IsHeadBefore(h1, s, sep) && IsHeadBefore(h2, s, sep)
    ensures h1 == h2
  {
  }

  // ---------------------------------------------------------------------
  // Decimal integers: strconv.Atoi and strconv.Itoa
  // ---------------------------------------------------------------------

  const INT64_MIN := -0x8000_0000_0000_0000
  const INT64_MAX := 0x7fff_ffff_ffff_ffff

  predicate IsDigit(c: char) {
    '0' <= c <= '9'
  }

  predicate AllDigits(s: string) {
    forall k :: 0 <= k < |s| ==> IsDigit(s[k])
  }

  /** The value of a string of decimal digits, most significant first. */
  function DigitsValue(s: string): nat
    requires AllDigits(s)
  {
    if |s| == 0 then 0
    else DigitsValue(s[..|s| - 1]) * 10 + (s[|s| - 1] as int - '0' as int)
  }

  /** The shortest decimal spelling of `n`. */
  function DecimalString(n: nat): (s: string)
    ensures |s| >= 1 && AllDigits(s)
  {
    (if n < 10 then "" else DecimalString(n / 10)) + [('0' as int + n % 10) as char]
  }

  /** Appending a digit shifts the value one decimal place. */
  lemma DigitsValueSnoc(s: string, c: char)
    requires AllDigits(s) && IsDigit(c)
    ensures AllDigits(s + [c]) && DigitsValue(s + [c]) == DigitsValue(s) * 10 + (c as int - '0' as int)
  {
  }

  lemma {:induction false} DecimalStringValue(n: nat)
    ensures DigitsValue(DecimalString(n)) == n
  {
    var last := ('0' as int + n % 10) as char;
    var front := if n < 10 then "" else DecimalString(n / 10);
    assert DecimalString(n) == front + [last];
    DigitsValueSnoc(front, last);
    if n >= 10 {
      DecimalStringValue(n / 10);
    }
  }

  /** Text of the form `[+|-]digits`, with its signed value; `None` for anything else. */
  function SignedDigits(s: string): Option<int> {
    if |s| > 0 && (s[0] == '+' || s[0] == '-') then
      var body := s[1..];
      if |body| > 0 && AllDigits(body) then
        var v: int := if s[0] == '-' then -(DigitsValue(body) as int) else DigitsValue(body);
        Some(v)
      else None
    else if |s| > 0 && AllDigits(s) then Some(DigitsValue(s))
    else None
  }

  /** `strconv.Atoi(s)` on a 64-bit platform, with `None` standing for a non-nil error. */
  function Atoi(s: string): (r: Option<int>)
    ensures r.Some? ==> INT64_MIN <= r.value <= INT64_MAX
  {
    match SignedDigits(s)
    case Some(v) => if INT64_MIN <= v <= INT64_MAX then Some(v) else None
    case None => None
  }

  /** `strconv.Itoa(v)`. */
  function FormatInt(v: int): string {
    if v < 0 then "-" + DecimalString(-v) else DecimalString(v)
  }

  lemma SignedDigitsFormatInt(v: int)
    ensures SignedDigits(FormatInt(v)) == Some(v)
  {
    var s := FormatInt(v);
    if v < 0 {
      DecimalStringValue(-v);
      assert s[1..] == DecimalString(-v);
    } else {
      DecimalStringValue(v);
      assert IsDigit(s[0]);
    }
  }

  /** Every 64-bit integer is read back from its decimal spelling. */
  lemma AtoiFormatInt(v: int)
    requires INT64_MIN <= v <= INT64_MAX
    ensures Atoi(FormatInt(v)) == Some(v)
  {
    SignedDigitsFormatInt(v);
  }

  /** Text that has no digit at all is not a number. */
  lemma AtoiNeedsDigit(s: string)
    requires forall k :: 0 <= k < |s| ==> !IsDigit(s[k])
    ensures Atoi(s) == None
  {
  }

  /**
   * `time.ParseDuration(h + "s")` restricted to `h` of the form
   * `[+|-]digits`: a whole number of seconds, in nanoseconds, provided it
   * fits a Duration. `None` stands for a non-nil error.
   */
  function ParseSecondsDuration(h: string): (r: Option<int>)
    ensures r.Some? ==> r.value % SECOND == 0
    ensures r.Some? ==> Abs(r.value) <= MAX_WHOLE_SECONDS * SECOND <= INT64_MAX
  {
    match SignedDigits(h)
    case Some(v) => if Abs(v) <= MAX_WHOLE_SECONDS then Some(v * SECOND) else None
    case None => None
  }

  /** Every representable whole number of seconds is read back from its decimal spelling. */
  lemma ParseSecondsFormatInt(n: int)
    requires Abs(n) <= MAX_WHOLE_SECONDS
    ensures ParseSecondsDuration(FormatInt(n)) == Some(n * SECOND)
  {
    SignedDigitsFormatInt(n);
  }
}
