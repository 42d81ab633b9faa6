/**
 * The widget's summary line.  The pending count is stored as a string; the widget
 * parses it with Kotlin's `String.toIntOrNull()`, treats a failed parse as 0, and
 * shows "All done!" for 0 and "<the stored string> pending" otherwise.
 */
module CountLabel {
  import opened Wrappers

  const IntMin: int := -0x8000_0000
  const IntMax: int := 0x7fff_ffff

  const AllDone: string := "All done!"
  const PendingSuffix: string := " pending"

  predicate IsDigit(c: char)
  {
    '0' <= c <= '9'
  }

  predicate AllDigits(s: string)
  {
    forall k :: 0 <= k < |s| ==> IsDigit(s[k])
  }

  /** The value of a string of decimal digits, most significant first. */
  function DigitsValue(s: string): (n: nat)
    requires AllDigits(s)
    decreases |s|
  {
    if s == [] then 0
    else DigitsValue(s[..|s| - 1]) * 10 + (s[|s| - 1] - '0') as int
  }

  /** A decimal numeral: at least one digit, after an optional leading '-' or '+'. */
  predicate IsNumeral(s: string)
  {
    (|s| >= 1 && AllDigits(s)) || (|s| >= 2 && s[0] in "+-" && AllDigits(s[1..]))
  }

  /** The mathematical value of a numeral, with no bound on its size. */
  function NumeralValue(s: string): int
    requires IsNumeral(s)
  {
    if s[0] == '-' then -(DigitsValue(s[1..]) as int)
    else if s[0] == '+' then DigitsValue(s[1..])
    else DigitsValue(s)
  }

  /**
   * Kotlin `toIntOrNull()` in radix 10: an optional leading '-' or '+' followed
   * by at least one decimal digit, whose value must fit a 32-bit `Int`.
   * Only the ASCII digits '0'..'9' are recognised here.
   */
  function ParseInt(s: string): (r: Option<int>)
    ensures r.Some? <==> IsNumeral(s) && IntMin <= NumeralValue(s) <= IntMax
    ensures r.Some? ==> r.value == NumeralValue(s)
  {
    if |s| == 0 then None
    else
      var first := s[0];
      var signed := first < '0';
      if signed && |s| == 1 then None
      else if signed && first != '-' && first != '+' then None
      else
        var digits := if signed then s[1..] else s;
        if !AllDigits(digits) then None
        else
          var magnitude: int := DigitsValue(digits);
          var n := if first == '-' then -magnitude else magnitude;
          if IntMin <= n <= IntMax then Some(n) else None
  }

  /**
   * The summary label: a count that fails to parse counts as 0, and any other
   * count shows the stored string itself, not its parsed value.
   */
  function Label(todoCount: string): (r: string)
    ensures r == AllDone || r == todoCount + PendingSuffix
  {
    if ParseInt(todoCount).GetOr(0) == 0 then AllDone else todoCount + PendingSuffix
  }

  /** The decimal form of a non-negative number, as `Int.toString()` writes it. */
  function NatToString(n: nat): (s: string)
    decreases n
  {
    if n < 10 then [('0' as int + n) as char]
    else NatToString(n / 10) + [('0' as int + n % 10) as char]
  }

  /**
   * The label of a numeral, optionally signed: "All done!" when its value is 0 or
   * does not fit a 32-bit `Int`, and otherwise the numeral as stored (leading
   * zeros and '+' kept) followed by " pending".
   */
  lemma LabelOfNumeral(sign: string, digits: string)
    requires sign in {"", "+", "-"}
    requires |digits| >= 1 && AllDigits(digits)
    ensures var v := if sign == "-" then -(DigitsValue(digits) as int) else DigitsValue(digits);
      Label(sign + digits) == if v == 0 || !(IntMin <= v <= IntMax) then AllDone else sign + digits + PendingSuffix
  {
    var s := sign + digits;
    if sign != "" {
      assert s[0] == sign[0] && s[1..] == digits;
    } else {
      assert s == digits;
    }
    var t := s + PendingSuffix;
    assert t[|t| - 1] == 'g' && AllDone[|AllDone| - 1] == '!';
  }

  /** An empty count, or a sign with no digits after it, shows "All done!". */
  lemma LabelWithoutDigits(todoCount: string)
    requires todoCount in {"", "+", "-"}
    ensures Label(todoCount) == AllDone
  {
  }

  /** A count that is not a number (a stale or corrupted preference) degrades to "All done!". */
  lemma NonNumericCountIsAllDone(todoCount: string)
    requires exists k :: 0 <= k < |todoCount| && !IsDigit(todoCount[k]) && !(k == 0 && todoCount[k] in "+-")
    ensures Label(todoCount) == AllDone
  {
  }

  /** The decimal form of `n` is a non-empty run of digits whose value is `n`. */
  lemma {:induction false} NatToStringDigits(n: nat)
    ensures AllDigits(NatToString(n)) && |NatToString(n)| >= 1
    ensures DigitsValue(NatToString(n)) == n
    decreases n
  {
    var s := NatToString(n);
    if n >= 10 {
      NatToStringDigits(n / 10);
      assert s[..|s| - 1] == NatToString(n / 10);
    }
  }

  /** What `Int.toString()` writes for a non-negative count, `toIntOrNull()` reads back. */
  lemma ParseNatToString(n: nat)
    requires n <= IntMax
    ensures ParseInt(NatToString(n)) == Some(n)
  {
    NatToStringDigits(n);
  }

  /** The label of a count written by the application: "All done!" for 0, "<n> pending" otherwise. */
  lemma LabelOfWrittenCount(n: nat)
    requires n <= IntMax
    ensures Label(NatToString(n)) == if n == 0 then AllDone else NatToString(n) + PendingSuffix
  {
    ParseNatToString(n);
  }
}
