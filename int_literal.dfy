/** Integer literals as the services read them from text (Python's `int()`
    applied to a query value or a path segment) and write them back
    (`str()` of an identifier). */
module IntLiteral {
  import opened Documents

  predicate IsDigit(c: char) {
    '0' <= c <= '9'
  }

  predicate AllDigits(s: string) {
    forall i :: 0 <= i < |s| ==> IsDigit(s[i])
  }

  predicate IsSign(c: char) {
    c == '-' || c == '+'
  }

  /** An optional sign followed by at least one decimal digit. */
  predicate IsIntLiteral(s: string) {
    if |s| > 0 && IsSign(s[0]) then |s| > 1 && AllDigits(s[1..])
    else |s| > 0 && AllDigits(s)
  }

  /** The value of a string of decimal digits, most significant first. */
  function DigitsValue(s: string): nat
    requires AllDigits(s)
  {
    if s == [] then 0
    else DigitsValue(s[..|s| - 1]) * 10 + (s[|s| - 1] - '0') as int
  }

  /** `int(s)`: the integer the text denotes, or None where Python raises
      `ValueError`. */
  function ParseInt(s: string): (r: Option<int>)
    ensures r.Some? <==> IsIntLiteral(s)
    ensures r.Some? && s[0] == '-' ==> r.value <= 0
    ensures r.Some? && s[0] != '-' ==> r.value >= 0
  {
    if !IsIntLiteral(s) then None
    else if s[0] == '-' then Some(0 - DigitsValue(s[1..]) as int)
    else if s[0] == '+' then Some(DigitsValue(s[1..]))
    else Some(DigitsValue(s))
  }

  /** The shortest decimal digit string of `n`. */
  function NatToDigits(n: nat): (s: string)
    ensures AllDigits(s) && |s| > 0
    ensures s[0] == '0' ==> n == 0
  {
    if n < 10 then ['0' + n as char]
    else NatToDigits(n / 10) + ['0' + (n % 10) as char]
  }

  /** `str(i)` for an integer. */
  function IntToString(i: int): (s: string)
    ensures IsIntLiteral(s)
    ensures s[0] == '-' <==> i < 0
  {
    if i < 0 then "-" + NatToDigits(-i) else NatToDigits(i)
  }

  lemma {:induction false} DigitsRoundTrip(n: nat)
    ensures DigitsValue(NatToDigits(n)) == n
  {
    if n >= 10 {
      DigitsRoundTrip(n / 10);
      var s := NatToDigits(n);
      assert s[..|s| - 1] == NatToDigits(n / 10);
    }
  }

  /** Reading back the text of an identifier gives the identifier. */
  lemma ParseIntToString(i: int)
    ensures ParseInt(IntToString(i)) == Some(i)
  {
    var s := IntToString(i);
    if i < 0 {
      assert s[1..] == NatToDigits(-i);
      DigitsRoundTrip(-i);
    } else {
      DigitsRoundTrip(i);
    }
  }
}
