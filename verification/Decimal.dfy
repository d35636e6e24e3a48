/** Decimal numbers in text: std::to_string, stream insertion of an unsigned value, and atoi. */
module Decimal {
  predicate IsDigit(c: char) {
    '0' <= c <= '9'
  }

  predicate AllDigits(text: string) {
    forall k :: 0 <= k < |text| ==> IsDigit(text[k])
  }

  function DigitChar(d: nat): (c: char)
    requires d < 10
    ensures IsDigit(c)
  {
    ('0' as int + d) as char
  }

  function ToString(n: nat): (text: string)
    ensures text != "" && AllDigits(text)
  {
    if n < 10 then [DigitChar(n)] else ToString(n / 10) + [DigitChar(n % 10)]
  }

  /** The number a run of digits denotes. */
  function Value(digits: string): nat
    requires AllDigits(digits)
  {
    if digits == "" then 0
    else
      var last := |digits| - 1;
      10 * Value(digits[..last]) + (digits[last] as int - '0' as int)
  }

  lemma {:induction false} ValueOfToString(n: nat)
    ensures Value(ToString(n)) == n
  {
    var text := ToString(n);
    if n < 10 {
      assert text[..0] == "";
    } else {
      ValueOfToString(n / 10);
      assert text[..|text| - 1] == ToString(n / 10);
    }
  }

  /** The characters isspace accepts in the C locale. */
  predicate IsSpace(c: char) {
    c == ' ' || '\t' <= c <= '\r'
  }

  function DigitRun(text: string): (n: nat)
    ensures n <= |text| && AllDigits(text[..n])
    ensures n < |text| ==> !IsDigit(text[n])
  {
    if text == "" || !IsDigit(text[0]) then 0
    else
      var rest := DigitRun(text[1..]);
      assert text[..rest + 1] == [text[0]] + text[1..][..rest];
      rest + 1
  }

  /** atoi: white space, an optional sign, then the longest run of digits. */
  function Atoi(text: string): int {
    if text == "" then 0
    else if IsSpace(text[0]) then Atoi(text[1..])
    else if text[0] == '-' then 0 - Value(text[1..][..DigitRun(text[1..])])
    else
      var digits := if text[0] == '+' then text[1..] else text;
      Value(digits[..DigitRun(digits)])
  }

  /** atoi reads back what to_string wrote, up to the first character that is not a digit. */
  lemma AtoiOfToString(n: nat, rest: string)
    requires rest == "" || !IsDigit(rest[0])
    ensures Atoi(ToString(n) + rest) == n
  {
    var digits := ToString(n);
    var text := digits + rest;
    DigitRunIs(text, |digits|);
    assert text[..|digits|] == digits;
    ValueOfToString(n);
    assert IsDigit(text[0]);
  }

  lemma {:induction false} DigitRunIs(text: string, n: nat)
    requires n <= |text| && AllDigits(text[..n]) && (n < |text| ==> !IsDigit(text[n]))
    ensures DigitRun(text) == n
    decreases n
  {
    if n > 0 {
      assert text[..n][0] == text[0];
      assert text[1..][..n - 1] == text[..n][1..];
      DigitRunIs(text[1..], n - 1);
    }
  }
}
