/** Decimal digit strings: rendering a number as text (Rust's `to_string` on an unsigned integer)
    and parsing text as an unsigned integer of bounded width (Rust's `str::parse`). */
module Decimal {
  import opened Errors

  predicate IsDigit(c: char) { '0' <= c <= '9' }

  predicate AllDigits(s: string) { forall i :: 0 <= i < |s| ==> IsDigit(s[i]) }

  function DigitValue(c: char): nat
    requires IsDigit(c)
  {
    c as nat - '0' as nat
  }

  function DigitChar(d: nat): (c: char)
    requires d < 10
    ensures IsDigit(c) && DigitValue(c) == d
  {
    ('0' as nat + d) as char
  }

  /** The number a digit string denotes, most significant digit first. */
  function Value(s: string): nat
    requires AllDigits(s)
  {
    if s == [] then 0 else Value(s[..|s| - 1]) * 10 + DigitValue(s[|s| - 1])
  }

  /** `n.to_string()`: the shortest decimal text of `n`. */
  function ToDecimal(n: nat): (r: string)
    ensures |r| > 0 && AllDigits(r) && Value(r) == n
    ensures r[0] == '0' ==> r == "0"
  {
    if n < 10 then [DigitChar(n)]
    else
      var high := ToDecimal(n / 10);
      var r := high + [DigitChar(n % 10)];
      assert r[..|r| - 1] == high;
      r
  }

  /** Rust's unsigned `from_str`: an optional leading `+`, then one or more ASCII digits whose
      value is below `limit` (the type's maximum plus one); anything else is an error. */
  function ParseUnsigned(s: string, limit: nat): (r: Option<nat>)
    ensures r.Some? ==> r.value < limit
    ensures r.Some? <==> UnsignedText(s) && Value(UnsignedDigits(s)) < limit
    ensures r.Some? ==> r.value == Value(UnsignedDigits(s))
  {
    if !UnsignedText(s) then None
    else if Value(UnsignedDigits(s)) < limit then Some(Value(UnsignedDigits(s)))
    else None
  }

  /** The text is an optional `+` followed by at least one digit. */
  predicate UnsignedText(s: string) {
    |s| > 0 && (if s[0] == '+' then |s| > 1 && AllDigits(s[1..]) else AllDigits(s))
  }

  function UnsignedDigits(s: string): (d: string)
    requires UnsignedText(s)
    ensures AllDigits(d) && |d| > 0
  {
    if s[0] == '+' then s[1..] else s
  }

  /** Rendering and parsing agree: `to_string` followed by `parse` gives the number back. */
  lemma {:induction false} ParseToDecimal(n: nat, limit: nat)
    requires n < limit
    ensures ParseUnsigned(ToDecimal(n), limit) == Some(n)
  {
    var s := ToDecimal(n);
    assert s[0] != '+';
  }

  /** A digit string with no leading zero is the decimal text of its own value. */
  lemma {:induction false} ToDecimalOfValue(s: string)
    requires |s| > 0 && AllDigits(s) && (s[0] == '0' ==> s == "0")
    ensures ToDecimal(Value(s)) == s
  {
    if |s| == 1 {
    } else {
      var high := s[..|s| - 1];
      assert high[0] == s[0];
      ValuePositive(high);
      ToDecimalOfValue(high);
      assert Value(s) / 10 == Value(high);
      assert Value(s) % 10 == DigitValue(s[|s| - 1]);
      assert high + [s[|s| - 1]] == s;
    }
  }

  lemma {:induction false} ValuePositive(s: string)
    requires |s| > 0 && AllDigits(s) && s[0] != '0'
    ensures Value(s) > 0
  {
    if |s| > 1 {
      var high := s[..|s| - 1];
      assert high[0] == s[0];
      ValuePositive(high);
    }
  }
}
