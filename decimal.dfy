/**
  Decimal text: the integer syntax a `limit` query string must have,
  its value, and the canonical rendering of a natural number as digits.
 */
module Decimal {
  import opened Wrappers

  predicate IsDigit(c: char) {
    '0' <= c <= '9'
  }

  /** Every character is an ASCII decimal digit (the empty string included). */
  predicate AllDigits(s: string) {
    forall i :: 0 <= i < |s| ==> IsDigit(s[i])
  }

  /** A non-empty run of decimal digits. */
  predicate IsDigits(s: string) {
    |s| > 0 && AllDigits(s)
  }

  /** A digit string without superfluous leading zeros. */
  predicate IsCanonical(s: string) {
    IsDigits(s) && (|s| == 1 || s[0] != '0')
  }

  /** An optional sign followed by at least one digit. */
  predicate IsIntegerLiteral(s: string) {
    IsDigits(s) || (|s| > 0 && (s[0] == '+' || s[0] == '-') && IsDigits(s[1..]))
  }

  function DigitValue(c: char): (d: nat)
    requires IsDigit(c)
    ensures d < 10
  {
    (c as int) - ('0' as int)
  }

  function DigitChar(d: nat): (c: char)
    requires d < 10
    ensures IsDigit(c) && DigitValue(c) == d
  {
    (('0' as int) + d) as char
  }

  /** The number a digit string denotes, most significant digit first. */
  function DigitsValue(s: string): nat
    requires AllDigits(s)
  {
    if |s| == 0 then 0 else DigitsValue(s[..|s| - 1]) * 10 + DigitValue(s[|s| - 1])
  }

  /** The shortest decimal rendering of `n`. */
  function NatToString(n: nat): (r: string)
    ensures IsCanonical(r)
  {
    if n < 10 then [DigitChar(n)] else NatToString(n / 10) + [DigitChar(n % 10)]
  }

  /** The integer an integer literal denotes; `None` for anything else. */
  function ParseInt(s: string): Option<int> {
    if IsDigits(s) then Some(DigitsValue(s))
    else if |s| > 0 && s[0] == '+' && IsDigits(s[1..]) then Some(DigitsValue(s[1..]))
    else if |s| > 0 && s[0] == '-' && IsDigits(s[1..]) then Some(-(DigitsValue(s[1..]) as int))
    else None
  }

  /** Reading back the rendering of `n` gives `n`. */
  lemma {:induction false} DigitsValueOfNatToString(n: nat)
    ensures DigitsValue(NatToString(n)) == n
  {
    var r := NatToString(n);
    if n >= 10 {
      DigitsValueOfNatToString(n / 10);
      assert r[..|r| - 1] == NatToString(n / 10);
    }
  }

  /** A digit string denotes zero exactly when every digit is '0'. */
  lemma {:induction false} DigitsValueZero(s: string)
    requires AllDigits(s)
    ensures DigitsValue(s) == 0 <==> forall i :: 0 <= i < |s| ==> s[i] == '0'
  {
    if |s| > 0 {
      var init := s[..|s| - 1];
      DigitsValueZero(init);
      if DigitsValue(s) == 0 {
        forall i | 0 <= i < |s| ensures s[i] == '0' {
          if i < |s| - 1 { assert s[i] == init[i]; }
        }
      } else {
        assert s[|s| - 1] != '0' || exists i :: 0 <= i < |init| && init[i] != '0';
      }
    }
  }

  /** Rendering the value of a canonical digit string gives that string back. */
  lemma {:induction false} NatToStringOfDigitsValue(s: string)
    requires IsCanonical(s)
    ensures NatToString(DigitsValue(s)) == s
  {
    var init := s[..|s| - 1];
    var d := DigitValue(s[|s| - 1]);
    if |s| == 1 {
      assert DigitsValue(s) == d;
      assert [DigitChar(d)] == s;
    } else {
      assert IsCanonical(init) by { assert init[0] == s[0]; }
      NatToStringOfDigitsValue(init);
      DigitsValueZero(init);
      assert init[0] != '0';
      var v := DigitsValue(init);
      assert v >= 1;
      assert (v * 10 + d) / 10 == v && (v * 10 + d) % 10 == d;
      assert s == init + [s[|s| - 1]];
    }
  }

  /** Parsing a rendered natural number gives that number. */
  lemma ParseNatToString(n: nat)
    ensures ParseInt(NatToString(n)) == Some(n)
  {
    DigitsValueOfNatToString(n);
  }

  /** Parsing a minus sign followed by a rendered natural number gives its negation. */
  lemma ParseNegatedNatToString(n: nat)
    ensures ParseInt("-" + NatToString(n)) == Some(-(n as int))
  {
    var s := "-" + NatToString(n);
    assert s[1..] == NatToString(n);
    assert !IsDigits(s) by { assert !IsDigit(s[0]); }
    DigitsValueOfNatToString(n);
  }

  /** Exactly the integer literals parse. */
  lemma ParseIntDefined(s: string)
    ensures ParseInt(s).Some? <==> IsIntegerLiteral(s)
  {
  }

  /** A literal parses to a negative number exactly when it is a minus sign
      followed by digits that are not all zero. */
  lemma ParseIntNegative(s: string)
    ensures (ParseInt(s).Some? && ParseInt(s).value < 0) <==>
            (|s| > 1 && s[0] == '-' && IsDigits(s[1..]) && exists i :: 1 <= i < |s| && s[i] != '0')
  {
    if |s| > 1 && s[0] == '-' && IsDigits(s[1..]) {
      var t := s[1..];
      assert !IsDigits(s) by { assert !IsDigit(s[0]); }
      DigitsValueZero(t);
      if exists i :: 1 <= i < |s| && s[i] != '0' {
        var i :| 1 <= i < |s| && s[i] != '0';
        assert t[i - 1] == s[i];
      } else {
        forall j | 0 <= j < |t| ensures t[j] == '0' { assert t[j] == s[j + 1]; }
      }
    }
  }
}
