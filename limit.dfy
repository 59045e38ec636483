/**
  The request validator of `POST /recognize`: it turns the optional raw
  `limit` query string into a non-negative limit (0 meaning "no limit")
  or into one of two typed 400 errors.
 */
module Limit {
  import opened Wrappers
  import opened Decimal

  /** The two ways a `limit` parameter can be rejected. */
  datatype LimitError =
    | InvalidLimitFormat  // the text is not an integer
    | InvalidLimitValue   // the text is an integer below zero

  const StatusBadRequest: nat := 400

  /** The fixed message each error is reported with. */
  function Message(e: LimitError): string {
    match e
    case InvalidLimitFormat => "Limit format is invalid"
    case InvalidLimitValue => "Limit value is invalid"
  }

  /** Every validation error is a client error, reported as 400. */
  function Status(e: LimitError): nat {
    StatusBadRequest
  }

  /** The validated limit: absent and "0" both give 0, the "no limit" value. */
  function ValidateLimit(raw: Option<string>): Result<nat, LimitError> {
    match raw
    case None => Ok(0)
    case Some(s) =>
      match ParseInt(s)
      case None => Err(InvalidLimitFormat)
      case Some(v) => if v < 0 then Err(InvalidLimitValue) else Ok(v)
  }

  /** The two errors are told apart by their messages, and both are 400. */
  lemma ErrorsDistinct(e1: LimitError, e2: LimitError)
    ensures Status(e1) == 400
    ensures Message(e1) == Message(e2) <==> e1 == e2
  {
  }

  /** The decimal rendering of any natural number `k` is accepted as exactly `k`. */
  lemma ValidateNatural(k: nat)
    ensures ValidateLimit(Some(NatToString(k))) == Ok(k)
  {
    ParseNatToString(k);
  }

  /** A minus sign before a positive number is a value error, not a format error. */
  lemma ValidateNegative(k: nat)
    requires k > 0
    ensures ValidateLimit(Some("-" + NatToString(k))) == Err(InvalidLimitValue)
  {
    ParseNegatedNatToString(k);
  }

  /** Exactly the texts that are not integer literals are format errors. */
  lemma ValidateFormatError(s: string)
    ensures ValidateLimit(Some(s)) == Err(InvalidLimitFormat) <==> !IsIntegerLiteral(s)
  {
    ParseIntDefined(s);
  }

  /** Exactly a minus sign followed by digits that are not all zero is a value error. */
  lemma ValidateValueError(s: string)
    ensures ValidateLimit(Some(s)) == Err(InvalidLimitValue) <==>
            (|s| > 1 && s[0] == '-' && IsDigits(s[1..]) && exists i :: 1 <= i < |s| && s[i] != '0')
  {
    ParseIntNegative(s);
  }

  /** An accepted limit is the number the text denotes, and its canonical
      rendering is itself accepted as the same limit. */
  lemma ValidateAccepted(s: string, k: nat)
    requires ValidateLimit(Some(s)) == Ok(k)
    ensures IsIntegerLiteral(s) && ParseInt(s) == Some(k as int)
    ensures ValidateLimit(Some(NatToString(k))) == Ok(k)
  {
    ParseIntDefined(s);
    ParseNatToString(k);
  }

  /** Any canonical digit string is accepted as the number it renders. */
  lemma ValidateCanonical(s: string)
    requires IsCanonical(s)
    ensures ValidateLimit(Some(s)).Ok? && NatToString(ValidateLimit(Some(s)).value) == s
  {
    NatToStringOfDigitsValue(s);
  }

  /** The cases the endpoint's tests fix. */
  lemma ValidateExamples()
    ensures ValidateLimit(None) == Ok(0)
    ensures ValidateLimit(Some("0")) == Ok(0)
    ensures ValidateLimit(Some("1")) == Ok(1)
    ensures ValidateLimit(Some("-1")) == Err(InvalidLimitValue)
    ensures ValidateLimit(Some("hello")) == Err(InvalidLimitFormat)
  {
    assert NatToString(0) == "0";
    assert NatToString(1) == "1";
    ValidateNatural(0);
    ValidateNatural(1);
    ValidateNegative(1);
    assert "-" + NatToString(1) == "-1";
    assert !IsIntegerLiteral("hello") by { var h := "hello"; assert h[0] == 'h' && !IsDigit(h[0]); }
    ValidateFormatError("hello");
  }
}
