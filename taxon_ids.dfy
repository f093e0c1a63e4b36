/** Decimal text and the check species_to_id makes on the id list that the search returns. */
module TaxonIds {
  import opened Errors

  /** A decimal digit. Only the ASCII digits '0'..'9' are modelled. */
  predicate IsDigit(c: char) {
    '0' <= c <= '9'
  }

  /** str.isdigit: a non-empty string of digits. */
  predicate IsDecimal(s: string) {
    |s| > 0 && AllDigits(s)
  }

  predicate AllDigits(s: string) {
    forall i :: 0 <= i < |s| ==> IsDigit(s[i])
  }

  function DigitValue(c: char): (d: nat)
    requires IsDigit(c)
    ensures d < 10
  {
    (c as int - '0' as int) as nat
  }

  function DigitChar(d: nat): (c: char)
    requires d < 10
    ensures IsDigit(c) && DigitValue(c) == d
  {
    ('0' as int + d) as char
  }

  /** The value of a string of digits, read most significant digit first. */
  function DecimalValue(s: string): (n: nat)
    requires AllDigits(s)
  {
    if |s| == 0 then 0 else DecimalValue(s[..|s| - 1]) * 10 + DigitValue(s[|s| - 1])
  }

  /** The canonical decimal text of a natural number (str of an int). */
  function ShowNat(n: nat): (s: string)
    ensures IsDecimal(s)
  {
    if n < 10 then [DigitChar(n)] else ShowNat(n / 10) + [DigitChar(n % 10)]
  }

  /** Reading back the canonical text gives the number. */
  lemma {:induction false} DecimalValueOfShowNat(n: nat)
    ensures DecimalValue(ShowNat(n)) == n
  {
    if n >= 10 {
      var s := ShowNat(n);
      assert s[..|s| - 1] == ShowNat(n / 10);
      DecimalValueOfShowNat(n / 10);
    }
  }

  /** Leading zeros do not change the value: int("007") is 7. */
  lemma {:induction false} LeadingZero(s: string)
    requires AllDigits(s)
    ensures AllDigits("0" + s) && DecimalValue("0" + s) == DecimalValue(s)
  {
    var t := "0" + s;
    assert AllDigits(t) by {
      assert forall i :: 0 < i < |t| ==> t[i] == s[i - 1];
    }
    if |s| > 0 {
      assert t[..|t| - 1] == "0" + s[..|s| - 1];
      LeadingZero(s[..|s| - 1]);
    }
  }

  /** The text int() accepts: an optional sign followed by digits. */
  predicate IsIntLiteral(s: string) {
    |s| > 0 && if s[0] == '+' || s[0] == '-' then IsDecimal(s[1..]) else IsDecimal(s)
  }

  /** int(s) for text that int() accepts. */
  function IntValue(s: string): (i: int)
    requires IsIntLiteral(s)
  {
    if s[0] == '-' then -(DecimalValue(s[1..]) as int)
    else if s[0] == '+' then DecimalValue(s[1..])
    else DecimalValue(s)
  }

  /** The canonical text of an integer (str of an int). */
  function ShowInt(i: int): (s: string)
    ensures IsIntLiteral(s)
  {
    if i < 0 then "-" + ShowNat(-i) else ShowNat(i)
  }

  /** int(str(i)) == i for every integer. */
  lemma IntValueOfShowInt(i: int)
    ensures IntValue(ShowInt(i)) == i
  {
    if i < 0 {
      assert ShowInt(i)[1..] == ShowNat(-i);
      DecimalValueOfShowNat(-i);
    } else {
      DecimalValueOfShowNat(i);
    }
  }

  /** The checks species_to_id applies to the id list of the search response, in the order the
      source makes them: more than one id, then no id, then an id that is not all digits. */
  function SpeciesToId(idList: seq<string>): (r: Result<nat>)
    ensures r.Ok? <==> |idList| == 1 && IsDecimal(idList[0])
    ensures r.Ok? ==> r.value == DecimalValue(idList[0])
    ensures r.Err? ==> r.error.ValueError?
    ensures |idList| > 1 ==> r == Err(ValueError(TooManyIds(|idList|)))
    ensures |idList| == 0 ==> r == Err(ValueError(EmptyIdList))
    ensures |idList| == 1 && !IsDecimal(idList[0]) ==> r == Err(ValueError(NonDecimalId(idList[0])))
  {
    if |idList| > 1 then Err(ValueError(TooManyIds(|idList|)))
    else if |idList| == 0 then Err(ValueError(EmptyIdList))
    else if !IsDecimal(idList[0]) then Err(ValueError(NonDecimalId(idList[0])))
    else Ok(DecimalValue(idList[0]))
  }

  /** A search that returns exactly the canonical text of an id yields that id. */
  lemma SpeciesToIdOfShowNat(n: nat)
    ensures SpeciesToId([ShowNat(n)]) == Ok(n)
  {
    DecimalValueOfShowNat(n);
  }
}
