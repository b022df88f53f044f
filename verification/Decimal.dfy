/** The text that `%d`, `%u`, `%lld` and `%llu` give an integer, and the number a server reads back from it. */
module Decimal {
  import opened StringUtils

  predicate IsDigit(c: char) {
    '0' as int <= c as int <= '9' as int
  }

  function DigitChar(d: nat): (c: char)
    requires d < 10
    ensures IsDigit(c) && c as int - '0' as int == d
  {
    ('0' as int + d) as char
  }

  function Natural(n: nat): (s: string)
    ensures s != "" && forall c :: c in s ==> IsDigit(c)
  {
    if n < 10 then [DigitChar(n)] else Natural(n / 10) + [DigitChar(n % 10)]
  }

  function Printed(n: int): (s: string)
    ensures s != "" && forall c :: c in s ==> IsDigit(c) || c == '-'
  {
    if n < 0 then "-" + Natural(-n) else Natural(n)
  }

  /** Digits only, at least one of them. */
  function ParseNatural(s: string): Option<nat>
    decreases |s|
  {
    if s == "" || !IsDigit(s[|s| - 1]) then None
    else
      var low: nat := s[|s| - 1] as int - '0' as int;
      if |s| == 1 then Some(low)
      else
        match ParseNatural(s[..|s| - 1])
        case None => None
        case Some(high) => Some(10 * high + low)
  }

  function Parse(s: string): Option<int> {
    if s != "" && s[0] == '-' then
      match ParseNatural(s[1..])
      case None => None
      case Some(n) =>
        var m: int := n;
        Some(-m)
    else
      match ParseNatural(s)
      case None => None
      case Some(n) => Some(n)
  }

  lemma {:induction false} ParseNaturalPrinted(n: nat)
    ensures ParseNatural(Natural(n)) == Some(n)
  {
    if n >= 10 {
      ParseNaturalPrinted(n / 10);
      assert Natural(n)[..|Natural(n)| - 1] == Natural(n / 10);
    }
  }

  lemma {:induction false} ParseNegative(text: string, n: nat)
    requires ParseNatural(text) == Some(n)
    ensures Parse("-" + text) == Some(-(n as int))
  {
    assert ("-" + text)[1..] == text;
  }

  lemma {:induction false} ParseDigits(text: string, n: nat)
    requires text != "" && IsDigit(text[0]) && ParseNatural(text) == Some(n)
    ensures Parse(text) == Some(n)
  {
  }

  /** Printing loses nothing, for every integer. */
  lemma {:induction false} ParsePrinted(n: int)
    ensures Parse(Printed(n)) == Some(n)
  {
    if n < 0 {
      ParseNaturalPrinted(-n);
      ParseNegative(Natural(-n), -n);
    } else {
      ParseNaturalPrinted(n);
      assert IsDigit(Natural(n)[0]) by {
        assert Natural(n)[0] in Natural(n);
      }
      ParseDigits(Natural(n), n);
    }
  }

  /** No shorter text has this value, and no other one of the same length: there are no leading zeros. */
  lemma {:induction false} NaturalIsShortest(text: string, n: nat)
    requires ParseNatural(text) == Some(n)
    ensures |Natural(n)| <= |text|
    ensures |text| == |Natural(n)| ==> text == Natural(n)
    decreases |text|
  {
    if |text| > 1 {
      var front, low := text[..|text| - 1], text[|text| - 1] as int - '0' as int;
      var high := ParseNatural(front).value;
      NaturalIsShortest(front, high);
      assert n == 10 * high + low && n / 10 == high && n % 10 == low;
      assert text == front + [text[|text| - 1]];
    }
  }

  /** The same for all integers, so the text that is printed is the shortest one that a server reads as n. */
  lemma {:induction false} PrintedIsShortest(text: string, n: int)
    requires Parse(text) == Some(n)
    ensures |Printed(n)| <= |text|
    ensures |text| == |Printed(n)| ==> text == Printed(n)
  {
    if text[0] == '-' {
      NaturalIsShortest(text[1..], -n);
      assert text == "-" + text[1..];
    } else {
      NaturalIsShortest(text, n);
    }
  }
}
