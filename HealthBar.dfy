/**
 * The on-screen health bar: a width written as the health followed by "%",
 * and a fill colour chosen from three tiers.
 */
module HealthBar {
  import opened Options

  datatype Colour = Green | Orange | Red

  /** The CSS colour name the bar is painted with. */
  function CssName(c: Colour): (name: string)
    ensures name == "green" <==> c == Green
    ensures name == "orange" <==> c == Orange
    ensures name == "red" <==> c == Red
  {
    match c
    case Green => "green"
    case Orange => "orange"
    case Red => "red"
  }

  /** The colour tier for a health value. */
  function BarColour(health: int): (c: Colour)
    ensures c == Green <==> health > 50
    ensures c == Orange <==> 20 < health <= 50
    ensures c == Red <==> health <= 20
  {
    if health > 50 then Green
    else if health > 20 then Orange
    else Red
  }

  /** How healthy a colour looks: red 0, orange 1, green 2. */
  function Rank(c: Colour): nat {
    match c
    case Red => 0
    case Orange => 1
    case Green => 2
  }

  /** Losing health never makes the bar look healthier. */
  lemma ColourMonotone(lower: int, higher: int)
    requires lower <= higher
    ensures Rank(BarColour(lower)) <= Rank(BarColour(higher))
  {
  }

  // Decimal notation of integers, as a number is written when it is joined to a string.

  predicate IsDigit(c: char) {
    '0' <= c <= '9'
  }

  predicate AllDigits(s: string) {
    forall i :: 0 <= i < |s| ==> IsDigit(s[i])
  }

  /** A non-empty digit string with no leading zero (except "0" itself). */
  predicate Canonical(s: string) {
    |s| >= 1 && AllDigits(s) && (|s| > 1 ==> s[0] != '0')
  }

  function DigitChar(d: nat): (c: char)
    requires d < 10
    ensures IsDigit(c)
  {
    ('0' as int + d) as char
  }

  function DigitValue(c: char): (d: nat)
    requires IsDigit(c)
    ensures d < 10 && DigitChar(d) == c
  {
    c as int - '0' as int
  }

  /** The decimal digits of a natural number, most significant first. */
  function NatDigits(n: nat): (s: string)
    ensures Canonical(s)
    ensures s[0] == '0' <==> n == 0
  {
    if n < 10 then [DigitChar(n)] else NatDigits(n / 10) + [DigitChar(n % 10)]
  }

  /** The number a digit string denotes. */
  function DigitsValue(s: string): nat
    requires AllDigits(s)
  {
    if s == [] then 0 else 10 * DigitsValue(s[..|s| - 1]) + DigitValue(s[|s| - 1])
  }

  lemma {:induction false} NatDigitsRoundTrip(n: nat)
    ensures DigitsValue(NatDigits(n)) == n
  {
    if n >= 10 {
      var d := NatDigits(n / 10);
      assert NatDigits(n)[..|NatDigits(n)| - 1] == d;
      NatDigitsRoundTrip(n / 10);
    }
  }

  lemma {:induction false} LeadingDigitPositive(s: string)
    requires |s| >= 1 && AllDigits(s) && s[0] != '0'
    ensures DigitsValue(s) >= 1
  {
    if |s| > 1 {
      LeadingDigitPositive(s[..|s| - 1]);
    }
  }

  lemma {:induction false} DigitsRoundTrip(s: string)
    requires Canonical(s)
    ensures NatDigits(DigitsValue(s)) == s
  {
    if |s| > 1 {
      var p := s[..|s| - 1];
      LeadingDigitPositive(p);
      DigitsRoundTrip(p);
      assert s == p + [s[|s| - 1]];
    }
  }

  /** An integer in decimal: a minus sign for negative values, then its digits. */
  function Decimal(n: int): (s: string)
    ensures |s| >= 1
    ensures s[0] == '-' <==> n < 0
  {
    if n < 0 then "-" + NatDigits(-n) else NatDigits(n)
  }

  /** Reads back a string written by Decimal, and nothing else. */
  function ParseDecimal(s: string): (r: Option<int>)
    ensures r.Some? ==> |s| >= 1 && (s[0] == '-' || IsDigit(s[0])) && (r.value < 0 <==> s[0] == '-')
  {
    if |s| >= 2 && s[0] == '-' && Canonical(s[1..]) && s[1] != '0' then
      LeadingDigitPositive(s[1..]);
      Some(0 - DigitsValue(s[1..]))
    else if Canonical(s) then Some(DigitsValue(s) as int)
    else None
  }

  /** The bar's width property for a health value: its decimal notation followed by "%". */
  function Width(health: int): (s: string)
    ensures |s| >= 2 && s[|s| - 1] == '%'
    ensures s[0] == '-' <==> health < 0
  {
    Decimal(health) + "%"
  }

  /** Reads a width property back into the health it was written for. */
  function ParseWidth(s: string): (r: Option<int>)
    ensures r.Some? ==> |s| >= 2 && s[|s| - 1] == '%'
  {
    if |s| >= 1 && s[|s| - 1] == '%' then ParseDecimal(s[..|s| - 1]) else None
  }

  lemma DecimalRoundTrip(n: int)
    ensures ParseDecimal(Decimal(n)) == Some(n)
  {
    if n < 0 {
      var d := NatDigits(-n);
      assert Decimal(n)[1..] == d;
      NatDigitsRoundTrip(-n);
    } else {
      NatDigitsRoundTrip(n);
    }
  }

  /** Every width string reads back to the health it was written for. */
  lemma WidthRoundTrip(health: int)
    ensures ParseWidth(Width(health)) == Some(health)
  {
    var w := Width(health);
    assert w[..|w| - 1] == Decimal(health);
    DecimalRoundTrip(health);
  }

  /** Every string that reads as a width is exactly the one written for that health. */
  lemma ParseWidthExact(s: string, health: int)
    requires ParseWidth(s) == Some(health)
    ensures Width(health) == s
  {
    var body := s[..|s| - 1];
    assert s == body + "%";
    if |body| >= 2 && body[0] == '-' && Canonical(body[1..]) && body[1] != '0' {
      DigitsRoundTrip(body[1..]);
      assert body == "-" + body[1..];
    } else {
      DigitsRoundTrip(body);
    }
  }

  /** What updateHealthBar writes into the bar element. */
  datatype Style = Style(width: string, colour: Colour)

  function BarStyle(health: int): Style {
    Style(Width(health), BarColour(health))
  }

  /** The drawn width reads back as the health, and the colour is the health's tier. */
  lemma BarStyleReadsBack(health: int)
    ensures ParseWidth(BarStyle(health).width) == Some(health)
    ensures BarStyle(health).colour == BarColour(health)
  {
    WidthRoundTrip(health);
  }

  /** Two health values that draw the same bar are the same value. */
  lemma BarStyleInjective(h1: int, h2: int)
    requires BarStyle(h1) == BarStyle(h2)
    ensures h1 == h2
  {
    BarStyleReadsBack(h1);
    BarStyleReadsBack(h2);
  }
}
