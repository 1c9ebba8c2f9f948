/** `formatCurrency`: an amount in cents as a dollar string with two decimals
    and a comma between each group of three integer digits. */
module Currency {
  import opened Wrappers
  import opened Text

  /** The reference reading of the pattern `\d(?=(\d{3})+\.)` on a run of
      integer digits: after each digit followed by a positive multiple of
      three more digits, a comma is inserted. */
  function RegexGroup(s: string): (r: string)
  {
    if s == [] then ""
    else [s[0]] + (if |s| - 1 > 0 && (|s| - 1) % 3 == 0 then "," else "") + RegexGroup(s[1..])
  }

  /** Groups digits in threes from the right. */
  function GroupDigits(s: string): (r: string)
    ensures |s| <= 3 ==> r == s
    decreases |s|
  {
    if |s| <= 3 then s else GroupDigits(s[..|s| - 3]) + "," + s[|s| - 3..]
  }

  lemma {:induction false} RegexGroupShort(s: string)
    requires |s| <= 3
    ensures RegexGroup(s) == s
  {
    if s != [] {
      RegexGroupShort(s[1..]);
      assert s == [s[0]] + s[1..];
    }
  }

  lemma {:induction false} RegexGroupAppend(a: string, b: string)
    requires |a| > 0 && |b| > 0 && |b| % 3 == 0
    ensures RegexGroup(a + b) == RegexGroup(a) + "," + RegexGroup(b)
  {
    var ab := a + b;
    assert ab[0] == a[0];
    assert ab[1..] == a[1..] + b;
    if |a| == 1 {
      assert ab[1..] == b;
      assert RegexGroup(ab) == [a[0]] + "," + RegexGroup(b);
      assert RegexGroup(a) == [a[0]];
    } else {
      var k := |a| - 1;
      var mark := if k % 3 == 0 then "," else "";
      assert (k + |b|) % 3 == k % 3;
      assert RegexGroup(ab) == [a[0]] + mark + RegexGroup(a[1..] + b);
      assert RegexGroup(a) == [a[0]] + mark + RegexGroup(a[1..]);
      RegexGroupAppend(a[1..], b);
    }
  }

  /** Grouping from the right inserts exactly the commas the pattern does. */
  lemma {:induction false} GroupMatchesRegex(s: string)
    ensures GroupDigits(s) == RegexGroup(s)
    decreases |s|
  {
    if |s| <= 3 {
      RegexGroupShort(s);
    } else {
      var p, t := s[..|s| - 3], s[|s| - 3..];
      assert s == p + t;
      GroupMatchesRegex(p);
      RegexGroupShort(t);
      RegexGroupAppend(p, t);
    }
  }

  /** Drops the grouping commas. */
  function Ungroup(s: string): (r: string)
  {
    if s == [] then "" else (if s[0] == ',' then "" else [s[0]]) + Ungroup(s[1..])
  }

  lemma {:induction false} UngroupAppend(a: string, b: string)
    ensures Ungroup(a + b) == Ungroup(a) + Ungroup(b)
  {
    if a != [] {
      assert (a + b)[0] == a[0];
      assert (a + b)[1..] == a[1..] + b;
      UngroupAppend(a[1..], b);
    } else {
      assert a + b == b;
    }
  }

  lemma {:induction false} UngroupDigits(s: string)
    requires AllDigits(s)
    ensures Ungroup(s) == s
  {
    if s != [] {
      UngroupDigits(s[1..]);
      assert s == [s[0]] + s[1..];
    }
  }

  /** Removing the commas gives the digits back. */
  lemma {:induction false} UngroupGroup(s: string)
    requires AllDigits(s)
    ensures Ungroup(GroupDigits(s)) == s
    decreases |s|
  {
    if |s| <= 3 {
      UngroupDigits(s);
    } else {
      var p, t := s[..|s| - 3], s[|s| - 3..];
      assert s == p + t;
      UngroupGroup(p);
      UngroupDigits(t);
      UngroupAppend(GroupDigits(p), ",");
      UngroupAppend(GroupDigits(p) + ",", t);
    }
  }

  function Abs(n: int): nat {
    if n < 0 then -n else n
  }

  /** `'$' + amount.toFixed(2)` with the integer part grouped; a negative
      amount keeps its sign after the dollar sign. */
  function FormatCurrency(cents: int): (s: string)
    ensures |s| >= 5 && s[0] == '$' && s[|s| - 3] == '.'
    ensures AllDigits(s[|s| - 2..]) && DigitsToNat(s[|s| - 2..]) == Abs(cents) % 100
    ensures s[1] == '-' <==> cents < 0
  {
    FixedDigitsRoundTrip(Abs(cents) % 100, 2);
    var s := "$" + (if cents < 0 then "-" else "") + GroupDigits(NatToDigits(Abs(cents) / 100))
             + "." + FixedDigits(Abs(cents) % 100, 2);
    assert s[|s| - 2..] == FixedDigits(Abs(cents) % 100, 2);
    GroupDigitsFirst(NatToDigits(Abs(cents) / 100));
    s
  }

  /** Reads a string of the shape `FormatCurrency` writes. */
  function ParseCurrency(s: string): (r: Option<int>)
  {
    if |s| >= 5 && s[0] == '$' && s[|s| - 3] == '.' && AllDigits(s[|s| - 2..]) then
      ParseSigned(s[1..|s| - 3], s[|s| - 2..])
    else None
  }

  /** The amount in cents that dollar digits and two cent digits spell. */
  function Cents(whole: string, frac: string): int
    requires AllDigits(whole) && AllDigits(frac)
  {
    DigitsToNat(whole) * 100 + DigitsToNat(frac)
  }

  /** A grouped integer part, possibly after a minus sign, and the cents. */
  function ParseSigned(body: string, frac: string): Option<int>
    requires AllDigits(frac)
  {
    if |body| > 0 && body[0] == '-' then
      match ParseUnsigned(body[1..], frac)
      case None => None
      case Some(v) => Some(-v)
    else ParseUnsigned(body, frac)
  }

  function ParseUnsigned(grouped: string, frac: string): Option<int>
    requires AllDigits(frac)
  {
    var digits := Ungroup(grouped);
    if |digits| > 0 && AllDigits(digits) then Some(Cents(digits, frac)) else None
  }

  lemma CurrencySlices(body: string, frac: string)
    requires |frac| == 2 && AllDigits(frac) && |body| > 0
    ensures ParseCurrency("$" + body + "." + frac) == ParseSigned(body, frac)
  {
    var s := "$" + body + "." + frac;
    assert s[0] == '$' && s[|s| - 3] == '.';
    assert s[1..|s| - 3] == body;
    assert s[|s| - 2..] == frac;
  }

  /** The grouped dollars and the cent digits of `a` read back as `a`. */
  lemma ParseUnsignedRoundTrip(a: nat)
    ensures ParseUnsigned(GroupDigits(NatToDigits(a / 100)), FixedDigits(a % 100, 2)) == Some(a)
  {
    var whole := NatToDigits(a / 100);
    NatToDigitsRoundTrip(a / 100);
    FixedDigitsRoundTrip(a % 100, 2);
    UngroupGroup(whole);
    assert Cents(whole, FixedDigits(a % 100, 2)) == a / 100 * 100 + a % 100;
  }

  /** The displayed text determines the amount: formatting then reading
      gives back the cents. */
  lemma FormatCurrencyRoundTrip(cents: int)
    ensures ParseCurrency(FormatCurrency(cents)) == Some(cents)
  {
    if cents < 0 {
      NegativeRoundTrip(cents);
    } else {
      NonNegativeRoundTrip(cents);
    }
  }

  lemma NonNegativeRoundTrip(cents: nat)
    ensures ParseCurrency(FormatCurrency(cents)) == Some(cents)
  {
    var grouped := GroupDigits(NatToDigits(cents / 100));
    var frac := FixedDigits(cents % 100, 2);
    ParseUnsignedRoundTrip(cents);
    GroupDigitsFirst(NatToDigits(cents / 100));
    assert FormatCurrency(cents) == "$" + grouped + "." + frac;
    CurrencySlices(grouped, frac);
  }

  lemma NegativeRoundTrip(cents: int)
    requires cents < 0
    ensures ParseCurrency(FormatCurrency(cents)) == Some(cents)
  {
    var a := -cents;
    assert Abs(cents) == a;
    var grouped := GroupDigits(NatToDigits(a / 100));
    var frac := FixedDigits(a % 100, 2);
    ParseUnsignedRoundTrip(a);
    MinusSign(grouped, frac, a);
    FormatCurrencyParts(cents);
    assert FormatCurrency(cents) == "$" + "-" + grouped + "." + frac;
    assert "$" + "-" + grouped + "." + frac == "$" + ("-" + grouped) + "." + frac;
    CurrencySlices("-" + grouped, frac);
  }

  /** A leading minus sign negates what the rest reads as. */
  lemma MinusSign(grouped: string, frac: string, a: int)
    requires AllDigits(frac) && ParseUnsigned(grouped, frac) == Some(a)
    ensures ParseSigned("-" + grouped, frac) == Some(-a)
  {
    assert ("-" + grouped)[1..] == grouped;
  }

  lemma FormatCurrencyParts(cents: int)
    ensures FormatCurrency(cents) == "$" + (if cents < 0 then "-" else "")
              + GroupDigits(NatToDigits(Abs(cents) / 100)) + "." + FixedDigits(Abs(cents) % 100, 2)
  {
  }

  lemma GroupDigitsFirst(s: string)
    requires |s| > 0 && AllDigits(s)
    ensures |GroupDigits(s)| > 0 && GroupDigits(s)[0] == s[0]
  {
    GroupMatchesRegex(s);
  }
}
