/**
 * Money amounts as they appear on the statement and in the CSV output.
 * Amounts are modelled as whole pence: the statement's amount shape always
 * carries exactly two decimals, so an amount text denotes a whole number of
 * pence and no rounding is involved.
 */
module Amounts {
  import opened Text

  predicate IsAmountChar(c: char) { IsDigit(c) || c == ',' }

  predicate AllAmountChars(s: string) { forall i :: 0 <= i < |s| ==> IsAmountChar(s[i]) }

  /** The text matches `[\d,]+\.\d{2}` in full: digits and commas, a point, two digits. */
  predicate IsAmountText(s: string) {
    |s| >= 4 && AllAmountChars(s[..|s| - 3]) && s[|s| - 3] == '.' && IsDigit(s[|s| - 2]) && IsDigit(s[|s| - 1])
  }

  /**
   * `AMOUNT_PATTERN.match(s)` for the pattern `^[\d,]+\.\d{2}$`: Python's `$`
   * also accepts one newline at the very end.
   */
  predicate MatchesAmountPattern(s: string) {
    IsAmountText(s) || (|s| > 0 && s[|s| - 1] == '\n' && IsAmountText(s[..|s| - 1]))
  }

  /** The number a run of digits and thousands separators denotes; commas are skipped. */
  function GroupedValue(s: string): nat
    requires AllAmountChars(s)
  {
    if s == [] then 0
    else if s[|s| - 1] == ',' then GroupedValue(s[..|s| - 1])
    else GroupedValue(s[..|s| - 1]) * 10 + DigitValue(s[|s| - 1])
  }

  /** The value of a run of digits and commas is that of its digits with the commas removed (`replace(',', '')`). */
  lemma {:induction false} GroupedValueIsRemove(s: string)
    requires AllAmountChars(s)
    ensures AllDigits(Remove(s, ',')) && GroupedValue(s) == Value(Remove(s, ','))
  {
    if s != [] {
      var init, c := s[..|s| - 1], s[|s| - 1];
      GroupedValueIsRemove(init);
      if c != ',' {
        ValueSnoc(Remove(init, ','), c);
      }
    }
  }

  /**
   * `parse_amount` on any amount-shaped text, canonical or not: the digits
   * before the point with the commas removed are the pounds, the two digits
   * after it the pence.
   */
  lemma ParseAmountMeans(s: string)
    requires IsAmountText(s)
    ensures AllDigits(Remove(s[..|s| - 3], ',')) && AllDigits(s[|s| - 2..])
    ensures ParseAmount(s) == Value(Remove(s[..|s| - 3], ',')) * 100 + Value(s[|s| - 2..])
  {
    GroupedValueIsRemove(s[..|s| - 3]);
    var d := s[|s| - 2..];
    ValueSnoc([], d[0]);
    ValueSnoc([d[0]], d[1]);
    assert [d[0]] + [d[1]] == d;
  }

  /**
   * `parse_amount` on an amount-shaped text: commas removed, surrounding
   * whitespace stripped, the decimal read as pence.
   */
  function ParseAmount(s: string): nat
    requires MatchesAmountPattern(s)
  {
    var t := if IsAmountText(s) then s else s[..|s| - 1];
    GroupedValue(t[..|t| - 3]) * 100 + DigitValue(t[|t| - 2]) * 10 + DigitValue(t[|t| - 1])
  }

  /** The shape of `f'{amount:.2f}'`: a numeral without leading zeros, a point, two digits. */
  predicate IsPlainAmount(s: string) {
    |s| >= 4 && IsNumeral(s[..|s| - 3]) && s[|s| - 3] == '.' && IsDigit(s[|s| - 2]) && IsDigit(s[|s| - 1])
  }

  /** `f'{amount:.2f}'` for an amount of `pence` pence. */
  function FormatPlain(pence: nat): (r: string)
    ensures IsPlainAmount(r)
  {
    var w, d := NatToString(pence / 100), Pad2(pence % 100);
    var r := w + "." + d;
    assert r[..|r| - 3] == w && r[|r| - 2] == d[0] && r[|r| - 1] == d[1];
    r
  }

  /** Decimal notation with a comma between groups of three digits (`f'{n:,}'`). */
  function Grouped(n: nat): string
    decreases n
  {
    if n < 1000 then NatToString(n) else Grouped(n / 1000) + "," + Pad3(n % 1000)
  }

  /**
   * Digits in groups of three separated by commas, the leading group a
   * numeral of one to three digits other than `0`: the shape of `f'{n:,}'`.
   */
  predicate WellGrouped(s: string)
    decreases |s|
  {
    if |s| <= 3 then IsNumeral(s)
    else
      && |s| >= 5 && s[|s| - 4] == ',' && AllDigits(s[|s| - 3..])
      && s[..|s| - 4] != "0" && WellGrouped(s[..|s| - 4])
  }

  /** The shape of `f'{amount:,.2f}'`: a thousands-grouped numeral, a point, two digits. */
  predicate IsGroupedAmount(s: string) {
    |s| >= 4 && WellGrouped(s[..|s| - 3]) && s[|s| - 3] == '.' && IsDigit(s[|s| - 2]) && IsDigit(s[|s| - 1])
  }

  /** `f'{amount:,.2f}'` for an amount of `pence` pence. */
  function FormatGrouped(pence: nat): (r: string)
    ensures IsGroupedAmount(r)
  {
    var w, d := Grouped(pence / 100), Pad2(pence % 100);
    GroupedIsWellGrouped(pence / 100);
    var r := w + "." + d;
    assert r[..|r| - 3] == w && r[|r| - 2] == d[0] && r[|r| - 1] == d[1];
    r
  }

  lemma ShortNumeral(n: nat)
    requires n < 1000
    ensures |NatToString(n)| <= 3
  {
    if n >= 10 {
      assert |NatToString(n / 10)| <= 2 by {
        if n / 10 >= 10 {
          assert |NatToString(n / 100)| == 1;
        }
      }
    }
  }

  /** `Grouped` produces the thousands-separated shape. */
  lemma {:induction false} GroupedIsWellGrouped(n: nat)
    ensures WellGrouped(Grouped(n))
    decreases n
  {
    if n < 1000 {
      ShortNumeral(n);
    } else {
      GroupedIsWellGrouped(n / 1000);
      var g, t := Grouped(n / 1000), Pad3(n % 1000);
      assert g != "0" by {
        GroupedRoundTrip(n / 1000);
        assert GroupedValue("0") == 0;
      }
      var s := g + "," + t;
      assert s[|s| - 3..] == t;
      assert s[..|s| - 4] == g;
    }
  }

  /** Every thousands-grouped numeral is the one `Grouped` writes for its value. */
  lemma {:induction false} GroupedUnique(s: string)
    requires WellGrouped(s)
    ensures AllAmountChars(s) && Grouped(GroupedValue(s)) == s
    decreases |s|
  {
    if |s| <= 3 {
      GroupedValueOfDigits(s);
      ValueBelow1000(s);
      NumeralIsNatToString(s);
    } else {
      var g, t := s[..|s| - 4], s[|s| - 3..];
      assert s == g + "," + t;
      GroupedUnique(g);
      GroupedValueAppendGroup(g, t);
      ValueBelow1000(t);
      var m := GroupedValue(g);
      assert Grouped(0) == "0";
      assert m >= 1;
      var n := GroupedValue(s);
      assert n / 1000 == m && n % 1000 == Value(t);
      DigitsDetermined(Pad3(Value(t)), t);
      assert Grouped(n) == Grouped(m) + "," + Pad3(Value(t));
    }
  }

  /** The two decimals behind the point: `Pad2` writes exactly them back. */
  lemma CentsDetermined(s: string)
    requires |s| >= 3 && IsDigit(s[|s| - 2]) && IsDigit(s[|s| - 1])
    ensures AllDigits(s[|s| - 2..]) && Value(s[|s| - 2..]) < 100 && Pad2(Value(s[|s| - 2..])) == s[|s| - 2..]
  {
    var d := s[|s| - 2..];
    ValueShort(d);
    DigitsDetermined(Pad2(Value(d)), d);
  }

  /** Every text of the `.2f` shape is the formatting of the amount it parses to. */
  lemma PlainAmountUnique(s: string)
    requires IsPlainAmount(s)
    ensures MatchesAmountPattern(s) && FormatPlain(ParseAmount(s)) == s
  {
    var w, d := s[..|s| - 3], s[|s| - 2..];
    CentsDetermined(s);
    GroupedValueOfDigits(w);
    assert s == w + "." + Pad2(Value(d));
    ParseDecimal(w, Value(d));
    var p := ParseAmount(s);
    assert p / 100 == Value(w) && p % 100 == Value(d);
    NumeralIsNatToString(w);
  }

  /** Every text of the `,.2f` shape is the formatting of the amount it parses to. */
  lemma GroupedAmountUnique(s: string)
    requires IsGroupedAmount(s)
    ensures MatchesAmountPattern(s) && FormatGrouped(ParseAmount(s)) == s
  {
    var w, d := s[..|s| - 3], s[|s| - 2..];
    CentsDetermined(s);
    GroupedUnique(w);
    assert s == w + "." + Pad2(Value(d));
    ParseDecimal(w, Value(d));
    var p := ParseAmount(s);
    assert p / 100 == GroupedValue(w) && p % 100 == Value(d);
  }

  lemma GroupedValueSnoc(s: string, c: char)
    requires AllAmountChars(s) && IsAmountChar(c)
    ensures AllAmountChars(s + [c])
    ensures GroupedValue(s + [c]) == if c == ',' then GroupedValue(s) else GroupedValue(s) * 10 + DigitValue(c)
  {
    assert (s + [c])[..|s|] == s;
  }

  /** Without separators, a run of digits has its ordinary value. */
  lemma {:induction false} GroupedValueOfDigits(s: string)
    requires AllDigits(s)
    ensures AllAmountChars(s) && GroupedValue(s) == Value(s)
  {
    if s != [] {
      var p := s[..|s| - 1];
      GroupedValueOfDigits(p);
      GroupedValueSnoc(p, s[|s| - 1]);
      assert p + [s[|s| - 1]] == s;
    }
  }

  lemma GroupedValueAppendGroup(g: string, t: string)
    requires AllAmountChars(g) && |t| == 3 && AllDigits(t)
    ensures AllAmountChars(g + "," + t)
    ensures GroupedValue(g + "," + t) == GroupedValue(g) * 1000 + Value(t)
  {
    var a := g + [','];
    var b := a + [t[0]];
    var c := b + [t[1]];
    GroupedValueSnoc(g, ',');
    GroupedValueSnoc(a, t[0]);
    GroupedValueSnoc(b, t[1]);
    GroupedValueSnoc(c, t[2]);
    assert c + [t[2]] == g + "," + t;
    ThreeDigitValue(t);
  }

  lemma ThreeDigitValue(t: string)
    requires |t| == 3 && AllDigits(t)
    ensures Value(t) == (DigitValue(t[0]) * 10 + DigitValue(t[1])) * 10 + DigitValue(t[2])
  {
    ValueSnoc([], t[0]);
    ValueSnoc([t[0]], t[1]);
    ValueSnoc([t[0], t[1]], t[2]);
    assert [t[0]] + [t[1]] == [t[0], t[1]];
    assert [t[0], t[1]] + [t[2]] == t;
  }

  /** Reading back the grouped notation gives the number. */
  lemma {:induction false} GroupedRoundTrip(n: nat)
    ensures AllAmountChars(Grouped(n)) && |Grouped(n)| > 0
    ensures GroupedValue(Grouped(n)) == n
    decreases n
  {
    if n < 1000 {
      GroupedValueOfDigits(NatToString(n));
    } else {
      GroupedRoundTrip(n / 1000);
      GroupedValueAppendGroup(Grouped(n / 1000), Pad3(n % 1000));
    }
  }

  lemma ParseDecimal(whole: string, cents: nat)
    requires AllAmountChars(whole) && |whole| > 0 && cents < 100
    ensures IsAmountText(whole + "." + Pad2(cents))
    ensures ParseAmount(whole + "." + Pad2(cents)) == GroupedValue(whole) * 100 + cents
  {
    var s := whole + "." + Pad2(cents);
    assert s[..|s| - 3] == whole;
    var d := Pad2(cents);
    assert s[|s| - 2] == d[0] && s[|s| - 1] == d[1];
    assert d[..1] == [d[0]] && d[..1][..0] == [];
  }

  /** `parse_amount` inverts the two-decimal formatting used in CSV rows. */
  lemma FormatPlainRoundTrip(pence: nat)
    ensures IsAmountText(FormatPlain(pence)) && MatchesAmountPattern(FormatPlain(pence))
    ensures ParseAmount(FormatPlain(pence)) == pence
  {
    GroupedValueOfDigits(NatToString(pence / 100));
    ParseDecimal(NatToString(pence / 100), pence % 100);
  }

  /** `parse_amount` inverts the grouped two-decimal formatting. */
  lemma FormatGroupedRoundTrip(pence: nat)
    ensures IsAmountText(FormatGrouped(pence)) && MatchesAmountPattern(FormatGrouped(pence))
    ensures ParseAmount(FormatGrouped(pence)) == pence
  {
    GroupedRoundTrip(pence / 100);
    ParseDecimal(Grouped(pence / 100), pence % 100);
  }
}
