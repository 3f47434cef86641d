/**
 * `extract_summary` and `validate_transactions`: the account summary read
 * from the statement text by four label searches, and the check of the
 * extracted transactions against it.
 *
 * Each label search is `re.search` with `re.IGNORECASE` for a pattern of the
 * form `First(s?)\s*Second\s*[£]?([\d,]+\.\d{2})`. Every optional or repeated
 * part of these patterns is followed by something it cannot match itself
 * (whitespace before a letter, `£` before a digit, a digit run before `.`),
 * so at a given start position the backtracking matcher has exactly one way
 * to succeed: the greedy one. `MatchAt` is that greedy match and `Search`
 * returns the match at the leftmost position where one exists.
 */
module Summary {
  import opened Wrappers
  import opened Text
  import opened Amounts
  import opened Records

  datatype Field = OpeningBalance | ClosingBalance | PaymentsIn | PaymentsOut

  const AllFields: seq<Field> := [OpeningBalance, ClosingBalance, PaymentsIn, PaymentsOut]

  lemma InAllFields(f: Field)
    ensures f in AllFields
  {
    match f
    case OpeningBalance => assert AllFields[0] == f;
    case ClosingBalance => assert AllFields[1] == f;
    case PaymentsIn => assert AllFields[2] == f;
    case PaymentsOut => assert AllFields[3] == f;
  }

  /** The first word of a label, lower case. */
  function FirstWord(f: Field): string
  {
    match f
    case OpeningBalance => "opening"
    case ClosingBalance => "closing"
    case PaymentsIn => "payment"
    case PaymentsOut => "payment"
  }

  /** Whether the first word may carry a plural `s` (`Payments?`). */
  predicate MayBePlural(f: Field) { f == PaymentsIn || f == PaymentsOut }

  /** The second word of a label, lower case. */
  function SecondWord(f: Field): string
  {
    match f
    case OpeningBalance => "balance"
    case ClosingBalance => "balance"
    case PaymentsIn => "in"
    case PaymentsOut => "out"
  }

  /** `w` (lower case) occurs at `i`, compared without regard to case. */
  predicate WordAt(text: string, i: nat, w: string)
    ensures WordAt(text, i, w) ==> i + |w| <= |text|
    decreases |w|
  {
    if |w| == 0 then i <= |text| else i < |text| && LowerChar(text[i]) == w[0] && WordAt(text, i + 1, w[1..])
  }

  /** `WordAt` compares the text at `i`, lower-cased, with the word. */
  lemma {:induction false} WordAtMeans(text: string, i: nat, w: string)
    ensures WordAt(text, i, w) <==> i + |w| <= |text| && Lower(text[i..i + |w|]) == w
    decreases |w|
  {
    if |w| > 0 && i < |text| {
      WordAtMeans(text, i + 1, w[1..]);
      if i + |w| <= |text| {
        var s, rest := text[i..i + |w|], text[i + 1..i + |w|];
        assert s == [text[i]] + rest;
        LowerCons(text[i], rest);
        assert w == [w[0]] + w[1..];
        ConsEquals(LowerChar(text[i]), Lower(rest), w[0], w[1..]);
      }
    }
  }

  lemma LowerCons(c: char, r: string)
    ensures Lower([c] + r) == [LowerChar(c)] + Lower(r)
  {
  }

  lemma ConsEquals<T>(a: T, x: seq<T>, b: T, y: seq<T>)
    ensures [a] + x == [b] + y <==> a == b && x == y
  {
    if [a] + x == [b] + y {
      assert ([a] + x)[0] == a && ([a] + x)[1..] == x;
      assert ([b] + y)[0] == b && ([b] + y)[1..] == y;
    }
  }

  /** The end of the run of whitespace starting at `i` (`\s*`, greedy). */
  function SkipSpaces(text: string, i: nat): (j: nat)
    requires i <= |text|
    ensures i <= j <= |text|
    ensures j == |text| || !IsSpace(text[j])
    decreases |text| - i
  {
    if i < |text| && IsSpace(text[i]) then SkipSpaces(text, i + 1) else i
  }

  /** The end of the run of digits and commas starting at `i` (`[\d,]*`, greedy). */
  function RunEnd(text: string, i: nat): (j: nat)
    requires i <= |text|
    ensures i <= j <= |text|
    ensures j == |text| || !IsAmountChar(text[j])
    decreases |text| - i
  {
    if i < |text| && IsAmountChar(text[i]) then RunEnd(text, i + 1) else i
  }

  lemma {:induction false} RunEndAmountChars(text: string, i: nat)
    requires i <= |text|
    ensures AllAmountChars(text[i..RunEnd(text, i)])
    decreases |text| - i
  {
    if i < |text| && IsAmountChar(text[i]) {
      RunEndAmountChars(text, i + 1);
      assert text[i..RunEnd(text, i)] == [text[i]] + text[i + 1..RunEnd(text, i + 1)];
    }
  }

  /** After the label, at `j`: an optional `£`, then the amount group `[\d,]+\.\d{2}`. */
  function AmountAfter(text: string, j: nat): Option<string>
    requires j <= |text|
  {
    var start := if j < |text| && text[j] == '£' then j + 1 else j;
    var end := RunEnd(text, start);
    if start < end && end + 3 <= |text| && text[end] == '.' && IsDigit(text[end + 1]) && IsDigit(text[end + 2])
    then Some(text[start..end + 3])
    else None
  }

  /** The captured group is amount-shaped and occurs in the text at or after `j`. */
  lemma AmountAfterShape(text: string, j: nat)
    requires j <= |text|
    ensures AmountAfter(text, j).Some? ==>
      IsAmountText(AmountAfter(text, j).value) && exists k :: j <= k && OccursAt(text, AmountAfter(text, j).value, k)
  {
    var start := if j < |text| && text[j] == '£' then j + 1 else j;
    var end := RunEnd(text, start);
    if start < end && end + 3 <= |text| && text[end] == '.' && IsDigit(text[end + 1]) && IsDigit(text[end + 2]) {
      RunEndAmountChars(text, start);
      var g := text[start..end + 3];
      var n := end - start;
      assert |g| == n + 3;
      forall k | 0 <= k < n
        ensures g[..n][k] == text[start..end][k]
      {
        assert g[k] == text[start + k];
      }
      assert g[..n] == text[start..end];
      assert g[n] == '.' && IsDigit(g[n + 1]) && IsDigit(g[n + 2]);
      assert IsAmountText(g);
      assert OccursAt(text, g, start);
    }
  }

  /**
   * The label of `f` at `i`: its first word (with an optional plural `s`
   * where allowed), whitespace, its second word and whitespace; the position
   * after it when it is there.
   */
  function LabelEnd(text: string, i: nat, f: Field): (r: Option<nat>)
    requires i <= |text|
    ensures r.Some? ==> i < r.value <= |text| && WordAt(text, i, FirstWord(f))
  {
    var w1 := FirstWord(f);
    if !WordAt(text, i, w1) then None
    else
      var j := i + |w1|;
      var j := if MayBePlural(f) && j < |text| && LowerChar(text[j]) == 's' then j + 1 else j;
      var j := SkipSpaces(text, j);
      var w2 := SecondWord(f);
      if !WordAt(text, j, w2) then None
      else Some(SkipSpaces(text, j + |w2|))
  }

  /** The amount group of the label pattern of `f` matched at position `i`, if it matches there. */
  function MatchAt(text: string, i: nat, f: Field): Option<string>
    requires i <= |text|
  {
    match LabelEnd(text, i, f)
    case None => None
    case Some(j) => AmountAfter(text, j)
  }

  /**
   * A match starts with the label's first word and captures an amount-shaped
   * group that occurs in the text after it.
   */
  lemma MatchAtShape(text: string, i: nat, f: Field)
    requires i <= |text|
    ensures MatchAt(text, i, f).Some? ==>
      && WordAt(text, i, FirstWord(f))
      && IsAmountText(MatchAt(text, i, f).value)
      && exists k :: i < k && OccursAt(text, MatchAt(text, i, f).value, k)
  {
    var e := LabelEnd(text, i, f);
    if e.Some? {
      AmountAfterShape(text, e.value);
    }
  }

  /** The pattern of `f` matches at position `i`. */
  predicate MatchesAt(text: string, i: nat, f: Field)
    requires i <= |text|
  {
    MatchAt(text, i, f).Some?
  }

  /** The pattern of `f` matches at none of the positions `i` up to but excluding `j`. */
  predicate NoMatchBetween(text: string, f: Field, i: nat, j: nat)
    requires j <= |text| + 1
    decreases j - i
  {
    i >= j || (i <= |text| && !MatchesAt(text, i, f) && NoMatchBetween(text, f, i + 1, j))
  }

  /** `re.search` from position `i`: the leftmost position where the pattern matches. */
  function Search(text: string, f: Field, i: nat): (r: Option<nat>)
    requires i <= |text|
    ensures r.None? ==> NoMatchBetween(text, f, i, |text| + 1)
    ensures r.Some? ==> i <= r.value <= |text| && MatchesAt(text, r.value, f) && NoMatchBetween(text, f, i, r.value)
    decreases |text| - i
  {
    if MatchesAt(text, i, f) then Some(i)
    else if i == |text| then None
    else Search(text, f, i + 1)
  }

  lemma {:induction false} NoMatchBetweenMeans(text: string, f: Field, i: nat, j: nat)
    requires j <= |text| + 1
    ensures NoMatchBetween(text, f, i, j) <==> forall k :: i <= k < j ==> !MatchesAt(text, k, f)
    decreases j - i
  {
    if i < j {
      NoMatchBetweenMeans(text, f, i + 1, j);
      assert NoMatchBetween(text, f, i, j) <==> !MatchesAt(text, i, f) && NoMatchBetween(text, f, i + 1, j);
      if NoMatchBetween(text, f, i, j) {
        forall k | i <= k < j
          ensures !MatchesAt(text, k, f)
        {
          if k > i {
            assert i + 1 <= k < j;
          }
        }
      } else if !MatchesAt(text, i, f) {
        var k :| i + 1 <= k < j && MatchesAt(text, k, f);
        assert i <= k < j;
      }
    }
  }

  /**
   * `re.search` semantics: the search fails exactly when the pattern matches
   * at no position, and otherwise finds the leftmost position where it does.
   */
  lemma SearchLeftmost(text: string, f: Field)
    ensures Search(text, f, 0).None? <==> forall k :: 0 <= k <= |text| ==> !MatchesAt(text, k, f)
    ensures Search(text, f, 0).Some? ==>
      var j := Search(text, f, 0).value;
      j <= |text| && MatchesAt(text, j, f) && forall k :: 0 <= k < j ==> !MatchesAt(text, k, f)
  {
    if Search(text, f, 0).Some? {
      SearchFoundLeftmost(text, f);
    } else {
      SearchMissedEverywhere(text, f);
    }
  }

  lemma SearchFoundLeftmost(text: string, f: Field)
    requires Search(text, f, 0).Some?
    ensures var j := Search(text, f, 0).value;
      j <= |text| && MatchesAt(text, j, f) && forall k :: 0 <= k < j ==> !MatchesAt(text, k, f)
  {
    NoMatchBetweenMeans(text, f, 0, Search(text, f, 0).value);
  }

  lemma SearchMissedEverywhere(text: string, f: Field)
    requires Search(text, f, 0).None?
    ensures forall k :: 0 <= k <= |text| ==> !MatchesAt(text, k, f)
  {
    NoMatchBetweenMeans(text, f, 0, |text| + 1);
  }

  /** `match.group(1)` of the search for the label of `f`, if it is found. */
  function Find(text: string, f: Field): (r: Option<string>)
    ensures r.Some? ==> IsAmountText(r.value)
  {
    match Search(text, f, 0)
    case None => None
    case Some(j) => MatchAtShape(text, j, f); MatchAt(text, j, f)
  }

  /** The labels whose search succeeds. */
  function Matched(text: string): set<Field>
  {
    set f | f in AllFields && Find(text, f).Some?
  }

  /** `summary.get(key, 0)`: the parsed amount of a label found, 0 for one not found. */
  function FoundAmount(text: string, f: Field): (r: nat)
    ensures Find(text, f).None? ==> r == 0
    ensures Find(text, f).Some? ==> r == ParseAmount(Find(text, f).value)
  {
    match Find(text, f)
    case None => 0
    case Some(g) => ParseAmount(g)
  }

  function FieldOf(s: StatementSummary, f: Field): nat
  {
    match f
    case OpeningBalance => s.openingBalance
    case ClosingBalance => s.closingBalance
    case PaymentsIn => s.paymentsIn
    case PaymentsOut => s.paymentsOut
  }

  /**
   * `extract_summary`: a summary exactly when at least two of the four labels
   * are found; a label not found gives 0, a label found gives its amount.
   */
  function SummaryOf(text: string): (r: Option<StatementSummary>)
    ensures r.Some? <==> |Matched(text)| >= 2
    ensures r.Some? ==> forall f :: FieldOf(r.value, f) == FoundAmount(text, f)
  {
    if |Matched(text)| >= 2 then
      var s := StatementSummary(
        FoundAmount(text, OpeningBalance), FoundAmount(text, ClosingBalance),
        FoundAmount(text, PaymentsIn), FoundAmount(text, PaymentsOut));
      assert forall f :: FieldOf(s, f) == FoundAmount(text, f) by {
        forall f ensures FieldOf(s, f) == FoundAmount(text, f) {
          if f == OpeningBalance {
          } else if f == ClosingBalance {
          } else if f == PaymentsIn {
          } else {
            assert f == PaymentsOut;
          }
        }
      }
      Some(s)
    else None
  }

  /** The dictionary `extract_summary` fills after searching for the labels of `fs`, in order. */
  function Collected(text: string, fs: seq<Field>): map<Field, nat>
  {
    if fs == [] then map[]
    else
      var m := Collected(text, fs[..|fs| - 1]);
      var f := fs[|fs| - 1];
      if Search(text, f, 0).Some? then m[f := FoundAmount(text, f)] else m
  }

  lemma CollectedSnoc(text: string, init: seq<Field>, f: Field)
    ensures Collected(text, init + [f])
      == if Search(text, f, 0).Some? then Collected(text, init)[f := FoundAmount(text, f)] else Collected(text, init)
  {
    assert (init + [f])[..|init|] == init;
  }

  /** The dictionary holds exactly the labels found, each with its amount. */
  lemma {:induction false} CollectedMeans(text: string, fs: seq<Field>)
    ensures forall f :: f in Collected(text, fs) <==> f in fs && Find(text, f).Some?
    ensures forall f :: f in Collected(text, fs) ==> Collected(text, fs)[f] == FoundAmount(text, f)
  {
    if fs != [] {
      var init := fs[..|fs| - 1];
      CollectedMeans(text, init);
      assert fs == init + [fs[|fs| - 1]];
      CollectedSnoc(text, init, fs[|fs| - 1]);
    }
  }

  /** `summary.get(f, 0)`. */
  function Get(m: map<Field, nat>, f: Field): nat
  {
    if f in m then m[f] else 0
  }

  /** Building the summary from the filled dictionary gives `SummaryOf`. */
  lemma CollectedSummary(text: string)
    ensures var m := Collected(text, AllFields);
      && (|m| >= 2 ==>
            SummaryOf(text) == Some(StatementSummary(Get(m, OpeningBalance), Get(m, ClosingBalance),
                                                     Get(m, PaymentsIn), Get(m, PaymentsOut))))
      && (|m| < 2 ==> SummaryOf(text) == None)
  {
    var m := Collected(text, AllFields);
    CollectedMeans(text, AllFields);
    assert m.Keys == Matched(text) by {
      forall f ensures f in m.Keys <==> f in Matched(text) {
        InAllFields(f);
      }
    }
    assert |m| == |Matched(text)|;
    forall f ensures Get(m, f) == FoundAmount(text, f) {
      InAllFields(f);
    }
  }

  /** `extract_summary` as the parser runs it: a dictionary filled label by label. */
  method ExtractSummary(text: string) returns (r: Option<StatementSummary>)
    ensures r == SummaryOf(text)
  {
    var summary := CollectAll(text, AllFields);
    CollectedSummary(text);
    if |summary| >= 2 {
      r := Some(StatementSummary(Get(summary, OpeningBalance), Get(summary, ClosingBalance),
                                 Get(summary, PaymentsIn), Get(summary, PaymentsOut)));
    } else {
      r := None;
    }
  }

  /** The loop over the patterns of the labels `fs`, filling the dictionary. */
  method CollectAll(text: string, fs: seq<Field>) returns (summary: map<Field, nat>)
    ensures summary == Collected(text, fs)
  {
    summary := map[];
    var i := 0;
    while i < |fs|
      invariant 0 <= i <= |fs|
      invariant summary == Collected(text, fs[..i])
    {
      var f := fs[i];
      if Search(text, f, 0).Some? {
        summary := summary[f := FoundAmount(text, f)];
      }
      assert fs[..i + 1] == fs[..i] + [f];
      CollectedSnoc(text, fs[..i], f);
      i := i + 1;
    }
    assert fs[..i] == fs;
  }

  /** `sum(t.paid_in or 0 for t in transactions)`. */
  function TotalIn(txs: seq<Transaction>): nat
  {
    if txs == [] then 0
    else TotalIn(txs[..|txs| - 1]) + (if txs[|txs| - 1].paidIn.Some? then txs[|txs| - 1].paidIn.value else 0)
  }

  /** `sum(t.paid_out or 0 for t in transactions)`. */
  function TotalOut(txs: seq<Transaction>): nat
  {
    if txs == [] then 0
    else TotalOut(txs[..|txs| - 1]) + (if txs[|txs| - 1].paidOut.Some? then txs[|txs| - 1].paidOut.value else 0)
  }

  /** The totals add up over consecutive parts of the list. */
  lemma {:induction false} TotalsAppend(a: seq<Transaction>, b: seq<Transaction>)
    ensures TotalIn(a + b) == TotalIn(a) + TotalIn(b)
    ensures TotalOut(a + b) == TotalOut(a) + TotalOut(b)
  {
    if b == [] {
      assert a + b == a;
    } else {
      var init := b[..|b| - 1];
      TotalsAppend(a, init);
      assert (a + b)[..|a + b| - 1] == a + init;
    }
  }

  /** A transaction adds its paid-in amount to `TotalIn` and its paid-out amount to `TotalOut`, absent ones as 0. */
  lemma TotalsOfOne(t: Transaction)
    ensures TotalIn([t]) == (if t.paidIn.Some? then t.paidIn.value else 0)
    ensures TotalOut([t]) == (if t.paidOut.Some? then t.paidOut.value else 0)
  {
    assert [t][..0] == [];
  }

  function Abs(x: int): nat { if x < 0 then -x else x }

  /** The rounding allowance of 0.02, in pence. */
  const Tolerance: nat := 2

  /** The three checks of `validate_transactions`; each holds when the difference is within the allowance. */
  predicate InWithin(txs: seq<Transaction>, s: StatementSummary) { Abs(TotalIn(txs) - s.paymentsIn) <= Tolerance }

  predicate OutWithin(txs: seq<Transaction>, s: StatementSummary) { Abs(TotalOut(txs) - s.paymentsOut) <= Tolerance }

  predicate BalanceWithin(txs: seq<Transaction>, s: StatementSummary) {
    Abs(s.openingBalance + TotalIn(txs) - TotalOut(txs) - s.closingBalance) <= Tolerance
  }

  /**
   * `validate_transactions`: an empty list is invalid with one message; a
   * missing summary is valid with one message; otherwise one message per
   * failed check, in order, and valid exactly when there is none.
   */
  function Validate(txs: seq<Transaction>, summary: Option<StatementSummary>): (r: (bool, seq<Message>))
    ensures txs == [] ==> r == (false, [NoTransactions])
    ensures txs != [] && summary.None? ==> r == (true, [NoSummary])
    ensures txs != [] && summary.Some? ==>
      && (r.0 <==> r.1 == [])
      && (r.0 <==> InWithin(txs, summary.value) && OutWithin(txs, summary.value) && BalanceWithin(txs, summary.value))
      && (PaymentsInMismatch(TotalIn(txs), summary.value.paymentsIn) in r.1 <==> !InWithin(txs, summary.value))
      && (PaymentsOutMismatch(TotalOut(txs), summary.value.paymentsOut) in r.1 <==> !OutWithin(txs, summary.value))
      && (var s := summary.value;
          BalanceMismatch(s.openingBalance, TotalIn(txs), TotalOut(txs), s.openingBalance + TotalIn(txs) - TotalOut(txs),
                          s.closingBalance) in r.1
          <==> !BalanceWithin(txs, s))
      && |r.1| == (if InWithin(txs, summary.value) then 0 else 1) + (if OutWithin(txs, summary.value) then 0 else 1)
                  + (if BalanceWithin(txs, summary.value) then 0 else 1)
      && (!InWithin(txs, summary.value) ==> r.1[0] == PaymentsInMismatch(TotalIn(txs), summary.value.paymentsIn))
      && (var s := summary.value;
          !BalanceWithin(txs, s) ==>
            r.1[|r.1| - 1]
            == BalanceMismatch(s.openingBalance, TotalIn(txs), TotalOut(txs), s.openingBalance + TotalIn(txs) - TotalOut(txs),
                               s.closingBalance))
  {
    if txs == [] then (false, [NoTransactions])
    else if summary.None? then (true, [NoSummary])
    else
      var s := summary.value;
      var totalIn := TotalIn(txs);
      var totalOut := TotalOut(txs);
      var expectedClosing := s.openingBalance + totalIn - totalOut;
      var errors :=
        (if !InWithin(txs, s) then [PaymentsInMismatch(totalIn, s.paymentsIn)] else [])
        + (if !OutWithin(txs, s) then [PaymentsOutMismatch(totalOut, s.paymentsOut)] else [])
        + (if !BalanceWithin(txs, s)
           then [BalanceMismatch(s.openingBalance, totalIn, totalOut, expectedClosing, s.closingBalance)]
           else []);
      (errors == [], errors)
  }

  /** `validate_transactions` as the parser runs it, appending to its error list. */
  method ValidateTransactions(txs: seq<Transaction>, summary: Option<StatementSummary>)
    returns (valid: bool, errors: seq<Message>)
    ensures (valid, errors) == Validate(txs, summary)
  {
    errors := [];
    if txs == [] {
      errors := errors + [NoTransactions];
      assert errors == [NoTransactions];
      return false, errors;
    }
    if summary.None? {
      errors := errors + [NoSummary];
      assert errors == [NoSummary];
      return true, errors;
    }
    var s := summary.value;
    var totalIn := TotalIn(txs);
    var totalOut := TotalOut(txs);
    ghost var inPart := if !InWithin(txs, s) then [PaymentsInMismatch(totalIn, s.paymentsIn)] else [];
    ghost var outPart := if !OutWithin(txs, s) then [PaymentsOutMismatch(totalOut, s.paymentsOut)] else [];
    if Abs(totalIn - s.paymentsIn) > Tolerance {
      errors := errors + [PaymentsInMismatch(totalIn, s.paymentsIn)];
    }
    assert errors == inPart;
    if Abs(totalOut - s.paymentsOut) > Tolerance {
      errors := errors + [PaymentsOutMismatch(totalOut, s.paymentsOut)];
    }
    assert errors == inPart + outPart;
    var expectedClosing := s.openingBalance + totalIn - totalOut;
    if Abs(expectedClosing - s.closingBalance) > Tolerance {
      errors := errors + [BalanceMismatch(s.openingBalance, totalIn, totalOut, expectedClosing, s.closingBalance)];
    }
    ghost var balancePart :=
      if !BalanceWithin(txs, s)
      then [BalanceMismatch(s.openingBalance, totalIn, totalOut, expectedClosing, s.closingBalance)]
      else [];
    assert errors == inPart + outPart + balancePart;
    assert Validate(txs, summary).1 == inPart + outPart + balancePart;
    valid := |errors| == 0;
  }
}
