/**
 * `extract_transactions_from_words` as a pure fold. The parser's six
 * `current_*` variables and its `transactions` list form the accumulator
 * `Acc`; `Finalise` is `save_transaction`, `Absorb` the per-line update,
 * `ApplyLine` a whole line including the header/footer filter, and
 * `ExtractFromWords` the complete run: lines of every page in order, the
 * last candidate saved, then the stable sort by date.
 */
module Extractor {
  import opened Wrappers
  import opened Text
  import opened Amounts
  import opened Dates
  import opened Sorting
  import opened Records
  import opened Columns

  /** The accumulator: the transaction being built, and the transactions saved so far. */
  datatype Acc = Acc(
    date: Option<Date>,
    paymentType: Option<string>,
    descriptionParts: seq<string>,
    paidOut: Option<nat>,
    paidIn: Option<nat>,
    balance: Option<nat>,
    emitted: seq<Transaction>)

  const Start: Acc := Acc(None, None, [], None, None, None, [])

  /** Python truthiness of the payment type: present and not empty. */
  predicate Active(paymentType: Option<string>) { paymentType.Some? && paymentType.value != "" }

  /** `current_paid_out or current_paid_in`: a zero amount is no amount. */
  predicate HasAmount(a: Acc) { Positive(a.paidOut) || Positive(a.paidIn) }

  /** The condition under which `save_transaction` records a transaction. */
  predicate Complete(a: Acc) { a.date.Some? && Active(a.paymentType) && HasAmount(a) }

  function Candidate(a: Acc): Transaction
    requires Complete(a)
  {
    Transaction(a.date.value, a.paymentType.value, Join(a.descriptionParts, " "), a.paidOut, a.paidIn, a.balance)
  }

  /** What every recorded transaction satisfies. */
  predicate WellFormedTransaction(t: Transaction) {
    && t.paymentType in PaymentTypes
    && (Positive(t.paidOut) || Positive(t.paidIn))
    && 1969 <= t.date.year <= 2068
  }

  predicate AllWellFormed(ts: seq<Transaction>) {
    forall i :: 0 <= i < |ts| ==> WellFormedTransaction(ts[i])
  }

  /** The invariant of the accumulator across the whole run. */
  predicate AccInvariant(a: Acc) {
    && (a.paymentType.Some? ==> a.paymentType.value in PaymentTypes)
    && (a.date.Some? ==> 1969 <= a.date.value.year <= 2068)
    && AllWellFormed(a.emitted)
  }

  /**
   * `save_transaction`: records the candidate exactly when it is complete,
   * then clears the description and the three amounts, keeping the date and
   * the payment type.
   */
  function Finalise(a: Acc): (r: Acc)
    ensures r.emitted == a.emitted + (if Complete(a) then [Candidate(a)] else [])
    ensures r.date == a.date && r.paymentType == a.paymentType
    ensures r.descriptionParts == [] && r.paidOut == None && r.paidIn == None && r.balance == None
    ensures AccInvariant(a) ==> AccInvariant(r)
  {
    var emitted := if Complete(a) then a.emitted + [Candidate(a)] else a.emitted;
    Acc(a.date, a.paymentType, [], None, None, None, emitted)
  }

  /**
   * Whether a line's fields close the candidate before they are absorbed: a
   * line with a full date does, and so does a payment-type anchor arriving
   * while a payment type is active and an amount is set.
   */
  predicate Closes(a: Acc, f: LineFields) {
    |f.dateParts| == 3 || (Active(f.paymentType) && Active(a.paymentType) && HasAmount(a))
  }

  /** The date a line sets: the parse of its three date parts, `None` when they do not form a date. */
  function LineDate(f: LineFields): Option<Date>
    requires WellFormedFields(f) && |f.dateParts| == 3
  {
    ParseDateParts(f.dateParts[0], f.dateParts[1], f.dateParts[2])
  }

  /** Python's `if v is not None: slot = v`. */
  function Overwrite(slot: Option<nat>, v: Option<nat>): Option<nat>
  {
    if v.Some? then v else slot
  }

  /** The per-line update of the accumulator, in the parser's order: date, payment type, description, amounts. */
  function Absorb(a: Acc, f: LineFields): (r: Acc)
    requires WellFormedFields(f)
    ensures r.date == if |f.dateParts| == 3 then LineDate(f) else a.date
    ensures r.paymentType == if Active(f.paymentType) then f.paymentType else a.paymentType
    ensures r.emitted == a.emitted + (if Closes(a, f) && Complete(a) then [Candidate(a)] else [])
    ensures r.descriptionParts ==
      (if Closes(a, f) then [] else a.descriptionParts) + (if Active(r.paymentType) then f.description else [])
    ensures r.paidOut == if f.paidOut.Some? then f.paidOut else if Closes(a, f) then None else a.paidOut
    ensures r.paidIn == if f.paidIn.Some? then f.paidIn else if Closes(a, f) then None else a.paidIn
    ensures r.balance == if f.balance.Some? then f.balance else if Closes(a, f) then None else a.balance
    ensures AccInvariant(a) ==> AccInvariant(r)
  {
    var dated := DateStep(a, f);
    var typed := TypeStep(dated, f);
    assert |f.dateParts| == 3 ==> typed.emitted == dated.emitted;
    AmountStep(DescriptionStep(typed, f), f)
  }

  /** A line with three date parts saves the pending transaction and sets the date. */
  function DateStep(a: Acc, f: LineFields): (r: Acc)
    requires WellFormedFields(f)
    ensures r.emitted == a.emitted + (if |f.dateParts| == 3 && Complete(a) then [Candidate(a)] else [])
    ensures |f.dateParts| == 3 ==> !HasAmount(r)
    ensures AccInvariant(a) ==> AccInvariant(r)
  {
    if |f.dateParts| == 3 then Finalise(a).(date := LineDate(f)) else a
  }

  /** A payment code saves a pending transaction that has an amount, then becomes the current type. */
  function TypeStep(a: Acc, f: LineFields): (r: Acc)
    requires WellFormedFields(f)
    ensures r.emitted == a.emitted
      + (if Active(f.paymentType) && Active(a.paymentType) && HasAmount(a) && Complete(a) then [Candidate(a)] else [])
    ensures AccInvariant(a) ==> AccInvariant(r)
  {
    if Active(f.paymentType) then
      (if Active(a.paymentType) && HasAmount(a) then Finalise(a) else a).(paymentType := f.paymentType)
    else a
  }

  /** Description words are kept only under an active payment type. */
  function DescriptionStep(a: Acc, f: LineFields): Acc
  {
    if f.description != [] && Active(a.paymentType)
    then a.(descriptionParts := a.descriptionParts + f.description)
    else a
  }

  /** Each amount the line has overwrites its slot. */
  function AmountStep(a: Acc, f: LineFields): Acc
  {
    a.(paidOut := Overwrite(a.paidOut, f.paidOut),
       paidIn := Overwrite(a.paidIn, f.paidIn),
       balance := Overwrite(a.balance, f.balance))
  }

  /**
   * Two payment-type anchors in a row with no amount before the second one
   * merge into one candidate: nothing is saved, and the description words of
   * both lines accumulate under the second code.
   */
  lemma AnchorsMerge(a: Acc, f1: LineFields, f2: LineFields)
    requires WellFormedFields(f1) && WellFormedFields(f2)
    requires |f1.dateParts| != 3 && |f2.dateParts| != 3
    requires Active(f1.paymentType) && Active(f2.paymentType)
    requires !HasAmount(a) && f1.paidOut.None? && f1.paidIn.None?
    ensures var r := Absorb(Absorb(a, f1), f2);
      && r.emitted == a.emitted
      && r.paymentType == f2.paymentType
      && r.descriptionParts == a.descriptionParts + f1.description + f2.description
  {
    var b := Absorb(a, f1);
    assert !Closes(a, f1) && b.paidOut == a.paidOut && b.paidIn == a.paidIn;
    assert !Closes(b, f2);
  }

  /**
   * A date line whose parts do not form a date saves the candidate and
   * leaves no current date, so the next candidate is dropped when it is saved.
   */
  lemma InvalidDateDropsNext(a: Acc, f: LineFields)
    requires WellFormedFields(f) && |f.dateParts| == 3 && LineDate(f).None?
    ensures Absorb(a, f).date.None?
    ensures Absorb(a, f).emitted == a.emitted + (if Complete(a) then [Candidate(a)] else [])
    ensures Finalise(Absorb(a, f)).emitted == Absorb(a, f).emitted
  {
  }

  /** The boilerplate fragments whose presence marks a header or footer line. */
  const NoisePatterns: seq<string> := [
    "CONTACT TEL", "TEXT PHONE", "WWW.HSBC", "YOUR STATEMENT",
    "ACCOUNT NAME", "SORTCODE", "SHEET NUMBER", "BRANCH IDENTIFIER",
    "INTERNATIONAL BANK", "OPENINGBALANCE", "CLOSINGBALANCE",
    "PAYMENTS IN", "PAYMENTS OUT", "ARRANGEDOVERDRAFT",
    "HANOVER STREET", "PAYMENT TYPE AND DETAILS",
    "YOUR BANK ACCOUNT", "YOUR DEPOSIT", "FINANCIAL SERVICES",
    "CREDIT INTEREST", "DEBIT INTEREST", "AER BALANCE", "EAR BALANCE"]

  function Texts(words: seq<Token>): (r: seq<string>)
    ensures |r| == |words| && forall i :: 0 <= i < |words| ==> r[i] == words[i].text
  {
    seq(|words|, i requires 0 <= i < |words| => words[i].text)
  }

  /** The words of a line joined by spaces, upper-cased. */
  function LineText(words: seq<Token>): string
  {
    Upper(Join(Texts(words), " "))
  }

  predicate IsNoise(text: string) {
    exists i :: 0 <= i < |NoisePatterns| && Contains(text, NoisePatterns[i])
  }

  predicate BroughtForward(text: string) { Contains(Remove(text, ' '), "BALANCEBROUGHTFORWARD") }

  predicate CarriedForward(text: string) { Contains(Remove(text, ' '), "BALANCECARRIEDFORWARD") }

  /**
   * One line of a page: header and footer lines and "balance brought
   * forward" lines change nothing; a "balance carried forward" line saves
   * the candidate and clears the payment type; any other line is absorbed.
   */
  function ApplyLine(a: Acc, words: seq<Token>): (r: Acc)
    ensures IsNoise(LineText(words)) || BroughtForward(LineText(words)) ==> r == a
    ensures !IsNoise(LineText(words)) && !BroughtForward(LineText(words)) && CarriedForward(LineText(words)) ==>
      && r.emitted == a.emitted + (if Complete(a) then [Candidate(a)] else [])
      && r.paymentType == None && r.date == a.date
      && r.descriptionParts == [] && r.paidOut == None && r.paidIn == None && r.balance == None
    ensures !IsNoise(LineText(words)) && !BroughtForward(LineText(words)) && !CarriedForward(LineText(words)) ==>
      r == Absorb(a, FieldsOf(words))
    ensures a.emitted <= r.emitted
    ensures AccInvariant(a) ==> AccInvariant(r)
  {
    var text := LineText(words);
    if IsNoise(text) then a
    else if BroughtForward(text) then a
    else if CarriedForward(text) then Finalise(a).(paymentType := None)
    else Absorb(a, FieldsOf(words))
  }

  /** Runs the lines of one page, in order. */
  function RunLines(a: Acc, lines: seq<seq<Token>>): (r: Acc)
    ensures a.emitted <= r.emitted
    ensures AccInvariant(a) ==> AccInvariant(r)
  {
    if lines == [] then a
    else ApplyLine(RunLines(a, lines[..|lines| - 1]), lines[|lines| - 1])
  }

  function XKey(t: Token): real { t.x }

  /** The line keys of a page's words, in the order the words come. */
  function Ys(words: seq<Token>): (r: seq<int>)
    ensures |r| == |words| && forall i :: 0 <= i < |words| ==> r[i] == words[i].y
  {
    seq(|words|, i requires 0 <= i < |words| => words[i].y)
  }

  /** The words with line key `y`, in page order: the list `lines[y]` the parser builds. */
  function LineTokens(words: seq<Token>, y: int): (r: seq<Token>)
    ensures forall t :: t in r <==> t in words && t.y == y
  {
    if words == [] then []
    else LineTokens(words[..|words| - 1], y) + (if words[|words| - 1].y == y then [words[|words| - 1]] else [])
  }

  /** `lines[y]` holds each word with line key `y` as many times as the page does, and no other word. */
  lemma {:induction false} LineTokensCount(words: seq<Token>, y: int)
    ensures forall t :: multiset(LineTokens(words, y))[t] == if t.y == y then multiset(words)[t] else 0
  {
    if words != [] {
      var init, last := words[..|words| - 1], words[|words| - 1];
      LineTokensCount(init, y);
      assert words == init + [last];
    }
  }

  /** The distinct line keys of a page, ascending: `sorted(lines.keys())`. */
  function LineKeys(words: seq<Token>): (r: seq<int>)
    ensures StrictlyIncreasing(r)
    ensures forall y :: y in r <==> exists t :: t in words && t.y == y
  {
    var r := SortedDistinct(Ys(words));
    assert forall y :: y in Ys(words) <==> exists t :: t in words && t.y == y by {
      forall y ensures y in Ys(words) <==> exists t :: t in words && t.y == y {
        if y in Ys(words) {
          var i :| 0 <= i < |words| && Ys(words)[i] == y;
          assert words[i] in words;
        }
        if exists t :: t in words && t.y == y {
          var t :| t in words && t.y == y;
          var i :| 0 <= i < |words| && words[i] == t;
          assert Ys(words)[i] == y;
        }
      }
    }
    r
  }

  /** The lines of a page, top to bottom, each with its words left to right. */
  function PageLines(words: seq<Token>): (lines: seq<seq<Token>>)
    ensures |lines| == |LineKeys(words)|
  {
    var keys := LineKeys(words);
    seq(|keys|, i requires 0 <= i < |keys| => SortBy(LineTokens(words, keys[i]), XKey))
  }

  /** Runs every page, in order. */
  function RunPages(a: Acc, pages: seq<seq<Token>>): (r: Acc)
    ensures a.emitted <= r.emitted
    ensures AccInvariant(a) ==> AccInvariant(r)
  {
    if pages == [] then a
    else RunLines(RunPages(a, pages[..|pages| - 1]), PageLines(pages[|pages| - 1]))
  }

  function TxDateKey(t: Transaction): real { DateKey(t.date) }

  /** The transactions saved once the last candidate is saved too. */
  function Saved(acc: Acc): (r: seq<Transaction>)
  {
    Finalise(acc).emitted
  }

  lemma WellFormedPermutation(a: seq<Transaction>, b: seq<Transaction>)
    requires multiset(a) == multiset(b) && AllWellFormed(a)
    ensures AllWellFormed(b)
  {
    forall i | 0 <= i < |b| ensures WellFormedTransaction(b[i]) {
      assert b[i] in multiset(a);
      var j :| 0 <= j < |a| && a[j] == b[i];
    }
  }

  /**
   * The transactions of a statement, given the words of each page: the
   * saved transactions, the last candidate included, ordered by date, with
   * transactions of the same date in the order they were saved.
   */
  function ExtractFromWords(pages: seq<seq<Token>>): (r: seq<Transaction>)
    ensures var saved := RunPages(Start, pages).emitted
                         + (if Complete(RunPages(Start, pages)) then [Candidate(RunPages(Start, pages))] else []);
      && multiset(r) == multiset(saved)
      && SortedBy(r, TxDateKey)
      && (forall k :: WithKey(r, TxDateKey, k) == WithKey(saved, TxDateKey, k))
    ensures AllWellFormed(r)
  {
    var saved := Saved(RunPages(Start, pages));
    var r := SortBy(saved, TxDateKey);
    SortBySorted(saved, TxDateKey);
    forall k ensures WithKey(r, TxDateKey, k) == WithKey(saved, TxDateKey, k) {
      SortByStable(saved, TxDateKey, k);
    }
    WellFormedPermutation(saved, r);
    r
  }

  /**
   * Line grouping: the lines come in strictly ascending line key, each line
   * holds exactly the page's words with its key (as many times as the page
   * has them), ordered by `x` with words at
   * the same `x` in page order, and no line is empty.
   */
  lemma PageLinesShape(words: seq<Token>)
    ensures var keys := LineKeys(words);
            var lines := PageLines(words);
      forall i :: 0 <= i < |lines| ==>
        && lines[i] != []
        && multiset(lines[i]) == multiset(LineTokens(words, keys[i]))
        && (forall t :: t in lines[i] <==> t in words && t.y == keys[i])
        && SortedBy(lines[i], XKey)
        && (forall k :: WithKey(lines[i], XKey, k) == WithKey(LineTokens(words, keys[i]), XKey, k))
  {
    var keys := LineKeys(words);
    var lines := PageLines(words);
    forall i | 0 <= i < |lines|
      ensures lines[i] != []
      ensures multiset(lines[i]) == multiset(LineTokens(words, keys[i]))
      ensures forall t :: t in lines[i] <==> t in words && t.y == keys[i]
      ensures SortedBy(lines[i], XKey)
      ensures forall k :: WithKey(lines[i], XKey, k) == WithKey(LineTokens(words, keys[i]), XKey, k)
    {
      var group := LineTokens(words, keys[i]);
      assert lines[i] == SortBy(group, XKey);
      SortBySorted(group, XKey);
      forall k ensures WithKey(lines[i], XKey, k) == WithKey(group, XKey, k) {
        SortByStable(group, XKey, k);
      }
      forall t ensures t in lines[i] <==> t in group {
        assert t in lines[i] <==> t in multiset(lines[i]);
        assert t in group <==> t in multiset(group);
      }
      assert keys[i] in keys;
      var t :| t in words && t.y == keys[i];
      assert t in lines[i];
    }
  }

  /** Every word of a page lies on exactly one of its lines. */
  lemma PageLinesCover(words: seq<Token>, t: Token)
    requires t in words
    ensures exists i :: 0 <= i < |PageLines(words)| && t in PageLines(words)[i]
    ensures forall i, j :: 0 <= i < j < |PageLines(words)| ==> !(t in PageLines(words)[i] && t in PageLines(words)[j])
  {
    PageLinesShape(words);
    var keys := LineKeys(words);
    assert t.y in keys;
    var i :| 0 <= i < |keys| && keys[i] == t.y;
    assert t in PageLines(words)[i];
  }
}
