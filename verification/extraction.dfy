/**
 * `extract_transactions_from_words` as the parser runs it: the `current_*`
 * variables that `save_transaction` updates through `nonlocal` are the
 * fields of an `Accumulator`, the word loop of a line fills per-line
 * scratch variables, and the page and line loops drive the accumulator.
 * Each step is proved to agree with the pure fold in module `Extractor`.
 */
module Extraction {
  import opened Wrappers
  import opened Text
  import opened Amounts
  import opened Dates
  import opened Sorting
  import opened Records
  import opened Columns
  import opened Extractor

  class Accumulator {
    var currentDate: Option<Date>
    var currentPaymentType: Option<string>
    var currentDescriptionParts: seq<string>
    var currentPaidOut: Option<nat>
    var currentPaidIn: Option<nat>
    var currentBalance: Option<nat>
    var transactions: seq<Transaction>

    /** The accumulator's state as a value. */
    function State(): Acc
      reads this
    {
      Acc(currentDate, currentPaymentType, currentDescriptionParts,
          currentPaidOut, currentPaidIn, currentBalance, transactions)
    }

    constructor()
      ensures State() == Start
    {
      currentDate := None;
      currentPaymentType := None;
      currentDescriptionParts := [];
      currentPaidOut := None;
      currentPaidIn := None;
      currentBalance := None;
      transactions := [];
    }

    /** `save_transaction`. */
    method SaveTransaction()
      modifies this
      ensures State() == Finalise(old(State()))
    {
      if currentDate.Some? && Active(currentPaymentType) && (Positive(currentPaidOut) || Positive(currentPaidIn)) {
        var description := Join(currentDescriptionParts, " ");
        var tx := Transaction(currentDate.value, currentPaymentType.value, description,
                              currentPaidOut, currentPaidIn, currentBalance);
        transactions := transactions + [tx];
      }
      currentDescriptionParts := [];
      currentPaidOut := None;
      currentPaidIn := None;
      currentBalance := None;
    }

    /** The body of the line loop, for one line whose words are in ascending `x`. */
    method ProcessLine(lineWords: seq<Token>)
      modifies this
      ensures State() == ApplyLine(old(State()), lineWords)
    {
      var lineText := LineText(lineWords);
      if IsNoise(lineText) {
        return;
      }
      if BroughtForward(lineText) {
        return;
      }
      if CarriedForward(lineText) {
        SaveTransaction();
        currentPaymentType := None;
        return;
      }

      var f := ScanLine(lineWords);
      AbsorbFields(f);
    }

    /** The updates after the word loop, in the parser's order: date, payment type, description, amounts. */
    method AbsorbFields(f: LineFields)
      requires WellFormedFields(f)
      modifies this
      ensures State() == Absorb(old(State()), f)
    {
      SetDate(f);
      SetPaymentType(f);
      AddDescription(f);
      SetAmounts(f);
    }

    method SetDate(f: LineFields)
      requires WellFormedFields(f)
      modifies this
      ensures State() == DateStep(old(State()), f)
    {
      if |f.dateParts| == 3 {
        SaveTransaction();
        currentDate := ParseDateParts(f.dateParts[0], f.dateParts[1], f.dateParts[2]);
      }
    }

    method SetPaymentType(f: LineFields)
      requires WellFormedFields(f)
      modifies this
      ensures State() == TypeStep(old(State()), f)
    {
      if Active(f.paymentType) {
        if Active(currentPaymentType) && (Positive(currentPaidOut) || Positive(currentPaidIn)) {
          SaveTransaction();
        }
        currentPaymentType := f.paymentType;
      }
    }

    method AddDescription(f: LineFields)
      modifies this
      ensures State() == DescriptionStep(old(State()), f)
    {
      if f.description != [] && Active(currentPaymentType) {
        currentDescriptionParts := currentDescriptionParts + f.description;
      }
    }

    method SetAmounts(f: LineFields)
      modifies this
      ensures State() == AmountStep(old(State()), f)
    {
      if f.paidOut.Some? {
        currentPaidOut := f.paidOut;
      }
      if f.paidIn.Some? {
        currentPaidIn := f.paidIn;
      }
      if f.balance.Some? {
        currentBalance := f.balance;
      }
    }
  }

  /** The word loop of a line: fills the per-line scratch variables left to right. */
  method ScanLine(lineWords: seq<Token>) returns (f: LineFields)
    ensures f == FieldsOf(lineWords)
  {
    var dateParts: seq<string> := [];
    var paymentType: Option<string> := None;
    var descriptionWords: seq<string> := [];
    var paidOut: Option<nat> := None;
    var paidIn: Option<nat> := None;
    var balance: Option<nat> := None;
    var i := 0;
    while i < |lineWords|
      invariant 0 <= i <= |lineWords|
      invariant LineFields(dateParts, paymentType, descriptionWords, paidOut, paidIn, balance)
                == FieldsOf(lineWords[..i])
    {
      var w := lineWords[i];
      assert lineWords[..i + 1][..i] == lineWords[..i];
      match Classify(w, |dateParts|) {
        case DatePart => dateParts := dateParts + [w.text];
        case PaymentCode(code) => paymentType := Some(code);
        case Amount(band, amount) =>
          match band {
            case PaidOutBand => paidOut := Some(amount);
            case PaidInBand => paidIn := Some(amount);
            case BalanceBand => balance := Some(amount);
          }
        case Description => descriptionWords := descriptionWords + [w.text];
        case Dropped =>
      }
      i := i + 1;
    }
    assert lineWords[..i] == lineWords;
    f := LineFields(dateParts, paymentType, descriptionWords, paidOut, paidIn, balance);
  }

  /** The `lines` dictionary of a page: each line key mapped to its words in page order. */
  method GroupLines(words: seq<Token>) returns (lines: map<int, seq<Token>>)
    ensures forall y :: y in lines <==> exists t :: t in words && t.y == y
    ensures forall y :: y in lines ==> lines[y] == LineTokens(words, y)
  {
    lines := map[];
    var i := 0;
    while i < |words|
      invariant 0 <= i <= |words|
      invariant forall y :: y in lines <==> exists t :: t in words[..i] && t.y == y
      invariant forall y :: y in lines ==> lines[y] == LineTokens(words[..i], y)
    {
      var w := words[i];
      assert words[..i + 1] == words[..i] + [w];
      assert words[..i + 1][..i] == words[..i];
      ghost var prev := lines;
      if w.y !in lines {
        lines := lines[w.y := []];
      }
      lines := lines[w.y := lines[w.y] + [w]];
      forall y | y in lines ensures lines[y] == LineTokens(words[..i + 1], y) {
        assert LineTokens(words[..i + 1], y) == LineTokens(words[..i], y) + (if w.y == y then [w] else []);
        if y != w.y {
          assert y in prev;
        } else if y !in prev {
          NoneOnLine(words[..i], y);
        }
      }
      i := i + 1;
    }
    assert words[..i] == words;
  }

  /** The line loop of one page: its lines, top to bottom, each with its words left to right. */
  method ProcessPage(acc: Accumulator, words: seq<Token>)
    modifies acc
    ensures acc.State() == RunLines(old(acc.State()), PageLines(words))
  {
    var lines := GroupLines(words);
    // `sorted(lines.keys())`: by the contracts of `GroupLines` and `LineKeys`
    // both hold exactly the line keys some word has (asserted below), and
    // `keys` is ascending.
    var keys := LineKeys(words);
    ghost var before := acc.State();
    ghost var pageLines := PageLines(words);
    var j := 0;
    while j < |keys|
      invariant 0 <= j <= |keys|
      invariant acc.State() == RunLines(before, pageLines[..j])
    {
      assert keys[j] in keys;
      ghost var t :| t in words && t.y == keys[j];
      assert keys[j] in lines;
      var lineWords := SortBy(lines[keys[j]], XKey);
      assert lineWords == pageLines[j];
      RunLinesSnoc(before, pageLines, j);
      acc.ProcessLine(lineWords);
      j := j + 1;
    }
    assert pageLines[..j] == pageLines;
    assert forall y :: y in lines <==> y in keys;
  }

  lemma NoneOnLine(words: seq<Token>, y: int)
    requires forall t :: t in words ==> t.y != y
    ensures LineTokens(words, y) == []
  {
    if words != [] {
      NoneOnLine(words[..|words| - 1], y);
      assert words[|words| - 1] in words;
    }
  }

  lemma RunLinesSnoc(a: Acc, lines: seq<seq<Token>>, j: nat)
    requires j < |lines|
    ensures RunLines(a, lines[..j + 1]) == ApplyLine(RunLines(a, lines[..j]), lines[j])
  {
    assert lines[..j + 1][..j] == lines[..j];
  }

  lemma RunPagesSnoc(a: Acc, pages: seq<seq<Token>>, p: nat)
    requires p < |pages|
    ensures RunPages(a, pages[..p + 1]) == RunLines(RunPages(a, pages[..p]), PageLines(pages[p]))
  {
    assert pages[..p + 1][..p] == pages[..p];
  }

  /** `extract_transactions_from_words`: the transactions, and an error list that stays empty. */
  method ExtractTransactionsFromWords(pagesWords: seq<seq<Token>>) returns (transactions: seq<Transaction>, errors: seq<Message>)
    ensures transactions == ExtractFromWords(pagesWords)
    ensures errors == []
  {
    errors := [];
    var acc := new Accumulator();
    var p := 0;
    while p < |pagesWords|
      invariant 0 <= p <= |pagesWords|
      invariant acc.State() == RunPages(Start, pagesWords[..p])
    {
      RunPagesSnoc(Start, pagesWords, p);
      ProcessPage(acc, pagesWords[p]);
      p := p + 1;
    }
    assert pagesWords[..p] == pagesWords;
    acc.SaveTransaction();
    transactions := SortBy(acc.transactions, TxDateKey);
  }
}
