/**
 * `HSBCStatementParser.parse` and `parse_multiple`: how one statement's
 * `ParseResult` is assembled from what the PDF library reads, the summary
 * search, the word-level extractor and the validation.
 *
 * Reading the PDF is not modelled: a `Document` carries whether the path
 * exists, its final path component, and what reading its pages produced:
 * either the per-page words and texts, or the message of the exception
 * reading raised.
 */
module PdfParser {
  import opened Wrappers
  import opened Text
  import opened Sorting
  import opened Records
  import opened Columns
  import opened Extractor
  import opened Extraction
  import opened Summary

  /** The per-page words and per-page texts of a PDF, as the reader returns them. */
  datatype Pages = Pages(pagesWords: seq<seq<Token>>, pagesText: seq<string>)

  /** A statement path as `parse` sees it. */
  datatype Document = Document(path: string, name: string, present: bool, content: Result<Pages, string>)

  /** The fields of a `ParseResult`, as a value. */
  datatype Outcome = Outcome(
    success: bool,
    transactions: seq<Transaction>,
    summary: Option<StatementSummary>,
    errors: seq<Message>,
    warnings: seq<Message>,
    filename: string,
    pageCount: nat)

  /** `str.rfind(c)`: the last index of `c` in `s`, or -1. */
  function RFind(s: string, c: char): (r: int)
    ensures -1 <= r < |s|
    ensures r == -1 <==> c !in s
    ensures r >= 0 ==> s[r] == c && forall j :: r < j < |s| ==> s[j] != c
  {
    if s == [] then -1
    else if s[|s| - 1] == c then |s| - 1
    else
      var r := RFind(s[..|s| - 1], c);
      assert c in s <==> c in s[..|s| - 1] by {
        assert s == s[..|s| - 1] + [s[|s| - 1]];
      }
      r
  }

  /** `PurePath.suffix`: from the last dot on, unless that dot starts or ends the name. */
  function Suffix(name: string): (r: string)
    ensures r != "" ==> 1 < |r| < |name| && r == name[|name| - |r|..] && r[0] == '.'
    ensures r != "" ==> forall j :: 0 < j < |r| ==> r[j] != '.'
  {
    var i := RFind(name, '.');
    if 0 < i < |name| - 1 then name[i..] else ""
  }

  /** The check `path.suffix.lower() == '.pdf'`. */
  predicate IsPdfName(name: string) { Lower(Suffix(name)) == ".pdf" }

  /** A name passes exactly when it is longer than `.pdf` and ends in `.pdf` in any letter case. */
  lemma IsPdfNameMeans(name: string)
    ensures IsPdfName(name) <==> |name| > 4 && Lower(name[|name| - 4..]) == ".pdf"
  {
    var i := RFind(name, '.');
    if |name| > 4 && Lower(name[|name| - 4..]) == ".pdf" {
      var n := |name|;
      assert LowerChar(name[n - 4]) == '.';
      assert name[n - 4] == '.';
      assert LowerChar(name[n - 3]) == 'p' && LowerChar(name[n - 2]) == 'd' && LowerChar(name[n - 1]) == 'f';
      assert name[n - 3] != '.' && name[n - 2] != '.' && name[n - 1] != '.';
      assert i == n - 4;
    }
    if IsPdfName(name) {
      assert |Lower(Suffix(name))| == 4;
      assert 0 < i < |name| - 1;
      assert Suffix(name) == name[i..];
      assert i == |name| - 4;
    }
  }

  /** The message the validation can put into a result. */
  predicate IsValidationMessage(m: Message) {
    m.NoTransactions? || m.NoSummary? || m.PaymentsInMismatch? || m.PaymentsOutMismatch? || m.BalanceMismatch?
  }

  /**
   * The `ParseResult` that `parse` returns for `doc`: the checks on the path
   * return early with one error; a failure while reading the pages leaves one
   * error; a document without pages leaves one error; otherwise the summary
   * and the transactions are extracted, validation failures become warnings,
   * and the parse succeeds when there is no error and at least one transaction.
   */
  function Assemble(doc: Document): (r: Outcome)
    ensures r.filename == doc.name
    ensures r.success <==> r.errors == [] && r.transactions != []
    ensures !doc.present ==> r == Outcome(false, [], None, [FileNotFound(doc.path)], [], doc.name, 0)
    ensures doc.present && !IsPdfName(doc.name) ==> r == Outcome(false, [], None, [NotAPdf(doc.path)], [], doc.name, 0)
    ensures doc.present && IsPdfName(doc.name) && doc.content.Failure? ==>
      r == Outcome(false, [], None, [ParsingFailed(doc.content.error)], [], doc.name, 0)
    ensures doc.present && IsPdfName(doc.name) && doc.content.Success? ==>
      var pages := doc.content.value;
      && r.pageCount == |pages.pagesWords|
      && (NoContent in r.errors <==> pages.pagesWords == [])
      && (pages.pagesWords == [] ==> r.errors == [NoContent] && r.transactions == [] && r.summary.None?)
      && (pages.pagesWords != [] ==>
            && r.errors == []
            && r.summary == SummaryOf(Join(pages.pagesText, "\n"))
            && r.transactions == ExtractFromWords(pages.pagesWords))
    ensures forall m :: m in r.warnings ==> IsValidationMessage(m) && m !in r.errors
    ensures r.summary.None? ==> r.warnings == []
    ensures r.summary.Some? ==> (r.warnings == [] <==> Validate(r.transactions, r.summary).0)
    ensures r.summary.Some? ==> r.warnings == Validate(r.transactions, r.summary).1
  {
    var start := Outcome(false, [], None, [], [], doc.name, 0);
    if !doc.present then start.(errors := [FileNotFound(doc.path)])
    else if !IsPdfName(doc.name) then start.(errors := [NotAPdf(doc.path)])
    else match doc.content
      case Failure(e) => start.(errors := [ParsingFailed(e)])
      case Success(pages) => FromPages(doc.name, pages)
  }

  /**
   * The warnings of a parse: the validation messages when a summary was found
   * and validation fails, none otherwise. Since a passing validation has no
   * messages, with a summary they are exactly the validation's messages.
   */
  function Warnings(transactions: seq<Transaction>, summary: Option<StatementSummary>): (w: seq<Message>)
    ensures summary.None? ==> w == []
    ensures summary.Some? ==> (w == [] <==> Validate(transactions, summary).0)
    ensures summary.Some? ==> w == Validate(transactions, summary).1
    ensures forall m :: m in w ==> IsValidationMessage(m)
  {
    ValidationMessages(transactions, summary);
    if summary.Some? && !Validate(transactions, summary).0 then Validate(transactions, summary).1 else []
  }

  /** The result once the pages were read. */
  function FromPages(name: string, pages: Pages): (r: Outcome)
    ensures r.filename == name && r.pageCount == |pages.pagesWords|
  {
    if pages.pagesWords == [] then Outcome(false, [], None, [NoContent], [], name, 0)
    else Filled(name, |pages.pagesWords|, SummaryOf(Join(pages.pagesText, "\n")), ExtractFromWords(pages.pagesWords))
  }

  /**
   * The result once the pages were read and found not empty: no errors, the
   * transactions and the summary found, the warnings of their validation.
   */
  function Filled(name: string, pageCount: nat, summary: Option<StatementSummary>, transactions: seq<Transaction>): Outcome
  {
    var errors: seq<Message> := [];
    Outcome(errors == [] && transactions != [], transactions, summary, errors, Warnings(transactions, summary),
            name, pageCount)
  }

  lemma ValidationMessages(txs: seq<Transaction>, summary: Option<StatementSummary>)
    ensures forall m :: m in Validate(txs, summary).1 ==> IsValidationMessage(m)
  {
  }

  /**
   * Validation never decides success: two documents that differ only in their
   * page texts, and so perhaps in their summary and warnings, succeed or fail
   * alike and carry the same errors and transactions.
   */
  lemma SuccessIgnoresSummary(doc: Document, otherText: seq<string>)
    requires doc.content.Success?
    ensures var other := doc.(content := Success(doc.content.value.(pagesText := otherText)));
      && Assemble(other).success == Assemble(doc).success
      && Assemble(other).errors == Assemble(doc).errors
      && Assemble(other).transactions == Assemble(doc).transactions
  {
  }

  lemma {:induction false} WordlessPagesRunNothing(pages: seq<seq<Token>>)
    requires forall i :: 0 <= i < |pages| ==> pages[i] == []
    ensures RunPages(Start, pages) == Start
  {
    if pages != [] {
      WordlessPagesRunNothing(pages[..|pages| - 1]);
      assert LineKeys([]) == [];
      assert PageLines(pages[|pages| - 1]) == [];
    }
  }

  /**
   * Pages that exist but carry no words are content all the same: they count
   * as pages and raise no error, yet yield no transaction, so the parse does
   * not succeed.
   */
  lemma WordlessPagesAreContent(doc: Document)
    requires doc.present && IsPdfName(doc.name) && doc.content.Success?
    requires doc.content.value.pagesWords != []
    requires forall i :: 0 <= i < |doc.content.value.pagesWords| ==> doc.content.value.pagesWords[i] == []
    ensures Assemble(doc).errors == [] && Assemble(doc).transactions == []
    ensures Assemble(doc).pageCount == |doc.content.value.pagesWords| && !Assemble(doc).success
  {
    var pages := doc.content.value.pagesWords;
    WordlessPagesRunNothing(pages);
    var r := ExtractFromWords(pages);
    assert multiset(r) == multiset{};
  }

  /** A `ParseResult`, whose fields `parse` fills in step by step. */
  class ParseResult {
    var success: bool
    var transactions: seq<Transaction>
    var summary: Option<StatementSummary>
    var errors: seq<Message>
    var warnings: seq<Message>
    var filename: string
    var pageCount: nat

    function Snapshot(): Outcome
      reads this
    {
      Outcome(success, transactions, summary, errors, warnings, filename, pageCount)
    }

    /** `ParseResult(success=..., filename=...)`, the other fields at their defaults. */
    constructor(success: bool, filename: string)
      ensures Snapshot() == Outcome(success, [], None, [], [], filename, 0)
    {
      this.success := success;
      transactions := [];
      summary := None;
      errors := [];
      warnings := [];
      this.filename := filename;
      pageCount := 0;
    }
  }

  /** `HSBCStatementParser.parse`. */
  method Parse(doc: Document) returns (result: ParseResult)
    ensures fresh(result)
    ensures result.Snapshot() == Assemble(doc)
  {
    result := new ParseResult(false, doc.name);

    if !doc.present {
      result.errors := result.errors + [FileNotFound(doc.path)];
      return;
    }

    if !IsPdfName(doc.name) {
      result.errors := result.errors + [NotAPdf(doc.path)];
      return;
    }

    match doc.content {
      case Failure(e) =>
        result.errors := result.errors + [ParsingFailed(e)];
      case Success(pages) =>
        FillFromPages(result, pages);
    }
  }

  /** The `try` block of `parse`, once the pages were read. */
  method FillFromPages(result: ParseResult, pages: Pages)
    requires result.Snapshot() == Outcome(false, [], None, [], [], result.filename, 0)
    modifies result
    ensures result.Snapshot() == FromPages(old(result.filename), pages)
  {
    assert result.errors == [] && result.warnings == [];
    result.pageCount := |pages.pagesWords|;

    if pages.pagesWords == [] {
      result.errors := result.errors + [NoContent];
      return;
    }

    FillNonEmpty(result, pages);
  }

  /** The rest of the `try` block, for pages that are not empty. */
  method FillNonEmpty(result: ParseResult, pages: Pages)
    requires pages.pagesWords != []
    requires result.Snapshot() == Outcome(false, [], None, [], [], result.filename, |pages.pagesWords|)
    modifies result
    ensures result.Snapshot()
            == Filled(old(result.filename), |pages.pagesWords|, SummaryOf(Join(pages.pagesText, "\n")),
                      ExtractFromWords(pages.pagesWords))
  {
    assert result.errors == [] && result.warnings == [];
    var summary, transactions, parseErrors, warnings := ReadPages(pages);
    Store(result, summary, transactions, parseErrors, warnings);
  }

  /** The summary, the transactions, their errors and the validation warnings of pages that are not empty. */
  method ReadPages(pages: Pages)
    returns (summary: Option<StatementSummary>, transactions: seq<Transaction>, parseErrors: seq<Message>,
             warnings: seq<Message>)
    ensures summary == SummaryOf(Join(pages.pagesText, "\n"))
    ensures transactions == ExtractFromWords(pages.pagesWords)
    ensures parseErrors == []
    ensures warnings == Warnings(transactions, summary)
  {
    summary := ExtractSummary(Join(pages.pagesText, "\n"));
    transactions, parseErrors := ExtractTransactionsFromWords(pages.pagesWords);
    warnings := CheckSummary(transactions, summary);
  }

  /**
   * The writes of `parse` once the pages are read: the summary and the
   * transactions are set, the errors and warnings extended, and success is
   * decided from the errors and the transactions.
   */
  method Store(result: ParseResult, summary: Option<StatementSummary>, transactions: seq<Transaction>,
               parseErrors: seq<Message>, warnings: seq<Message>)
    modifies result
    ensures result.Snapshot() == old(result.Snapshot()).(
      summary := summary, transactions := transactions,
      errors := old(result.errors) + parseErrors, warnings := old(result.warnings) + warnings,
      success := old(result.errors) + parseErrors == [] && transactions != [])
  {
    result.summary, result.transactions := summary, transactions;
    result.errors := result.errors + parseErrors;
    result.warnings := result.warnings + warnings;
    result.success := |result.errors| == 0 && |transactions| > 0;
  }

  /** The validation step of `parse`: runs only with a summary, and yields its messages when it fails. */
  method CheckSummary(transactions: seq<Transaction>, summary: Option<StatementSummary>) returns (warnings: seq<Message>)
    ensures warnings == Warnings(transactions, summary)
  {
    warnings := [];
    if summary.Some? {
      var isValid, validationErrors := ValidateTransactions(transactions, summary);
      if !isValid {
        warnings := warnings + validationErrors;
      }
    }
  }

  /** The results `parse` gives for each document, in order. */
  function AssembleAll(docs: seq<Document>): (r: seq<Outcome>)
    ensures |r| == |docs|
  {
    if docs == [] then [] else AssembleAll(docs[..|docs| - 1]) + [Assemble(docs[|docs| - 1])]
  }

  lemma {:induction false} AssembleAllAt(docs: seq<Document>, i: nat)
    requires i < |docs|
    ensures AssembleAll(docs)[i] == Assemble(docs[i])
  {
    if i < |docs| - 1 {
      AssembleAllAt(docs[..|docs| - 1], i);
    }
  }

  /** `HSBCStatementParser.parse_multiple`: one fresh result per path, in order. */
  method ParseMultiple(docs: seq<Document>) returns (results: seq<ParseResult>)
    ensures |results| == |docs|
    ensures forall i :: 0 <= i < |docs| ==> fresh(results[i]) && results[i].Snapshot() == AssembleAll(docs)[i]
  {
    results := [];
    var i := 0;
    while i < |docs|
      invariant 0 <= i <= |docs|
      invariant |results| == i
      invariant forall j :: 0 <= j < i ==> fresh(results[j]) && results[j].Snapshot() == AssembleAll(docs[..i])[j]
    {
      assert docs[..i + 1][..i] == docs[..i];
      var result := Parse(docs[i]);
      results := results + [result];
      i := i + 1;
    }
    assert docs[..i] == docs;
  }
}
