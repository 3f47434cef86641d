/**
 * The records the parser produces: transactions, the statement summary, the
 * messages a parse reports, and the five-field CSV row of a transaction
 * (`Transaction.to_csv_row`).
 */
module Records {
  import opened Wrappers
  import opened Text
  import opened Amounts
  import opened Dates

  /** One statement transaction; amounts in pence, absent amounts `None`. */
  datatype Transaction = Transaction(
    date: Date,
    paymentType: string,
    description: string,
    paidOut: Option<nat>,
    paidIn: Option<nat>,
    balance: Option<nat>)

  /** The four totals of a statement's account summary, in pence. */
  datatype StatementSummary = StatementSummary(
    openingBalance: nat,
    closingBalance: nat,
    paymentsIn: nat,
    paymentsOut: nat)

  /** The kinds of message a parse records in its errors and warnings. */
  datatype Message =
    | FileNotFound(path: string)
    | NotAPdf(path: string)
    | NoContent
    | ParsingFailed(reason: string)
    | NoTransactions
    | NoSummary
    | PaymentsInMismatch(extracted: int, expected: int)
    | PaymentsOutMismatch(extracted: int, expected: int)
    | BalanceMismatch(opening: int, totalIn: int, totalOut: int, expectedClosing: int, closing: int)

  /** A CSV row, its fields in header order. */
  datatype CsvRow = CsvRow(date: string, bank: string, description: string, income: string, expenses: string)

  const Header: seq<string> := ["Date", "Bank", "Description", "Income", "Expenses"]

  const Bank: string := "hsbc"

  function RowFields(row: CsvRow): seq<string>
  {
    [row.date, row.bank, row.description, row.income, row.expenses]
  }

  /** Python's `x and x > 0` on an optional amount. */
  predicate Positive(amount: Option<nat>) { amount.Some? && amount.value > 0 }

  lemma FourDigits(n: nat)
    requires 1000 <= n <= 9999
    ensures |NatToString(n)| == 4
  {
    assert |NatToString(n / 1000)| == 1;
    assert |NatToString(n / 100)| == 2;
    assert |NatToString(n / 10)| == 3;
  }

  /** `strftime('%d/%m/%Y')`. */
  function FormatDate(d: Date): (s: string)
    ensures 1000 <= d.year ==> |s| == 10 && s[2] == '/' && s[5] == '/'
    ensures 1000 <= d.year ==> AllDigits(s[..2]) && Value(s[..2]) == d.day
    ensures 1000 <= d.year ==> AllDigits(s[3..5]) && Value(s[3..5]) == d.month
    ensures 1000 <= d.year ==> AllDigits(s[6..]) && Value(s[6..]) == d.year
  {
    var s := Pad2(d.day) + "/" + Pad2(d.month) + "/" + NatToString(d.year);
    if 1000 <= d.year then
      FourDigits(d.year);
      assert s[..2] == Pad2(d.day) && s[3..5] == Pad2(d.month) && s[6..] == NatToString(d.year);
      s
    else s
  }

  /**
   * A money cell of `to_csv_row`: empty unless the amount is positive, and
   * otherwise `prefix` followed by the amount with two decimals.
   */
  function MoneyCell(prefix: string, amount: Option<nat>): (c: string)
    ensures c == "" <==> !Positive(amount)
    ensures Positive(amount) ==>
      |c| > |prefix| && c[..|prefix|] == prefix && IsPlainAmount(c[|prefix|..])
      && MatchesAmountPattern(c[|prefix|..]) && ParseAmount(c[|prefix|..]) == amount.value
  {
    if Positive(amount) then
      var c := prefix + FormatPlain(amount.value);
      FormatPlainRoundTrip(amount.value);
      assert c[|prefix|..] == FormatPlain(amount.value);
      c
    else ""
  }

  /** `Transaction.to_csv_row`. */
  function ToCsvRow(t: Transaction): (row: CsvRow)
    ensures row.bank == Bank
    ensures row.date == FormatDate(t.date)
    ensures exists i :: StrippedAt(t.description, row.description, i)
    ensures row.description == [] || (!IsSpace(row.description[0]) && !IsSpace(row.description[|row.description| - 1]))
    ensures row.income == "" <==> !Positive(t.paidIn)
    ensures Positive(t.paidIn) ==>
      |row.income| > 1 && row.income[0] == '£' && IsPlainAmount(row.income[1..]) && MatchesAmountPattern(row.income[1..])
      && ParseAmount(row.income[1..]) == t.paidIn.value
    ensures row.expenses == "" <==> !Positive(t.paidOut)
    ensures Positive(t.paidOut) ==>
      |row.expenses| > 2 && row.expenses[..2] == "-£" && IsPlainAmount(row.expenses[2..])
      && MatchesAmountPattern(row.expenses[2..])
      && ParseAmount(row.expenses[2..]) == t.paidOut.value
  {
    var income := MoneyCell("£", t.paidIn);
    assert Positive(t.paidIn) ==> income[0] == income[..1][0] == '£';
    CsvRow(FormatDate(t.date), Bank, Strip(t.description), income, MoneyCell("-£", t.paidOut))
  }
}
