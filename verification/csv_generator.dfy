/**
 * CSV generation: the rows `generate_csv` writes for a list of transactions,
 * the date-sorted combination of several statements' transactions
 * (`generate_combined_csv`), and `format_amount_for_csv`.
 *
 * The CSV text itself is modelled as its list of rows, each a list of field
 * strings in header order; quoting and line endings belong to the `csv`
 * module and are not modelled.
 */
module CsvGenerator {
  import opened Wrappers
  import opened Text
  import opened Amounts
  import opened Dates
  import opened Sorting
  import opened Records
  import opened Extractor

  /** The currency prefix of `format_amount_for_csv`: `-£` for an expense, `£` otherwise. */
  function CurrencyPrefix(isExpense: bool): (p: string)
    ensures |p| == (if isExpense then 2 else 1) && p[|p| - 1] == '£'
  {
    if isExpense then "-£" else "£"
  }

  /**
   * `format_amount_for_csv`: empty for a missing or zero amount, otherwise the
   * amount with thousands separators and two decimals behind the currency
   * prefix.
   */
  function FormatAmountForCsv(amount: Option<nat>, isExpense: bool): (r: string)
    ensures r == "" <==> !Positive(amount)
    ensures Positive(amount) ==> |r| > |CurrencyPrefix(isExpense)| && r[..|CurrencyPrefix(isExpense)|] == CurrencyPrefix(isExpense)
  {
    if amount.None? || amount.value == 0 then ""
    else CurrencyPrefix(isExpense) + FormatGrouped(amount.value)
  }

  /**
   * Behind its prefix a formatted amount is thousands-grouped with two
   * decimals, and `parse_amount` reads the amount back from it.
   */
  lemma FormatAmountForCsvRoundTrip(amount: Option<nat>, isExpense: bool)
    requires Positive(amount)
    ensures var r, n := FormatAmountForCsv(amount, isExpense), |CurrencyPrefix(isExpense)|;
      && MatchesAmountPattern(r[n..])
      && ParseAmount(r[n..]) == amount.value
      && IsGroupedAmount(r[n..])
  {
    var prefix, body := CurrencyPrefix(isExpense), FormatGrouped(amount.value);
    var r := FormatAmountForCsv(amount, isExpense);
    assert r == prefix + body;
    FormatGroupedRoundTrip(amount.value);
    assert r[|prefix|..] == body;
  }

  /** Below £1,000 the grouped format and the plain format of `to_csv_row` coincide. */
  lemma GroupedAgreesBelowThousand(pence: nat)
    requires pence < 100000
    ensures FormatGrouped(pence) == FormatPlain(pence)
  {
  }

  /** From £1,000 up they differ: `format_amount_for_csv` writes a comma, `to_csv_row` does not. */
  lemma GroupedDiffersFromThousand(pence: nat)
    requires pence >= 100000
    ensures FormatGrouped(pence) != FormatPlain(pence)
    ensures ',' in FormatGrouped(pence) && ',' !in FormatPlain(pence)
  {
    var g := Grouped(pence / 100);
    var s := g + "," + Pad3(pence / 100 % 1000);
    assert Grouped(pence / 100) == Grouped(pence / 100 / 1000) + "," + Pad3(pence / 100 % 1000);
    assert ',' in Grouped(pence / 100);
    assert FormatGrouped(pence) == Grouped(pence / 100) + "." + Pad2(pence % 100);
    assert ',' in FormatGrouped(pence);
    var p := FormatPlain(pence);
    var w, d := NatToString(pence / 100), Pad2(pence % 100);
    assert p == w + "." + d;
    forall i | 0 <= i < |p| ensures p[i] != ',' {
      if i < |w| {
        assert p[i] == w[i];
      } else if i > |w| {
        assert p[i] == d[i - |w| - 1];
      }
    }
  }

  /** One CSV row per transaction, in order. */
  function TransactionRows(txs: seq<Transaction>): (rows: seq<seq<string>>)
    ensures |rows| == |txs|
  {
    if txs == [] then [] else TransactionRows(txs[..|txs| - 1]) + [RowFields(ToCsvRow(txs[|txs| - 1]))]
  }

  /** The rows of a CSV for `txs`: the header row when asked for, then one row per transaction. */
  function CsvRows(txs: seq<Transaction>, includeHeader: bool): (rows: seq<seq<string>>)
    ensures |rows| == |txs| + (if includeHeader then 1 else 0)
    ensures includeHeader ==> rows[0] == Header
  {
    (if includeHeader then [Header] else []) + TransactionRows(txs)
  }

  /** `generate_csv`, writing into a list of rows instead of a string buffer. */
  method GenerateCsv(transactions: seq<Transaction>, includeHeader: bool) returns (rows: seq<seq<string>>)
    ensures rows == CsvRows(transactions, includeHeader)
  {
    var body: seq<seq<string>> := [];
    var i := 0;
    while i < |transactions|
      invariant 0 <= i <= |transactions|
      invariant body == TransactionRows(transactions[..i])
    {
      RowsSnoc(transactions, i);
      body := body + [RowFields(ToCsvRow(transactions[i]))];
      i := i + 1;
    }
    assert transactions[..i] == transactions;
    if includeHeader {
      rows := [Header] + body;
    } else {
      rows := body;
    }
  }

  lemma RowsSnoc(txs: seq<Transaction>, i: nat)
    requires i < |txs|
    ensures TransactionRows(txs[..i + 1]) == TransactionRows(txs[..i]) + [RowFields(ToCsvRow(txs[i]))]
  {
    assert txs[..i + 1][..i] == txs[..i];
  }

  lemma {:induction false} TransactionRowAt(txs: seq<Transaction>, i: nat)
    requires i < |txs|
    ensures TransactionRows(txs)[i] == RowFields(ToCsvRow(txs[i]))
  {
    var init := txs[..|txs| - 1];
    var rows := TransactionRows(init);
    assert TransactionRows(txs) == rows + [RowFields(ToCsvRow(txs[|txs| - 1]))];
    if i < |txs| - 1 {
      TransactionRowAt(init, i);
      assert TransactionRows(txs)[i] == rows[i];
    }
  }

  /**
   * Row `i` after the optional header is the row of transaction `i`: the rows
   * follow the transactions one to one and in order.
   */
  lemma CsvRowAt(txs: seq<Transaction>, includeHeader: bool, i: nat)
    requires i < |txs|
    ensures CsvRows(txs, includeHeader)[i + (if includeHeader then 1 else 0)] == RowFields(ToCsvRow(txs[i]))
  {
    TransactionRowAt(txs, i);
  }

  /** All statements' transactions, statement after statement. */
  function Flatten(all: seq<seq<Transaction>>): seq<Transaction>
  {
    if all == [] then [] else Flatten(all[..|all| - 1]) + all[|all| - 1]
  }

  lemma {:induction false} FlattenMembers(all: seq<seq<Transaction>>)
    ensures forall t :: t in Flatten(all) <==> exists i :: 0 <= i < |all| && t in all[i]
  {
    if all != [] {
      var init := all[..|all| - 1];
      FlattenMembers(init);
      forall t | t in Flatten(all) ensures exists i :: 0 <= i < |all| && t in all[i] {
        if t in Flatten(init) {
          var i :| 0 <= i < |init| && t in init[i];
          assert all[i] == init[i];
        } else {
          assert t in all[|all| - 1];
        }
      }
      forall t, i | 0 <= i < |all| && t in all[i] ensures t in Flatten(all) {
        if i < |all| - 1 {
          assert init[i] == all[i];
        }
      }
    }
  }

  /** The transactions of `generate_combined_csv`: all statements flattened, then stably sorted by date. */
  function Combine(all: seq<seq<Transaction>>): (r: seq<Transaction>)
    ensures multiset(r) == multiset(Flatten(all))
    ensures SortedBy(r, TxDateKey)
    ensures forall k :: WithKey(r, TxDateKey, k) == WithKey(Flatten(all), TxDateKey, k)
  {
    var r := SortBy(Flatten(all), TxDateKey);
    SortBySorted(Flatten(all), TxDateKey);
    forall k ensures WithKey(r, TxDateKey, k) == WithKey(Flatten(all), TxDateKey, k) {
      SortByStable(Flatten(all), TxDateKey, k);
    }
    r
  }

  /** `generate_combined_csv`: one CSV with a header for all statements' transactions in date order. */
  method GenerateCombinedCsv(allTransactions: seq<seq<Transaction>>) returns (rows: seq<seq<string>>)
    ensures rows == CsvRows(Combine(allTransactions), true)
  {
    var combined: seq<Transaction> := [];
    var i := 0;
    while i < |allTransactions|
      invariant 0 <= i <= |allTransactions|
      invariant combined == Flatten(allTransactions[..i])
    {
      assert allTransactions[..i + 1][..i] == allTransactions[..i];
      combined := combined + allTransactions[i];
      i := i + 1;
    }
    assert allTransactions[..i] == allTransactions;
    combined := SortBy(combined, TxDateKey);
    rows := GenerateCsv(combined, true);
  }

  lemma {:induction false} WithKeyFlatten(all: seq<seq<Transaction>>, raw: seq<seq<Transaction>>, k: real)
    requires |all| == |raw|
    requires forall i :: 0 <= i < |all| ==> all[i] == SortBy(raw[i], TxDateKey)
    ensures WithKey(Flatten(all), TxDateKey, k) == WithKey(Flatten(raw), TxDateKey, k)
  {
    if all != [] {
      var n := |all| - 1;
      WithKeyFlatten(all[..n], raw[..n], k);
      WithKeyConcat(Flatten(all[..n]), all[n], TxDateKey, k);
      WithKeyConcat(Flatten(raw[..n]), raw[n], TxDateKey, k);
      SortByStable(raw[n], TxDateKey, k);
    }
  }

  /**
   * Combining the date-sorted lists that `extract_transactions_from_words`
   * returns gives what one stable date sort of every statement's saved
   * transactions, in statement order, gives: the per-statement sort changes
   * nothing in the combined CSV.
   */
  lemma CombinePresorted(all: seq<seq<Transaction>>, raw: seq<seq<Transaction>>)
    requires |all| == |raw|
    requires forall i :: 0 <= i < |all| ==> all[i] == SortBy(raw[i], TxDateKey)
    ensures Combine(all) == SortBy(Flatten(raw), TxDateKey)
  {
    var right := SortBy(Flatten(raw), TxDateKey);
    SortBySorted(Flatten(raw), TxDateKey);
    forall k ensures WithKey(Combine(all), TxDateKey, k) == WithKey(right, TxDateKey, k) {
      WithKeyFlatten(all, raw, k);
      SortByStable(Flatten(raw), TxDateKey, k);
    }
    SortedUnique(Combine(all), right, TxDateKey);
  }

  /** A single statement whose transactions are already in date order comes out unchanged. */
  lemma CombineSingleSorted(txs: seq<Transaction>)
    requires SortedBy(txs, TxDateKey)
    ensures Combine([txs]) == txs
  {
    assert Flatten([txs]) == Flatten([txs][..0]) + txs;
    assert Flatten([txs]) == txs;
    SortedUnique(Combine([txs]), txs, TxDateKey);
  }
}
