# HSBC statement parser — a Dafny model

This project models the parsing core of an HSBC PDF-statement-to-CSV converter.
The core turns the positioned words of a statement's pages into transactions.
It also reads the statement's account summary, checks the transactions against that summary,
assembles the per-file parse result, and produces CSV rows.

The model has five layers.

- **Values.**
  - `Amounts` handles the amount text `^[\d,]+\.\d{2}$` and `parse_amount`. Amounts are kept as integer pence.
  - `Dates` models `parse_date_parts` (`strptime` with `%d %b %y`) and the calendar check.
  - `Records` defines the transaction, the summary, the message kinds and `Transaction.to_csv_row`.
  - `Text` holds the string helpers these use: Python `str.isdigit`, `isspace`, `upper`, `lower`, `strip`, `join`, `in` and `replace`.
- **Column classifier** (`Columns`).
  - Every word of a line goes into exactly one bucket, chosen by its left edge `x` and its text.
  - The buckets are date part, payment code, paid-out, paid-in or balance amount, description, or dropped.
  - A line's words, taken left to right, give that line's fields (`LineFields`).
- **Transaction extraction.**
  - `Extractor` is a pure fold of the accumulator over lines and pages.
  - `Extraction` is the imperative version the parser actually runs. Its pieces are:
    - a class `Accumulator` holding the six `current_*` variables and the saved transactions;
    - `save_transaction`, written as a method;
    - the word, line and page loops, with the `lines` dictionary built in a loop.
  - Every method is proved equal to the fold, and the fold's properties are proved as lemmas.
- **Summary and validation** (`Summary`).
  - The four label searches are exact greedy matchers, and `re.search` is a leftmost search.
  - `extract_summary` and `validate_transactions` are each modelled both as a function and as a method.
- **Output and results.**
  - `CsvGenerator` covers the CSV rows, the combination of several statements with a stable sort by date, and `format_amount_for_csv`.
  - `PdfParser` covers `ParseResult` as a class, `parse` as a method proved equal to a pure `Assemble`, and `parse_multiple`.
  - PDF reading is an input of the model. Each `Document` says:
    - whether the file exists;
    - its file name;
    - either the per-page words and texts, or the error raised while reading.

Behaviours the model keeps as the code has them:

- **Column bands.** The code uses 100 ≤ x < 130 for the payment column and 130 ≤ x < 350 for the description. The docstring of `extract_transactions_from_words` says 100–140 and 140–350; the code's constants are what the model uses.
- **Date column edge.** `COL_DATE_MAX` is never read; the date column uses the literal 100.
- **Unreachable branches.** Two branches can never be taken, and `Classify` keeps both:
  - The third date branch cannot fire, because a text of at most two digits is already taken by the first branch. Any three date-column texts of at most two digits, or month names, therefore make up a date line.
  - The `')))'` branch cannot fire either, because `')))'` is itself one of the payment codes (`ContactlessIsCode`).
- **Zero amounts.** An amount of 0.00 does not count as an amount when deciding whether to save a transaction or close one.
- **Invalid dates.** A date line whose parts are no calendar date leaves the current date empty. Candidates are then dropped until the next valid date line arrives (`InvalidDateDropsNext`).
- **Amount slots.** Amounts overwrite their slots even when no payment type is active.
- **Merging anchors.** Two payment-type anchors with no amount between them merge into one transaction (`AnchorsMerge`).
- **Summary check.** `if result.summary:` tests a dataclass instance, which is always true, so validation runs exactly when a summary was found.
- **Thousands separators.** `format_amount_for_csv` writes thousands separators, while `to_csv_row` does not. The two agree below £1,000 and differ from £1,000 up (`GroupedAgreesBelowThousand`, `GroupedDiffersFromThousand`).

## Model

| member | source | states |
|---|---|---|
| Amounts.ParseAmount | parser/transaction_extractor.py:61-69 | specified by its lemmas: `ParseAmountMeans` gives its value on every amount-shaped text; `FormatPlainRoundTrip` and `FormatGroupedRoundTrip` show it inverts both output formats; `PlainAmountUnique` and `GroupedAmountUnique` show that every canonical text is the formatting of the amount it parses to |
| Amounts.GroupedValueIsRemove | parser/transaction_extractor.py:65 | reading digits and commas equals reading the digits left after `replace(',', '')` |
| Amounts.ParseAmountMeans | parser/transaction_extractor.py:61-69 | on every amount-shaped text, canonical or not (`1,23.45`, `007.50`, `,.50`), the value is the digits before the point with the commas removed, as pounds, plus the two decimals as pence |
| Amounts.FormatPlain | parser/transaction_extractor.py:37-39 | `f'{x:.2f}'` has the `.2f` shape: a numeral without leading zeros and without commas, a point, two digits |
| Amounts.FormatGrouped | parser/csv_generator.py:94-97 | `f'{x:,.2f}'` has the `,.2f` shape: a thousands-grouped numeral whose leading group is a numeral other than `0`, a point, two digits |
| Amounts.GroupedIsWellGrouped | parser/csv_generator.py:94-97 | `{:,}` writes digits in groups of three separated by commas; the first group has one to three digits, no leading zero, and is not `0` unless it is the whole number |
| Amounts.GroupedUnique | parser/csv_generator.py:94-97 | every thousands-grouped numeral is what `{:,}` writes for its value, so the grouped shape pins the text |
| Amounts.PlainAmountUnique | parser/transaction_extractor.py:37-39 | every text of the `.2f` shape has the amount shape and is exactly the `.2f` formatting of the amount `parse_amount` reads from it |
| Amounts.GroupedAmountUnique | parser/csv_generator.py:94-97 | every text of the `,.2f` shape has the amount shape and is exactly the `,.2f` formatting of the amount `parse_amount` reads from it |
| Text.NumeralIsNatToString | parser/transaction_extractor.py:37-39 | a digit string without a leading zero (or `0` itself) is the `str()` of its value |
| Text.DigitsDetermined | parser/transaction_extractor.py:37-39 | zero-padded digit strings of one width are equal when their values are, so `%02d` texts are pinned by their value |
| Amounts.FormatPlainRoundTrip | parser/transaction_extractor.py:61-69 | `parse_amount` reads back the two-decimal text `f'{x:.2f}'` of any amount, commas skipped, as exactly that many pence; the text has the amount shape |
| Amounts.FormatGroupedRoundTrip | parser/csv_generator.py:94-97 | `parse_amount` also reads back the comma-grouped text `f'{x:,.2f}'` of any amount as the same amount |
| Dates.ExpandYear | parser/transaction_extractor.py:72-78 | `%y` puts a two-digit year into 1969–2068, keeping its last two digits |
| Dates.ParseDateParts | parser/transaction_extractor.py:72-78 | a date is returned iff the day is digits with value 1–31, the month an abbreviation, the year two digits, and the three make a calendar date; the day and the month are the ones written, the year is in 1969–2068 with the written last two digits; otherwise `None` |
| Dates.ParseDatePartsAnyDayText | parser/transaction_extractor.py:72-78 | `%d` also accepts a zero-padded day: any one- or two-digit day text of a date in 1969–2068, with its month abbreviation and two-digit year, parses back to that date |
| Dates.ExpandYearOfRange | parser/transaction_extractor.py:72-78 | `%y` reads the last two digits of a year in 1969–2068 back as that year |
| Dates.ParseDatePartsRoundTrip | parser/transaction_extractor.py:72-78 | every date in 1969–2068, written as day, month abbreviation and two-digit year, parses back to itself |
| Dates.DateKeyOrder | parser/transaction_extractor.py:286 | the numeric sort key orders dates as `datetime` comparison does (year, then month, then day) and is equal only for equal dates |
| Records.FormatDate | parser/transaction_extractor.py:42 | `%d/%m/%Y`: ten characters with slashes at 2 and 5, and the digit groups read back as day, month and year |
| Records.MoneyCell | parser/transaction_extractor.py:32-39 | a money cell is empty iff the amount is absent or not positive, and otherwise is the prefix followed by a text of the `.2f` shape (no comma, no leading zero) that parses back to the amount; with `PlainAmountUnique` that text is exactly `f'{x:.2f}'` |
| Records.ToCsvRow | parser/transaction_extractor.py:30-47 | bank is `hsbc`; the date is formatted; the description is the original without surrounding whitespace; Income is non-empty iff paid in > 0, and is then `£` plus a text of the `.2f` shape that parses back to the amount; Expenses likewise with `-£` for paid out |
| Columns.CodesAreUpper | parser/transaction_extractor.py:12 | upper-casing the payment code list leaves it unchanged |
| Columns.ContactlessIsCode | parser/transaction_extractor.py:231-234 | `')))'` is already a payment code, so the separate `')))'` branch can never be taken |
| Columns.Classify | parser/transaction_extractor.py:215-254 | every word lands in exactly one bucket, each stated independently. Date part iff x < 100 and the text is one or two digits or a month name. Payment code iff 100 ≤ x < 130 and the text is a code in any case (result upper-cased). Amount iff x ≥ 350 and the text has the amount shape (band by x, value by `parse_amount`). Description iff a non-code in the payment band or 130 ≤ x < 350. Dropped otherwise |
| Columns.FieldsOf | parser/transaction_extractor.py:207-254 | a line's date parts are date-column texts and its payment type is a known code |
| Columns.AddTokenAmount | parser/transaction_extractor.py:240-247 | one word changes the amount slot of a band only when it is an amount of that band, and then sets it to that amount |
| Columns.AddTokenCode | parser/transaction_extractor.py:229-234 | one word changes the payment type only when it is a code, and then sets it to the upper-cased text |
| Columns.FieldsOfTexts | parser/transaction_extractor.py:219-254 | a line's date parts and description words are exactly its date-column words and description words, in left-to-right order |
| Columns.FieldsOfAmount | parser/transaction_extractor.py:240-247 | last write wins: a band's slot is empty iff the line has no amount in that band, and otherwise holds the amount of the last such word |
| Columns.FieldsOfPaymentType | parser/transaction_extractor.py:229-234 | the line's payment type is empty iff it has no code word, and otherwise is the upper-cased last code word |
| Extractor.Finalise | parser/transaction_extractor.py:147-168 | `save_transaction` appends exactly one transaction iff date, payment type and a non-zero paid out or paid in are all present. Either way it clears description, amounts and balance, keeps date and payment type, and preserves the accumulator invariant |
| Extractor.Absorb | parser/transaction_extractor.py:256-280 | The date changes only on a three-part date line, to the parsed date or `None`. A code sets the payment type. A candidate is saved only on a date line, or on a code arriving while a type is active and an amount is set. Description words are appended only while a type is active after the update. Amounts overwrite their slots: last write wins, and a slot is otherwise cleared only by a save |
| Extractor.DateStep | parser/transaction_extractor.py:259-261 | a three-part date line saves the candidate (recorded only when complete) and leaves no amount pending; the accumulator invariant is kept |
| Extractor.TypeStep | parser/transaction_extractor.py:264-268 | a code saves the candidate only when a type is active and an amount is set; the accumulator invariant is kept |
| Extractor.AnchorsMerge | parser/transaction_extractor.py:264-272 | two code lines with no amount before the second save nothing, and their description words accumulate under the second code |
| Extractor.InvalidDateDropsNext | parser/transaction_extractor.py:259-261 | a date line that is no calendar date saves the candidate, leaves no current date, and the next save records nothing |
| Extractor.ApplyLine | parser/transaction_extractor.py:186-280 | noise lines and "balance brought forward" lines change nothing; "balance carried forward" saves the candidate and clears the payment type; every other line is `Absorb` of its fields; lines only ever add transactions; the invariant is kept |
| Extractor.RunLines | parser/transaction_extractor.py:183-280 | running lines only appends transactions and keeps the invariant |
| Extractor.RunPages | parser/transaction_extractor.py:170-280 | running pages only appends transactions and keeps the invariant |
| Extractor.LineTokens | parser/transaction_extractor.py:172-180 | `lines[y]` holds exactly the page's words with line key `y` |
| Extractor.LineTokensCount | parser/transaction_extractor.py:172-180 | `lines[y]` holds each word with line key `y` as many times as the page has it, and no other word |
| Extractor.LineKeys | parser/transaction_extractor.py:183 | the line keys come in strictly ascending order and are exactly the keys of the page's words |
| Extractor.PageLines | parser/transaction_extractor.py:183-184 | specified by `PageLinesShape` and `PageLinesCover`: one line per key, in ascending key order |
| Extractor.PageLinesShape | parser/transaction_extractor.py:172-184 | each visited line is non-empty, is a permutation of `LineTokens` of its key (so holds exactly the words with its key, with their multiplicities), is sorted by `x`, and keeps page order among words at equal `x` |
| Extractor.PageLinesCover | parser/transaction_extractor.py:172-184 | every word of a page is on exactly one visited line |
| Extractor.WellFormedPermutation | parser/transaction_extractor.py:286 | reordering keeps every transaction well formed (known code, non-zero amount, year in range) |
| Extractor.ExtractFromWords | parser/transaction_extractor.py:283-288 | the output is a permutation of the saved transactions, including the final in-flight candidate. It is sorted by date, stable (equal dates keep their save order), and every transaction is well formed |
| Extraction.Accumulator.constructor | parser/transaction_extractor.py:140-145 | the accumulator starts empty |
| Extraction.Accumulator.SaveTransaction | parser/transaction_extractor.py:147-168 | the method's new state is `Finalise` of the old one |
| Extraction.Accumulator.ProcessLine | parser/transaction_extractor.py:186-280 | the body of the line loop takes the state to `ApplyLine` of the old one |
| Extraction.Accumulator.AbsorbFields | parser/transaction_extractor.py:256-280 | the per-line updates take the state to `Absorb` of the old one |
| Extraction.Accumulator.SetDate | parser/transaction_extractor.py:259-261 | the date step takes the state to `DateStep` of the old one |
| Extraction.Accumulator.SetPaymentType | parser/transaction_extractor.py:264-268 | the payment-type step takes the state to `TypeStep` of the old one |
| Extraction.Accumulator.AddDescription | parser/transaction_extractor.py:271-272 | the description step takes the state to `DescriptionStep` of the old one |
| Extraction.Accumulator.SetAmounts | parser/transaction_extractor.py:275-280 | the amount step takes the state to `AmountStep` of the old one |
| Extraction.ScanLine | parser/transaction_extractor.py:207-254 | the word loop fills the scratch variables with `FieldsOf` of the line |
| Extraction.GroupLines | parser/transaction_extractor.py:172-180 | the dictionary has a key iff some word has that line key, and maps it to `LineTokens` |
| Extraction.ProcessPage | parser/transaction_extractor.py:183-184 | visiting the sorted keys with each line sorted by `x` runs `RunLines` over `PageLines` |
| Extraction.ExtractTransactionsFromWords | parser/transaction_extractor.py:108-288 | returns `ExtractFromWords` of the pages, and an error list that is always empty |
| Sorting.SortBy | parser/transaction_extractor.py:286 | the sort is a permutation of its input |
| Sorting.SortBySorted | parser/transaction_extractor.py:286 | the sort's output is ordered by key |
| Sorting.SortByStable | parser/transaction_extractor.py:286 | for every key, the elements carrying it keep their input order |
| Sorting.SortedUnique | parser/transaction_extractor.py:286 | ordered by key plus stable fixes the output uniquely |
| Sorting.SortedDistinct | parser/transaction_extractor.py:183 | `sorted(lines.keys())`: strictly ascending and exactly the keys that occur |
| Sorting.PresortedRuns | parser/csv_generator.py:70-75 | re-sorting two sorted runs gives what sorting their unsorted concatenation gives |
| Summary.WordAtMeans | parser/transaction_extractor.py:95-96 | a label word matches at `i` iff the text there, lower-cased, is the word (`re.IGNORECASE`) |
| Summary.MatchAtShape | parser/transaction_extractor.py:86-89 | a match starts with the label's first word and captures an amount-shaped group that occurs after it |
| Summary.MatchAt | parser/transaction_extractor.py:86-96 | specified by `MatchAtShape`: a match starts with the label's first word and captures an amount-shaped group after it |
| Summary.Search | parser/transaction_extractor.py:95-96 | a found position matches and no earlier position from the start does; no position matches when nothing is found |
| Summary.SearchLeftmost | parser/transaction_extractor.py:95-96 | `re.search` fails iff no position matches, and otherwise finds the leftmost matching position |
| Summary.Find | parser/transaction_extractor.py:95-97 | a found group has the amount shape |
| Summary.FoundAmount | parser/transaction_extractor.py:97-103 | `summary.get(key, 0)`: 0 for a label not found, the parsed group for one found |
| Summary.SummaryOf | parser/transaction_extractor.py:81-105 | a summary is returned iff at least two of the four labels are found; each field is the found amount or 0 |
| Summary.CollectedMeans | parser/transaction_extractor.py:93-96 | the dictionary after the labels `fs` holds exactly the labels of `fs` whose search succeeds, each with its parsed amount |
| Summary.CollectedSummary | parser/transaction_extractor.py:98-105 | from a dictionary of two or more entries the summary takes each field with default 0; with fewer, no summary; both agree with `SummaryOf` |
| Summary.ExtractSummary | parser/transaction_extractor.py:81-105 | filling the dictionary label by label returns `SummaryOf` |
| Summary.CollectAll | parser/transaction_extractor.py:93-96 | the loop over the patterns leaves the dictionary `Collected` holds: the labels found, each with its parsed amount |
| Summary.Validate | parser/transaction_extractor.py:308-341 | An empty list is invalid with one message. A missing summary is valid with one message. Otherwise each of the three messages is present iff its difference exceeds 0.02, valid iff no message, the number of messages is the number of failed checks, and the payments-in message comes first and the balance message last |
| Summary.TotalIn | parser/transaction_extractor.py:325 | specified by `TotalsAppend` and `TotalsOfOne`: the sum of the paid-in amounts, absent ones as 0 |
| Summary.TotalOut | parser/transaction_extractor.py:326 | specified by `TotalsAppend` and `TotalsOfOne`: the sum of the paid-out amounts, absent ones as 0 |
| Summary.TotalsAppend | parser/transaction_extractor.py:325-326 | both totals add up over consecutive parts of the list |
| Summary.TotalsOfOne | parser/transaction_extractor.py:325-326 | one transaction contributes its amount, or 0 when absent (`t.paid_in or 0`) |
| Summary.ValidateTransactions | parser/transaction_extractor.py:308-341 | appending messages check by check returns `Validate` |
| CsvGenerator.FormatAmountForCsv | parser/csv_generator.py:80-97 | the result is empty iff the amount is missing or zero, and otherwise starts with `-£` for an expense or `£` otherwise |
| CsvGenerator.FormatAmountForCsvRoundTrip | parser/csv_generator.py:94-97 | behind the prefix, a non-zero amount is written in the `,.2f` shape (canonical grouping, no leading zeros) and parses back to the amount; with `GroupedAmountUnique` that text is exactly `f'{x:,.2f}'` |
| CsvGenerator.GroupedAgreesBelowThousand | parser/csv_generator.py:94-97 | below £1,000 the CSV amount format and the `to_csv_row` format are the same text |
| CsvGenerator.GroupedDiffersFromThousand | parser/csv_generator.py:94-97 | from £1,000 up the CSV amount format has a comma and the `to_csv_row` format has none |
| CsvGenerator.TransactionRows | parser/csv_generator.py:38-40 | one row per transaction |
| CsvGenerator.CsvRows | parser/csv_generator.py:35-40 | row count is transactions plus one with the header, the header row first |
| CsvGenerator.GenerateCsv | parser/csv_generator.py:14-50 | the rows written are `CsvRows` of the transactions |
| CsvGenerator.TransactionRowAt | parser/csv_generator.py:38-40 | row `i` is the row of transaction `i` |
| CsvGenerator.CsvRowAt | parser/csv_generator.py:35-40 | after the optional header, row `i` is `to_csv_row` of transaction `i`, in list order |
| CsvGenerator.FlattenMembers | parser/csv_generator.py:70-73 | the flattened list holds exactly the transactions of the statements |
| CsvGenerator.Combine | parser/csv_generator.py:70-75 | the combined list is a permutation of the concatenation, sorted by date, and stable (statement order, then order within a statement) |
| CsvGenerator.GenerateCombinedCsv | parser/csv_generator.py:54-76 | the rows are the header plus the rows of `Combine` |
| CsvGenerator.CombinePresorted | parser/csv_generator.py:70-75 | combining per-statement date-sorted lists gives the same as one stable date sort of all the unsorted lists |
| CsvGenerator.CombineSingleSorted | parser/csv_generator.py:75 | one statement already in date order comes out unchanged |
| PdfParser.RFind | parser/pdf_parser.py:55 | the last index of a character, or -1 iff absent |
| PdfParser.Suffix | parser/pdf_parser.py:55 | a non-empty suffix is a proper ending of the name that starts with its only dot |
| PdfParser.IsPdfName | parser/pdf_parser.py:55-57 | specified by `IsPdfNameMeans` |
| PdfParser.IsPdfNameMeans | parser/pdf_parser.py:55-57 | the suffix check passes iff the name is longer than `.pdf` and ends in `.pdf` in any letter case |
| PdfParser.Assemble | parser/pdf_parser.py:45-94 | Success holds iff there are no errors and at least one transaction. A missing file, a non-PDF name and a read failure each return early with one error. `page_count` is the number of pages. "No content" is raised iff there are no pages at all. Otherwise there are no errors and the transactions are the extractor's output. Warnings are only validation messages and never errors; there are none without a summary, and otherwise they are exactly the validation messages (none iff validation passes) |
| PdfParser.FromPages | parser/pdf_parser.py:59-88 | the file name is kept and the page count is the number of pages |
| PdfParser.Warnings | parser/pdf_parser.py:82-86 | there are no warnings without a summary; with one, they are exactly the validation messages, and there are none iff validation passes |
| PdfParser.CheckSummary | parser/pdf_parser.py:81-86 | the validation step yields exactly `Warnings`: nothing without a summary, otherwise the validation messages when validation fails |
| PdfParser.ReadPages | parser/pdf_parser.py:70-86 | the summary of the joined page texts, the extractor's transactions with an empty error list, and the warnings of their validation |
| PdfParser.Store | parser/pdf_parser.py:72-88 | summary and transactions are set, errors and warnings extended, success decided from the errors and the transactions; the file name and page count are untouched |
| PdfParser.ValidationMessages | parser/pdf_parser.py:82-86 | validation produces only validation messages |
| PdfParser.SuccessIgnoresSummary | parser/pdf_parser.py:82-88 | changing only the page texts, and so the summary and warnings, changes neither success, nor errors, nor transactions |
| PdfParser.WordlessPagesRunNothing | parser/transaction_extractor.py:170-184 | pages without words leave the accumulator at its start |
| PdfParser.WordlessPagesAreContent | parser/pdf_parser.py:62-66 | pages without words still count as pages and give no error, but give no transaction, so the parse does not succeed |
| PdfParser.ParseResult.constructor | parser/pdf_parser.py:17-26 | a new result has the given success and file name, and the default values for every other field |
| PdfParser.Parse | parser/pdf_parser.py:35-94 | the result built step by step is fresh and equals `Assemble` of the document |
| PdfParser.FillFromPages | parser/pdf_parser.py:59-88 | the `try` block fills the result to `FromPages` |
| PdfParser.FillNonEmpty | parser/pdf_parser.py:70-88 | for pages that are not empty, the rest of the `try` block adds no error, sets the summary of the joined page texts and the extractor's transactions, adds the warnings of their validation, and succeeds iff there is a transaction |
| PdfParser.AssembleAll | parser/pdf_parser.py:124-131 | one expected result per document |
| PdfParser.AssembleAllAt | parser/pdf_parser.py:124-131 | the expected result at position `i` is `Assemble` of document `i` |
| PdfParser.ParseMultiple | parser/pdf_parser.py:124-131 | one fresh result per document, in order, the `i`-th equal to `Assemble` of document `i` (through `AssembleAllAt`) |

## Left out

- **PDF reading.** Reading with pdfplumber, the file-existence check and `_extract_words_and_text` are inputs of the model, not part of it. This includes pages without words being appended as empty pages. The model also does not derive the file name from the path (`Path.name`).
- **Exceptions.** The only exception modelled is one raised while reading the pages. The model does not capture an exception in the summary, extraction or validation steps. In Python these could arise only from malformed word records.
- **Floating point.** Amounts are integer pence and the 0.02 tolerance is 2 pence. Float summation error and float formatting are not modelled.
- **Negative amounts.** Negative amounts cannot occur: the amount pattern admits no sign.
- **Line keys.** `round(top, 0)`, with its round-half-to-even on floats, is not modelled; a word's line key `y` is an input integer.
- **Unicode.** Case conversion and digit tests are ASCII. Python's Unicode `upper()`, `lower()`, `isdigit()`, `\d` and `re.IGNORECASE` are not modelled. Whitespace is the full set `str.isspace()` accepts.
- **Summary details.** The summary's optional `statement_start` and `statement_end` are not modelled; the parser never sets them. `Transaction.raw_lines` is not modelled either; it is always empty.
- **Message wording.** Messages are modelled by kind and the numbers they carry, not by their exact wording. Logging is not modelled.
- **CSV writing.** Quoting, escaping and line endings of `csv.DictWriter` are not modelled, nor is writing the file. A CSV is its list of rows of field strings. `GenerateCsv` builds the transaction rows and then puts the header in front. Python writes the header first, and the resulting rows are the same.
- **Unused code.** `DATE_PATTERN` and the `extract_transactions` fallback are not modelled; the core never uses them.
- **Web front end.** `app.py` is not part of this model.
- Amounts.ParseAmount: defined only on texts with the amount shape. Its callers only ever pass such texts; the `0.0` fallback for other texts is not modelled.
- Dates.ParseDateParts: defined only on texts the date column accepts, which is what its one caller passes.
- Records.FormatDate: its digit-group guarantees are stated for years from 1000 on. Every parsed date lies in 1969–2068.
