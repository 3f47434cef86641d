/**
 * The column classifier of `extract_transactions_from_words`: every word of
 * a statement line is put into exactly one bucket by its horizontal position
 * `x` and its text, and a line's words are folded left to right into the
 * fields found on that line (`LineFields`).
 *
 * Column bands, in points from the left edge of the page:
 *   date          x < 100  (written as a literal; `COL_DATE_MAX` is unused)
 *   payment type  100 <= x < 130
 *   description   130 <= x < 350
 *   paid out      350 <= x < 430
 *   paid in       430 <= x < 510
 *   balance       510 <= x
 */
module Columns {
  import opened Wrappers
  import opened Text
  import opened Amounts
  import opened Dates

  /** A word of a page: its text, its left edge `x0` and its line key, the rounded `top`. */
  datatype Token = Token(text: string, x: real, y: int)

  /** HSBC payment type codes, in the order the parser lists them. */
  const PaymentTypes: seq<string> :=
    ["DD", "VIS", "BP", "CR", "SO", "OBP", ")))", "FPO", "FPI", "CHQ", "ATM", "TFR", "INT", "DR", "DL"]

  const PaymentTypeMin: real := 100.0
  const PaymentTypeMax: real := 130.0
  const DescriptionMin: real := 130.0
  const PaidOutMin: real := 350.0
  const PaidOutMax: real := 430.0
  const PaidInMin: real := 430.0
  const PaidInMax: real := 510.0
  const BalanceMin: real := 510.0

  /** The codes upper-cased, as the classifier compares them. */
  function UpperCodes(): (r: seq<string>)
    ensures |r| == |PaymentTypes|
  {
    seq(|PaymentTypes|, i requires 0 <= i < |PaymentTypes| => Upper(PaymentTypes[i]))
  }

  /** Every code is already upper case, so upper-casing the list changes nothing. */
  lemma CodesAreUpper()
    ensures UpperCodes() == PaymentTypes
  {
    forall i | 0 <= i < |PaymentTypes| ensures Upper(PaymentTypes[i]) == PaymentTypes[i] {
      var p := PaymentTypes[i];
      assert |p| <= 3;
      assert forall k :: 0 <= k < |p| ==> !('a' <= p[k] <= 'z');
    }
  }

  predicate IsPaymentCode(text: string) { Upper(text) in UpperCodes() }

  /** The `')))'` fallback of the payment column can never fire: `')))'` is itself a code. */
  lemma ContactlessIsCode()
    ensures IsPaymentCode(")))")
  {
    CodesAreUpper();
    assert Upper(")))") == ")))";
    assert PaymentTypes[6] == ")))";
  }

  datatype Band = PaidOutBand | PaidInBand | BalanceBand

  /** The bucket a word goes into. */
  datatype Role =
    | DatePart
    | PaymentCode(code: string)
    | Amount(band: Band, pence: nat)
    | Description
    | Dropped

  /** The amount column at `x`, for `x` at or right of the paid-out column. */
  function BandAt(x: real): Band
  {
    if x < PaidOutMax then PaidOutBand else if x < PaidInMax then PaidInBand else BalanceBand
  }

  /**
   * The bucket of word `t` when `datePartsSoFar` date parts were already
   * found on its line. The third date branch and the `')))'` branch are kept
   * as the parser writes them, although neither can be taken.
   */
  function Classify(t: Token, datePartsSoFar: nat): (r: Role)
    ensures r.DatePart? <==> t.x < 100.0 && IsDatePartText(t.text)
    ensures r.PaymentCode? <==> PaymentTypeMin <= t.x < PaymentTypeMax && IsPaymentCode(t.text)
    ensures r.PaymentCode? ==> r.code == Upper(t.text) && r.code in PaymentTypes
    ensures r.Amount? <==> PaidOutMin <= t.x && MatchesAmountPattern(t.text)
    ensures r.Amount? ==> r.band == BandAt(t.x) && r.pence == ParseAmount(t.text)
    ensures r.Description? <==>
      (PaymentTypeMin <= t.x < PaymentTypeMax && !IsPaymentCode(t.text)) || (DescriptionMin <= t.x < PaidOutMin)
    ensures r.Dropped? <==>
      (t.x < 100.0 && !IsDatePartText(t.text)) || (PaidOutMin <= t.x && !MatchesAmountPattern(t.text))
  {
    CodesAreUpper();
    ContactlessIsCode();
    var text := t.text;
    if t.x < 100.0 then
      if IsDigitString(text) && |text| <= 2 then DatePart
      else if text in MonthAbbreviations then DatePart
      else if IsDigitString(text) && |text| == 2 && datePartsSoFar == 2 then DatePart
      else Dropped
    else if PaymentTypeMin <= t.x < PaymentTypeMax then
      if IsPaymentCode(text) then PaymentCode(Upper(text))
      else if text == ")))" then PaymentCode(")))")
      else Description
    else if MatchesAmountPattern(text) then
      var amount := ParseAmount(text);
      if PaidOutMin <= t.x < PaidOutMax then Amount(PaidOutBand, amount)
      else if PaidInMin <= t.x < PaidInMax then Amount(PaidInBand, amount)
      else if t.x >= BalanceMin then Amount(BalanceBand, amount)
      else Description
    else if DescriptionMin <= t.x < PaidOutMin then Description
    else Dropped
  }

  /** What one line contributes: the per-line scratch variables of the parser. */
  datatype LineFields = LineFields(
    dateParts: seq<string>,
    paymentType: Option<string>,
    description: seq<string>,
    paidOut: Option<nat>,
    paidIn: Option<nat>,
    balance: Option<nat>)

  const NoFields: LineFields := LineFields([], None, [], None, None, None)

  predicate WellFormedFields(f: LineFields) {
    && (forall i :: 0 <= i < |f.dateParts| ==> IsDatePartText(f.dateParts[i]))
    && (f.paymentType.Some? ==> f.paymentType.value in PaymentTypes)
  }

  /** The amount slot of a band. */
  function AmountIn(f: LineFields, b: Band): Option<nat>
  {
    match b
    case PaidOutBand => f.paidOut
    case PaidInBand => f.paidIn
    case BalanceBand => f.balance
  }

  /** Puts word `t` into its bucket; a later amount or code overwrites an earlier one. */
  function AddToken(f: LineFields, t: Token): LineFields
  {
    match Classify(t, |f.dateParts|)
    case DatePart => f.(dateParts := f.dateParts + [t.text])
    case PaymentCode(code) => f.(paymentType := Some(code))
    case Amount(band, pence) =>
      (match band
       case PaidOutBand => f.(paidOut := Some(pence))
       case PaidInBand => f.(paidIn := Some(pence))
       case BalanceBand => f.(balance := Some(pence)))
    case Description => f.(description := f.description + [t.text])
    case Dropped => f
  }

  /** The fields of a line whose words, in ascending `x`, are `words`. */
  function FieldsOf(words: seq<Token>): (f: LineFields)
    ensures WellFormedFields(f)
  {
    if words == [] then NoFields
    else AddToken(FieldsOf(words[..|words| - 1]), words[|words| - 1])
  }

  // Reference definitions of the buckets, independent of the fold.

  predicate IsDateToken(t: Token) { t.x < 100.0 && IsDatePartText(t.text) }

  predicate IsDescriptionToken(t: Token) {
    (PaymentTypeMin <= t.x < PaymentTypeMax && !IsPaymentCode(t.text)) || (DescriptionMin <= t.x < PaidOutMin)
  }

  predicate IsCodeToken(t: Token) { PaymentTypeMin <= t.x < PaymentTypeMax && IsPaymentCode(t.text) }

  predicate IsAmountToken(t: Token, b: Band) {
    PaidOutMin <= t.x && MatchesAmountPattern(t.text) && BandAt(t.x) == b
  }

  /** The texts of the words satisfying `p`, in order. */
  function TextsWhere(words: seq<Token>, p: Token -> bool): (r: seq<string>)
    ensures |r| <= |words|
  {
    if words == [] then []
    else TextsWhere(words[..|words| - 1], p) + (if p(words[|words| - 1]) then [words[|words| - 1].text] else [])
  }

  /** One word changes the slot of band `b` only when it is an amount of that band. */
  lemma AddTokenAmount(f: LineFields, t: Token, b: Band)
    ensures AmountIn(AddToken(f, t), b) == if IsAmountToken(t, b) then Some(ParseAmount(t.text)) else AmountIn(f, b)
  {
    var r := Classify(t, |f.dateParts|);
    if r.Amount? {
      assert r.band == BandAt(t.x);
    }
  }

  /** One word changes the payment type only when it is a code. */
  lemma AddTokenCode(f: LineFields, t: Token)
    ensures AddToken(f, t).paymentType == if IsCodeToken(t) then Some(Upper(t.text)) else f.paymentType
  {
    var r := Classify(t, |f.dateParts|);
  }

  /** Word `i` is the last of `words` that is an amount of band `b`. */
  predicate LastAmountAt(words: seq<Token>, b: Band, i: int) {
    && 0 <= i < |words|
    && IsAmountToken(words[i], b)
    && forall j :: i < j < |words| ==> !IsAmountToken(words[j], b)
  }

  /** Word `i` is the last of `words` that is a payment code. */
  predicate LastCodeAt(words: seq<Token>, i: int) {
    && 0 <= i < |words|
    && IsCodeToken(words[i])
    && forall j :: i < j < |words| ==> !IsCodeToken(words[j])
  }

  /**
   * The date parts and the description words of a line are its date-column
   * and description words in order; every other word is not among them.
   */
  lemma {:induction false} FieldsOfTexts(words: seq<Token>)
    ensures FieldsOf(words).dateParts == TextsWhere(words, IsDateToken)
    ensures FieldsOf(words).description == TextsWhere(words, IsDescriptionToken)
  {
    if words != [] {
      FieldsOfTexts(words[..|words| - 1]);
    }
  }

  /**
   * Last write wins: an amount slot holds the amount of the last word of its
   * band, and is `None` exactly when the line has no such word.
   */
  lemma {:induction false} FieldsOfAmount(words: seq<Token>, b: Band)
    ensures AmountIn(FieldsOf(words), b).None? <==> forall j :: 0 <= j < |words| ==> !IsAmountToken(words[j], b)
    ensures AmountIn(FieldsOf(words), b).Some? ==>
      exists i :: LastAmountAt(words, b, i) && AmountIn(FieldsOf(words), b).value == ParseAmount(words[i].text)
  {
    NoAmountMeans(words, b);
    if AmountIn(FieldsOf(words), b).Some? {
      var i := LastAmount(words, b);
    }
  }

  /** The slot of band `b` after one more word, in terms of the slot before it. */
  lemma AmountSnoc(init: seq<Token>, t: Token, b: Band)
    ensures AmountIn(FieldsOf(init + [t]), b)
      == if IsAmountToken(t, b) then Some(ParseAmount(t.text)) else AmountIn(FieldsOf(init), b)
  {
    assert (init + [t])[..|init|] == init;
    AddTokenAmount(FieldsOf(init), t, b);
  }

  lemma {:induction false} NoAmountMeans(words: seq<Token>, b: Band)
    ensures AmountIn(FieldsOf(words), b).None? <==> forall j :: 0 <= j < |words| ==> !IsAmountToken(words[j], b)
  {
    if words != [] {
      var init := words[..|words| - 1];
      NoAmountMeans(init, b);
      assert words == init + [words[|words| - 1]];
      AmountSnoc(init, words[|words| - 1], b);
      assert forall j :: 0 <= j < |init| ==> words[j] == init[j];
    }
  }

  lemma {:induction false} LastAmount(words: seq<Token>, b: Band) returns (i: int)
    requires AmountIn(FieldsOf(words), b).Some?
    ensures LastAmountAt(words, b, i) && AmountIn(FieldsOf(words), b).value == ParseAmount(words[i].text)
  {
    var init := words[..|words| - 1];
    assert words == init + [words[|words| - 1]];
    AmountSnoc(init, words[|words| - 1], b);
    if IsAmountToken(words[|words| - 1], b) {
      i := |words| - 1;
    } else {
      i := LastAmount(init, b);
      assert forall j :: 0 <= j < |init| ==> words[j] == init[j];
    }
  }

  /** The payment type after one more word, in terms of the one before it. */
  lemma CodeSnoc(init: seq<Token>, t: Token)
    ensures FieldsOf(init + [t]).paymentType == if IsCodeToken(t) then Some(Upper(t.text)) else FieldsOf(init).paymentType
  {
    assert (init + [t])[..|init|] == init;
    AddTokenCode(FieldsOf(init), t);
  }

  /** Likewise the payment type is the upper-cased text of the line's last code word. */
  lemma {:induction false} FieldsOfPaymentType(words: seq<Token>)
    ensures FieldsOf(words).paymentType.None? <==> forall j :: 0 <= j < |words| ==> !IsCodeToken(words[j])
    ensures FieldsOf(words).paymentType.Some? ==>
      exists i :: LastCodeAt(words, i) && FieldsOf(words).paymentType.value == Upper(words[i].text)
  {
    if words != [] {
      var init := words[..|words| - 1];
      var last := words[|words| - 1];
      FieldsOfPaymentType(init);
      assert words == init + [last];
      CodeSnoc(init, last);
      assert forall j :: 0 <= j < |init| ==> words[j] == init[j];
      if IsCodeToken(last) {
        assert LastCodeAt(words, |words| - 1);
      } else if FieldsOf(words).paymentType.Some? {
        var i :| LastCodeAt(init, i) && FieldsOf(init).paymentType.value == Upper(init[i].text);
        assert LastCodeAt(words, i);
      }
    }
  }
}
