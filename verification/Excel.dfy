/**
 * `parse_excel` (main.py): one record per spreadsheet row, in row order, with
 * the two text columns and the three amount columns cleaned.
 */
module Excel {
  import opened Wrappers
  import opened Text
  import opened Normalize

  /** The names the five columns are given, by position. */
  const ColumnNames: seq<string> := ["FECHA", "CONCEPTO", "RETIROS", "DEPOSITOS", "SALDO"]

  /** A data frame: the number of columns and the rows, each a list of cells. */
  datatype Sheet = Sheet(width: nat, rows: seq<seq<RawField>>)

  /** Every row of a data frame has one cell per column. */
  predicate Rectangular(sheet: Sheet) {
    forall i :: 0 <= i < |sheet.rows| ==> |sheet.rows[i]| == sheet.width
  }

  /** One statement line: date, description, withdrawal, deposit, balance. */
  datatype Record = Record(
    date: string,
    concept: string,
    withdrawals: Option<real>,
    deposits: Option<real>,
    balance: Option<real>)

  /**
   * An amount as the data frame built from the records stores it: a number,
   * NaN (a missing amount in a column that holds some number, which pandas
   * stores as floats) or None (a missing amount in a column with no number).
   */
  datatype AmountCell = NoAmount | NotANumber | Amount(value: real)

  /** A row of the data frame `pd.DataFrame(parsed)`. */
  datatype FrameRow = FrameRow(
    date: string,
    concept: string,
    withdrawals: AmountCell,
    deposits: AmountCell,
    balance: AmountCell)

  /** Renaming the columns of a frame that does not have five raises ValueError. */
  datatype ParseError = ColumnCountMismatch(expected: nat, found: nat)

  /** What every cleaned text cell is: trimmed and never a missing-value spelling. */
  predicate CleanText(s: string) {
    Trimmed(s) && !IsSentinel(s)
  }

  /** What every cleaned amount is: absent or a non-zero number. */
  predicate CleanNumber(a: Option<real>) {
    a != Some(0.0)
  }

  predicate WellFormed(r: Record) {
    && CleanText(r.date) && CleanText(r.concept)
    && CleanNumber(r.withdrawals) && CleanNumber(r.deposits) && CleanNumber(r.balance)
  }

  /** The record built from one row (the body of the loop in `parse_excel`). */
  function RecordOf(row: seq<RawField>): (r: Record)
    requires |row| == |ColumnNames|
    ensures WellFormed(r)
    ensures r.date != "" ==> row[0].Present? && r.date == Trim(row[0].text)
    ensures r.concept != "" ==> row[1].Present? && r.concept == Trim(row[1].text)
  {
    Record(
      NormalizeText(row[0]),
      NormalizeText(row[1]),
      CleanAmount(row[2]),
      CleanAmount(row[3]),
      CleanAmount(row[4]))
  }

  /**
   * `parse_excel`: fails exactly when the frame does not have five columns;
   * otherwise returns the frame of the records built row by row.
   */
  method ParseExcel(sheet: Sheet) returns (r: Result<seq<FrameRow>, ParseError>)
    requires Rectangular(sheet)
    ensures r.Failure? <==> sheet.width != |ColumnNames|
    ensures r.Failure? ==> r.error == ColumnCountMismatch(|ColumnNames|, sheet.width)
    ensures r.Success? ==> r.value == ToFrame(RecordsOf(sheet.rows))
    ensures r.Success? ==> |r.value| == |sheet.rows|
    ensures r.Success? ==> forall i :: 0 <= i < |sheet.rows| ==> Mirrors(r.value[i], sheet.rows[i])
  {
    if sheet.width != |ColumnNames| {
      return Failure(ColumnCountMismatch(|ColumnNames|, sheet.width));
    }
    var parsed: seq<Record> := [];
    var i := 0;
    while i < |sheet.rows|
      invariant 0 <= i <= |sheet.rows|
      invariant |parsed| == i
      invariant forall j :: 0 <= j < i ==> parsed[j] == RecordOf(sheet.rows[j])
    {
      var row := sheet.rows[i];
      var date := NormalizeText(row[0]);
      var concept := NormalizeText(row[1]);
      var withdrawals := CleanAmount(row[2]);
      var deposits := CleanAmount(row[3]);
      var balance := CleanAmount(row[4]);
      parsed := parsed + [Record(date, concept, withdrawals, deposits, balance)];
      i := i + 1;
    }
    assert parsed == RecordsOf(sheet.rows);
    return Success(ToFrame(parsed));
  }

  /**
   * Frame row `fr` is row `row` cleaned field by field: the cleaned texts, and
   * the cleaned amounts (never zero) stored as frame cells.
   */
  predicate Mirrors(fr: FrameRow, row: seq<RawField>)
    requires |row| == |ColumnNames|
  {
    && fr.date == NormalizeText(row[0]) && CleanText(fr.date)
    && fr.concept == NormalizeText(row[1]) && CleanText(fr.concept)
    && AmountOf(fr.withdrawals) == CleanAmount(row[2]) && CleanNumber(AmountOf(fr.withdrawals))
    && AmountOf(fr.deposits) == CleanAmount(row[3]) && CleanNumber(AmountOf(fr.deposits))
    && AmountOf(fr.balance) == CleanAmount(row[4]) && CleanNumber(AmountOf(fr.balance))
  }

  /** The amount a frame cell stands for. */
  function AmountOf(c: AmountCell): Option<real> {
    if c.Amount? then Some(c.value) else None
  }

  /**
   * How one amount of a column is stored, given whether the column holds any
   * number: a missing amount is NaN in a numeric column and stays None otherwise.
   */
  function Cell(a: Option<real>, numericColumn: bool): (c: AmountCell)
    ensures AmountOf(c) == a
    ensures c.NotANumber? <==> a.None? && numericColumn
  {
    match a
    case Some(v) => Amount(v)
    case None => if numericColumn then NotANumber else NoAmount
  }

  /** Some record has a number in the column that `pick` selects. */
  predicate AnyNumber(records: seq<Record>, pick: Record -> Option<real>) {
    exists i :: 0 <= i < |records| && pick(records[i]).Some?
  }

  function Withdrawals(r: Record): Option<real> { r.withdrawals }
  function Deposits(r: Record): Option<real> { r.deposits }
  function Balance(r: Record): Option<real> { r.balance }

  /** One frame row, given which amount columns are numeric. */
  function FrameRowOf(r: Record, withdrawalsNumeric: bool, depositsNumeric: bool, balanceNumeric: bool): FrameRow {
    FrameRow(r.date, r.concept, Cell(r.withdrawals, withdrawalsNumeric),
             Cell(r.deposits, depositsNumeric), Cell(r.balance, balanceNumeric))
  }

  /** `pd.DataFrame(parsed)`: one frame row per record, amounts stored column by column. */
  function ToFrame(records: seq<Record>): (frame: seq<FrameRow>)
    ensures |frame| == |records|
  {
    var withdrawalsNumeric := AnyNumber(records, Withdrawals);
    var depositsNumeric := AnyNumber(records, Deposits);
    var balanceNumeric := AnyNumber(records, Balance);
    seq(|records|, i requires 0 <= i < |records| =>
      FrameRowOf(records[i], withdrawalsNumeric, depositsNumeric, balanceNumeric))
  }

  /**
   * The frame keeps every record's texts and amounts; a missing amount shows
   * up as NaN exactly when another record has a number in that column.
   */
  lemma ToFrameKeepsRecords(records: seq<Record>, i: nat)
    requires i < |records|
    ensures var fr := ToFrame(records)[i];
      && fr.date == records[i].date
      && fr.concept == records[i].concept
      && AmountOf(fr.withdrawals) == records[i].withdrawals
      && AmountOf(fr.deposits) == records[i].deposits
      && AmountOf(fr.balance) == records[i].balance
      && (fr.withdrawals.NotANumber? <==> records[i].withdrawals.None? && AnyNumber(records, Withdrawals))
      && (fr.deposits.NotANumber? <==> records[i].deposits.None? && AnyNumber(records, Deposits))
      && (fr.balance.NotANumber? <==> records[i].balance.None? && AnyNumber(records, Balance))
  {
  }

  /** The records `parse_excel` builds, one per row. */
  function RecordsOf(rows: seq<seq<RawField>>): (records: seq<Record>)
    requires forall i :: 0 <= i < |rows| ==> |rows[i]| == |ColumnNames|
    ensures |records| == |rows|
    ensures forall i :: 0 <= i < |rows| ==> WellFormed(records[i])
  {
    seq(|rows|, i requires 0 <= i < |rows| => RecordOf(rows[i]))
  }
}
