/** The download tab: the filtered rows without the source-file tag, always
    offered as delimited text, and as a spreadsheet only when they fit in
    one sheet. The byte encodings themselves are library code and are not
    part of this model. */
module Export {
  import opened Basics
  import opened Records

  /** The most rows a spreadsheet sheet can hold (`EXCEL_MAX_ROWS`). */
  const SpreadsheetMaxRows: nat := 1048576

  /** A row as it is downloaded: every column of the table except
      `_source_file`. */
  datatype ExportRow = ExportRow(
    country: string,
    service: string,
    volume: int,
    trx: int,
    customer: Option<string>,
    month: string,
    cohort: string)

  /** `drop(columns=['_source_file'])` on one row. */
  function Strip(r: Record): ExportRow
  {
    ExportRow(r.country, r.service, r.volume, r.trx, r.customer, r.month, r.cohort)
  }

  /** Puts a source-file tag back on a downloaded row. */
  function Retag(e: ExportRow, source: string): Record
  {
    Record(e.country, e.service, e.volume, e.trx, e.customer, e.month, e.cohort, source)
  }

  /** Dropping the tag loses nothing else: putting the same tag back gives
      the original row. */
  lemma StripRetag(r: Record)
    ensures Retag(Strip(r), r.source) == r
  {
  }

  /** The downloaded table: its optional columns and its rows. */
  datatype Sheet = Sheet(schema: Schema, rows: seq<ExportRow>)

  /** `download_df`: the filtered rows, in order, without the tag. */
  function Download(t: Table): (d: Sheet)
    ensures d.schema == t.schema
    ensures |d.rows| == |t.rows|
    ensures forall i :: 0 <= i < |t.rows| ==> Retag(d.rows[i], t.rows[i].source) == t.rows[i]
  {
    Sheet(t.schema, seq(|t.rows|, i requires 0 <= i < |t.rows| => Strip(t.rows[i])))
  }

  /** Two rows that differ only in their source file download the same. */
  lemma TagIgnored(a: Record, b: Record)
    requires a.(source := b.source) == b
    ensures Strip(a) == Strip(b)
  {
  }

  /** The two download buttons: the delimited-text file is always offered;
      the spreadsheet is `None` when the rows exceed one sheet and a warning
      is shown instead. */
  datatype Downloads = Downloads(delimited: Sheet, spreadsheet: Option<Sheet>)

  /** The lines a sheet takes up: `to_excel` writes a header line above
      the rows. */
  function SheetLines(d: Sheet): nat
  {
    |d.rows| + 1
  }

  /** The gate as written, `len(download_df) > EXCEL_MAX_ROWS`: it counts
      the rows but not the header line. */
  function PlanExportAsWritten(t: Table): (d: Downloads)
    ensures d.delimited == Download(t)
    ensures d.spreadsheet.Some? <==> |t.rows| <= SpreadsheetMaxRows
    ensures d.spreadsheet.Some? ==> d.spreadsheet.value == d.delimited
  {
    var sheet := Download(t);
    if |sheet.rows| > SpreadsheetMaxRows then Downloads(sheet, None)
    else Downloads(sheet, Some(sheet))
  }

  /** With exactly as many rows as a sheet has lines, the gate as written
      offers a spreadsheet that needs one line more than a sheet has. */
  lemma HeaderOverflow(t: Table)
    requires |t.rows| == SpreadsheetMaxRows
    ensures PlanExportAsWritten(t).spreadsheet.Some?
    ensures SheetLines(PlanExportAsWritten(t).spreadsheet.value) == SpreadsheetMaxRows + 1
  {
  }

  /** The gate with the header line counted: the spreadsheet is offered
      exactly when the header and the rows fit in one sheet. */
  function PlanExport(t: Table): (d: Downloads)
    ensures d.delimited == Download(t)
    ensures d.spreadsheet.Some? <==> SheetLines(d.delimited) <= SpreadsheetMaxRows
    ensures d.spreadsheet.Some? ==> d.spreadsheet.value == d.delimited
  {
    var sheet := Download(t);
    if SheetLines(sheet) > SpreadsheetMaxRows then Downloads(sheet, None)
    else Downloads(sheet, Some(sheet))
  }

  /** The spreadsheet, when offered, fits in one sheet with its header. */
  lemma SpreadsheetFits(t: Table)
    requires PlanExport(t).spreadsheet.Some?
    ensures SheetLines(PlanExport(t).spreadsheet.value) <= SpreadsheetMaxRows
  {
  }

  /** The two gates differ only for a table of exactly one sheet's worth of
      rows. */
  lemma GatesAgree(t: Table)
    ensures |t.rows| != SpreadsheetMaxRows <==> PlanExport(t) == PlanExportAsWritten(t)
  {
  }
}
