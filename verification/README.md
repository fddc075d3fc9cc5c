# Banamex statement converter: a Dafny model of its core

`main.py` reads a bank-statement spreadsheet and redraws it as a PDF laid out
like a Banamex statement. This project models the core of that process in
Dafny and proves properties of the model:

- **Cell cleaning** (`Normalize`). `banear_nan_completamente` blanks a text
  cell that is missing, blank, or a missing-value spelling ("nan", "none",
  "null", "na", "<na>", "n/a" in any letter case). Otherwise it returns the
  cell stripped. `limpiar_numero` turns an amount into a number, or into
  `None` when the cell is missing, does not parse, or is zero.
- **Spreadsheet parsing** (`Excel`). `parse_excel` renames the five columns
  and builds one record per row, in row order. It then builds the data frame
  the PDF loop reads. In that frame a missing amount is NaN in a column that
  holds some number, and `None` in a column that holds none.
- **The drawing filter** (`AntiNan`). `filtro_anti_nan` blanks a whole-value
  spelling. Otherwise it deletes every occurrence of the lower-case, UPPER-CASE
  and Capitalised form of each spelling, one token after another, and strips
  the result.
- **Page geometry** (`Geometry`). The column boundaries, the column widths
  derived from them, and the row height derived from the page height, the
  bottom margin and 51 rows per page.
- **The PDF object** (`Pdf`). `BanamexPDF` is the class `StatementPdf`. It
  keeps the page counter, the row counters, and a ghost log of every row
  drawn: page, slot, band colour, top edge and cell texts. `Render` is the
  application's drawing loop: one `add_page()`, then `add_row` for every
  frame row.

`Text` holds the string operations these rely on. These are Python's
`strip()` with its whitespace set, ASCII `lower`/`upper`/`capitalize`, and
`str.replace(p, '')` as one left-to-right pass. `Wrappers` holds `Option` and
`Result`.

Some facts about the code as written come out of the proofs. They are
behaviour the model reproduces, not corrections:

- The top of the 51st row sits exactly on the bottom margin, so its band
  reaches one row height into the margin (`Geometry.RowTopWithinPage`).
- The header band overlaps the first data row (`Geometry.HeaderOverlapsFirstRow`).
- The filter removes substrings, so "Canada" is drawn as "Cada".
- One pass of the filter can leave a spelling behind. "nnaa" becomes "na"
  after one pass, and the second filter call in `add_row` (main.py:186)
  blanks it.
- Two passes are still not enough for every input. "nnnaaa" becomes "nnaa",
  then "na", and the cell is drawn as "na".

Three behaviours of the code are worth stating, because a reader might expect
otherwise. The model follows the code in each:

- Amounts are parsed with `float()` only. There is no thousands-separator
  form.
- The cell cleaner blanks whole values only. The drawing filter removes
  substrings and does not collapse the spaces left around a removed token:
  "SALDO nan ANTERIOR" becomes "SALDO  ANTERIOR".
- There is no row grouping: each spreadsheet row becomes one record.

## Model

| member | source | states |
|---|---|---|
| Text.Trim | main.py:33 | `strip()`: the result has no whitespace at either end and is no longer than the input |
| Text.TrimDropsSpace | main.py:33 | `strip()` keeps a contiguous slice of its input and removes only whitespace on either side of it |
| Text.TrimIdempotent | main.py:33 | stripping twice is stripping once |
| Text.Lower | main.py:39 | `lower()` keeps the length |
| Text.LowerAsciiOnly | main.py:39 | `lower()` maps each character on its own; no letter A to Z is left, and only those letters change |
| Text.Upper | main.py:155 | `upper()` keeps the length |
| Text.UpperAsciiOnly | main.py:155 | `upper()` maps each character on its own; no letter a to z is left, and only those letters change |
| Text.Capitalize | main.py:156 | `capitalize()` keeps the length |
| Text.CapitalizeAsciiOnly | main.py:156 | `capitalize()` upper-cases the first character and lower-cases the rest |
| Text.RemoveAll | main.py:154 | `replace(p, '')` never lengthens the string |
| Text.RemoveAllShortensIffContains | main.py:154-156 | `replace(p, '')` shortens the string exactly when `p` occurs in it |
| Text.RemoveAllAbsent | main.py:154-156 | `replace(p, '')` leaves a string without `p` unchanged |
| Normalize.IsSentinel | main.py:36-39 | the lower-cased text is one of the six spellings, so a spelling is 2 to 4 characters long |
| Normalize.NormalizeText | main.py:26-46 | the result is `''` exactly when the cell is missing, blank, or a spelling in any case; otherwise it is the stripped text; it is always stripped and never a spelling |
| Normalize.NormalizeTextIdempotent | main.py:26-46 | cleaning an already cleaned text changes nothing |
| Normalize.NormalizeBlanksAnyCase | main.py:36-40 | "NaN" and "N/A" are blanked, because the comparison is on the lower-cased text |
| Normalize.CleanAmount | main.py:48-59 | an amount is present exactly when the cell is present, parses, and is non-zero; it then equals the parsed number, so it is never 0 |
| Normalize.CleanAmountIdempotent | main.py:48-59 | cleaning a cleaned amount again gives the same amount |
| Excel.RecordOf | main.py:67-81 | every record is clean: stripped texts that are never spellings, amounts never 0; a non-blank text is the stripped cell text |
| Excel.RecordsOf | main.py:67-81 | one record per row, and every record is clean |
| Excel.ParseExcel | main.py:62-83 | fails exactly when the sheet does not have five columns; otherwise returns one frame row per sheet row, in order, each the cleaned copy of its sheet row |
| Excel.Cell | main.py:83 | a frame cell stands for the cleaned amount; it is NaN exactly when the amount is missing and the column is numeric |
| Excel.ToFrame | main.py:83 | the frame has one row per record |
| Excel.ToFrameKeepsRecords | main.py:83 | the frame keeps each record's texts and amounts; a missing amount is NaN exactly when some record has a number in that column |
| AntiNan.RemoveForms | main.py:154-156 | one turn of the loop, removing the lower, UPPER and Capitalised form of a token, never lengthens the text |
| AntiNan.RemoveTokens | main.py:153-156 | the whole loop over the tokens never lengthens the text |
| AntiNan.Filtered | main.py:138-158 | an empty or whole-value spelling gives `''`; any result is stripped and no longer than the stripped input |
| AntiNan.AntiNanFilter | main.py:138-158 | the loop over the six spellings returns `Filtered(text)` |
| AntiNan.FilteredUntouched | main.py:152-158 | only the eighteen listed forms are removed: a text that holds none of them comes back stripped and otherwise unchanged |
| AntiNan.InListOrder | main.py:153-156 | the spellings are removed in list order, each in lower, UPPER, then Capitalised form |
| AntiNan.RemoveTokensAbsent | main.py:153-156 | removing tokens none of whose forms occur changes nothing |
| AntiNan.WholeSpellingBlanked | main.py:148-150 | a stripped whole-value spelling, in any letter case, is blanked |
| AntiNan.FilteredOfClean | main.py:143-158 | a non-blank stripped text that is not a spelling goes through the removal loop only |
| AntiNanExamples.FilterCanada | main.py:153-156 | "Canada" is drawn as "Cada": the filter removes substrings |
| AntiNanExamples.FilterKeepsMixedCase | main.py:153-156 | "nAnA" passes unchanged: mixed-case forms are not removed |
| AntiNanExamples.FilterBlanksWholeMixedCase | main.py:148-150 | "nAn" as a whole value is blanked: the whole-value check ignores case |
| AntiNanExamples.SecondPassNotRedundant | main.py:171-186 | "nnaa" filters to the spelling "na", which the second pass blanks |
| AntiNanExamples.TwoPassesCanLeaveSpelling | main.py:171-186 | "nnnaaa" filters to "nnaa" and then to "na", a spelling that is still drawn |
| Geometry.ColumnWidths | main.py:12-16 | each column reaches exactly to the next boundary, and the last one to the band's right edge |
| Geometry.WidthsPositiveIffIncreasing | main.py:15-16 | all widths are positive exactly when the boundaries increase strictly up to the right edge |
| Geometry.ColumnWidthsPositive | main.py:12-16 | the statement's five columns all have positive width, and the band starts left of the first column |
| Geometry.RowHeightFor | main.py:23 | the top of row `ROWS_PAGE` lies exactly `ROWS_PAGE - 1` row heights below the first row, on the bottom margin |
| Geometry.RowHeightBounds | main.py:19-23 | the row height is positive and smaller than the bottom margin |
| Geometry.RowTopWithinPage | main.py:180 | every slot's top lies between the first row and the bottom margin, and its band ends on the page; the last slot's top is on the margin |
| Geometry.RowsAbut | main.py:180 | consecutive slots are exactly one row height apart |
| Geometry.HeaderOverlapsFirstRow | main.py:116-130 | the header band starts above the first data row and ends below that row's top |
| Pdf.BandFill | main.py:165-168 | the band is white exactly when the global row index is even |
| Pdf.AfterHeader | main.py:96-130 | the header adds one page and empties it, leaving the global row count alone |
| Pdf.BeforeRow | main.py:161-162 | after the page-break check the page has room (fewer than 51 rows); the break adds at most one page, and no break means no change |
| Pdf.AfterRow | main.py:160-192 | after `add_row` the page holds 1 to 51 rows, the global count is one more, and at most one page was added |
| Pdf.AfterRows | main.py:221-226 | after `add_page()` and `n` rows: at least one page, at most 51 rows on the current page (at least 1 once a row is drawn), and `n` rows in all |
| Pdf.PageCount | main.py:221-226 | the page count is at least 1 and, for `n >= 1` rows, the least number of 51-row pages that holds them |
| Pdf.AmountText | main.py:174-176 | a present amount is formatted, a None amount is `''`, and a NaN amount formats to `'nan'` |
| Pdf.PlacementAt | main.py:164-180 | row `i` goes on a page numbered from 1, in a slot below 51, white exactly on even `i`, with its top between the first row and the bottom margin |
| Pdf.Layout | main.py:225-226 | the rows of a document are placed one per frame row |
| Pdf.LayoutPointwise | main.py:225-226 | the `i`-th placement of a document is `PlacementAt(i, _)`, showing frame row `i` |
| Pdf.BandingAlternates | main.py:164-168 | a row is white exactly when its global index is even, and consecutive rows differ |
| Pdf.AfterRowsClosedForm | main.py:160-192 | after `n >= 1` rows the page counter is `(n-1) div 51 + 1` and the current page holds `(n-1) mod 51 + 1` rows |
| Pdf.RowsInPageBounds | main.py:160-192 | after every `add_row` the current page holds between 1 and 51 rows |
| Pdf.RowSlot | main.py:160-180 | row `i` goes on page `i div 51 + 1`, in slot `i mod 51` |
| Pdf.PageBreakWhenFull | main.py:160-162 | `add_row` starts a page exactly when the current one holds 51 rows, which happens exactly before rows 51, 102, ... |
| Pdf.PagesForRows | main.py:221-226 | drawing `n` rows ends on page `ceil(n / 51)` (one page when `n` is 0), the least that holds them |
| Pdf.MissingAmountDrawnBlank | main.py:171-186 | a missing amount, stored as None or as NaN, is drawn as an empty cell |
| Pdf.DrawnAllPointwise | main.py:183-186 | each cell shows its own value filtered twice, whatever the other cells hold |
| Pdf.FilterEach | main.py:171-186 | one pass of the filter over a row's values, in column order, gives each value filtered |
| Pdf.RowPlacement | main.py:160-180 | the page, slot, colour and top edge `add_row` uses for the row after `i` others are those of `PlacementAt(i, _)` |
| Pdf.BandingAcrossPages | main.py:164-168 | banding runs on across page breaks: the first row of page 2 is grey |
| Pdf.PlacedOnPage | main.py:180 | row `i`'s top is `Y_DATA_1 + (i mod 51) * ROW_H` and lies between the first row and the bottom margin |
| Pdf.StatementPdf.constructor | main.py:87-94 | a new document has no page and no row |
| Pdf.StatementPdf.Header | main.py:96-130 | the header counts one more page and empties it; the global row counter is unchanged |
| Pdf.StatementPdf.AddPage | main.py:160-162 | starting a page runs the header |
| Pdf.StatementPdf.PlaceRow | main.py:160-192 | breaks the page when it is full, then logs the row at the page's next slot with the colour of the global parity; afterwards the page holds 1 to 51 rows |
| Pdf.StatementPdf.AddRow | main.py:160-192 | as `PlaceRow`, with the cells being the five values, amounts formatted, each filtered twice |
| Pdf.Render | main.py:221-226 | drawing a frame logs exactly its `Layout`: row `i` sits at `PlacementAt(i, _)` showing its values filtered twice, and the page counter equals `PageCount(n)`: `ceil(n / 51)`, and 1 for an empty frame |

## Left out

- The Streamlit interface, file upload, `pd.read_excel`, the preview table, `pdf.output` and the download are I/O and are not modelled. `Render` takes the frame as its input.
- The FPDF drawing calls (fonts, cells, lines, fill colours, the title, client and page-number texts, the footer) are not modelled. The model records what each row is drawn with, not the drawing itself.
- `float()` is a parameter of the model: a present cell carries the outcome of `float(value)`.
- Normalize.CleanAmount: does not model that `float()` accepts the texts "nan" and "inf", which would pass through as NaN or infinity, because floating point is not modelled.
- The `,.2f` amount formatting is a parameter (`format`) of `StatementPdf` and `Render`.
- Case mapping is ASCII only. Python's `lower`, `upper` and `capitalize` also map non-ASCII letters, and the spellings themselves are ASCII.
- Pandas dtypes beyond the None/NaN choice for missing amounts are not modelled, including dates read as timestamps and `str()` of non-string cells (the text is an input).
- Pdf.StatementPdf.AddRow: filters the values before the page-break check, whereas `add_row` filters after it. The filter reads and writes no state, so what is drawn is the same.
- Pdf.StatementPdf.PlaceRow: requires that a page has been started, because `rows_in_page` only exists once `header()` has run; `add_row` before `add_page()` raises AttributeError in the source.
- `set_auto_page_break(False)` is taken as given: pages start only through `add_page()`.
