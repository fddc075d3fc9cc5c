/**
 * `BanamexPDF` (main.py): the page and row counters that decide where each
 * statement row is drawn, and the loop that draws a whole frame. Drawing
 * calls are not modelled; what `add_row` draws for a row is kept in a ghost
 * log of placements (page, slot, band colour, top edge, cell texts).
 */
module Pdf {
  import opened Wrappers
  import opened Text
  import opened Normalize
  import opened Excel
  import opened AntiNan
  import opened Geometry

  /** The two band colours: white (255, 255, 255) and grey (191, 191, 191). */
  datatype Fill = White | Gray

  /** The colour `add_row` picks from the global row counter. */
  function BandFill(rowGlobal: nat): (f: Fill)
    ensures f == White <==> rowGlobal % 2 == 0
  {
    if rowGlobal % 2 == 0 then White else Gray
  }

  /** Banding is white on even rows and alternates strictly from one row to the next. */
  lemma BandingAlternates(i: nat)
    ensures BandFill(i) == White <==> i % 2 == 0
    ensures BandFill(i + 1) != BandFill(i)
  {
  }

  /** `page_no_global`, `rows_in_page` and `row_global`. */
  datatype Counters = Counters(page: nat, rowsInPage: nat, rowGlobal: nat)

  /** The counters after `__init__` (which leaves `rows_in_page` unset until the first header). */
  const Initial: Counters := Counters(0, 0, 0)

  /** `header()`: one more page, and the page starts empty; `row_global` is untouched. */
  function AfterHeader(c: Counters): (r: Counters)
    ensures r.page == c.page + 1 && r.rowsInPage == 0 && r.rowGlobal == c.rowGlobal
  {
    c.(page := c.page + 1, rowsInPage := 0)
  }

  /** The start of `add_row`: a new page once the current one holds `ROWS_PAGE` rows. */
  function BeforeRow(c: Counters): (r: Counters)
    ensures r.rowsInPage < RowsPage && r.rowGlobal == c.rowGlobal
    ensures r.page == c.page || r.page == c.page + 1
    ensures r.page == c.page ==> r == c
  {
    if c.rowsInPage >= RowsPage then AfterHeader(c) else c
  }

  /** `add_row`: the page break if due, then one more row on the page and overall. */
  function AfterRow(c: Counters): (r: Counters)
    ensures 1 <= r.rowsInPage <= RowsPage && r.rowGlobal == c.rowGlobal + 1
    ensures r.page == c.page || r.page == c.page + 1
  {
    var d := BeforeRow(c);
    d.(rowsInPage := d.rowsInPage + 1, rowGlobal := d.rowGlobal + 1)
  }

  /** The counters after one `add_page()` and `n` calls of `add_row`. */
  function AfterRows(n: nat): (r: Counters)
    ensures r.page >= 1 && r.rowsInPage <= RowsPage && r.rowGlobal == n
    ensures n >= 1 ==> r.rowsInPage >= 1
  {
    if n == 0 then AfterHeader(Initial) else AfterRow(AfterRows(n - 1))
  }

  /**
   * After `n >= 1` rows the page counter and the rows on the last page are
   * the quotient and remainder of `n - 1` by `ROWS_PAGE`, shifted by one.
   */
  lemma {:induction false} AfterRowsClosedForm(n: nat)
    requires n >= 1
    ensures AfterRows(n) == Counters((n - 1) / RowsPage + 1, (n - 1) % RowsPage + 1, n)
  {
    if n > 1 {
      AfterRowsClosedForm(n - 1);
      var q, r := (n - 2) / RowsPage, (n - 2) % RowsPage;
      assert n - 1 == RowsPage * q + r + 1;
      if r == RowsPage - 1 {
        assert (n - 1) / RowsPage == q + 1 && (n - 1) % RowsPage == 0;
      } else {
        assert (n - 1) / RowsPage == q && (n - 1) % RowsPage == r + 1;
      }
    }
  }

  /** After every `add_row` the current page holds between 1 and `ROWS_PAGE` rows. */
  lemma RowsInPageBounds(n: nat)
    requires n >= 1
    ensures 1 <= AfterRows(n).rowsInPage <= RowsPage
    ensures AfterRows(n).rowGlobal == n
  {
    AfterRowsClosedForm(n);
  }

  /** Row `i` (from 0) goes on page `i / ROWS_PAGE + 1`, in slot `i % ROWS_PAGE`. */
  lemma RowSlot(i: nat)
    ensures BeforeRow(AfterRows(i)) == Counters(i / RowsPage + 1, i % RowsPage, i)
  {
    if i > 0 {
      AfterRowsClosedForm(i);
      var q, r := (i - 1) / RowsPage, (i - 1) % RowsPage;
      assert i == RowsPage * q + r + 1;
      if r == RowsPage - 1 {
        assert i / RowsPage == q + 1 && i % RowsPage == 0;
      } else {
        assert i / RowsPage == q && i % RowsPage == r + 1;
      }
    }
  }

  /** `add_row` opens a page exactly when the current one is full, after every `ROWS_PAGE` rows. */
  lemma PageBreakWhenFull(i: nat)
    ensures BeforeRow(AfterRows(i)) != AfterRows(i) <==> AfterRows(i).rowsInPage == RowsPage
    ensures AfterRows(i).rowsInPage == RowsPage <==> i > 0 && i % RowsPage == 0
  {
    if i > 0 {
      AfterRowsClosedForm(i);
      var q, r := (i - 1) / RowsPage, (i - 1) % RowsPage;
      assert i == RowsPage * q + r + 1;
      if r == RowsPage - 1 {
        assert i % RowsPage == 0;
      } else {
        assert i % RowsPage == r + 1;
      }
    }
  }

  /** The number of pages for `n` rows: `ceil(n / ROWS_PAGE)`, and one page when there is no row. */
  function PageCount(n: nat): (pages: nat)
    ensures pages >= 1
    ensures n >= 1 ==> (pages - 1) * RowsPage < n <= pages * RowsPage
  {
    if n == 0 then 1 else (n + RowsPage - 1) / RowsPage
  }

  /** The page counter ends at `PageCount(n)`, the least number of pages that holds `n` rows. */
  lemma PagesForRows(n: nat)
    ensures AfterRows(n).page == PageCount(n)
    ensures n >= 1 ==> (PageCount(n) - 1) * RowsPage < n <= PageCount(n) * RowsPage
  {
    if n >= 1 {
      AfterRowsClosedForm(n);
      var q, r := (n - 1) / RowsPage, (n - 1) % RowsPage;
      assert n - 1 == RowsPage * q + r;
      assert n + RowsPage - 1 == RowsPage * (q + 1) + r;
      assert (n + RowsPage - 1) / RowsPage == q + 1;
    }
  }

  /** What a cell shows: its value filtered once when the row is prepared and once more when drawn. */
  function Drawn(text: string): string {
    Filtered(Filtered(text))
  }

  /** `f'{x:,.2f}' if x is not None else ''`, the number formatting being supplied. */
  function AmountText(a: AmountCell, format: real -> string): (r: string)
    ensures a.Amount? ==> r == format(a.value)
    ensures a.NoAmount? ==> r == ""
    ensures a.NotANumber? ==> r == "nan"
  {
    match a
    case NoAmount => ""
    case NotANumber => "nan"
    case Amount(v) => format(v)
  }

  /** A missing amount is drawn blank, whether the frame stores it as None or as NaN. */
  lemma MissingAmountDrawnBlank(a: AmountCell, format: real -> string)
    requires !a.Amount?
    ensures Drawn(AmountText(a, format)) == ""
  {
    if a.NotANumber? {
      assert Lower("nan") == "nan";
      WholeSpellingBlanked("nan");
    }
  }

  /** The five values handed to `add_row`, as text, in column order. */
  function RowTexts(date: string, concept: string, withdrawals: AmountCell, deposits: AmountCell,
                    balance: AmountCell, format: real -> string): seq<string>
  {
    [date, concept, AmountText(withdrawals, format), AmountText(deposits, format),
     AmountText(balance, format)]
  }

  /** `f` applied to every value of a list, in order. */
  function Each(f: string -> string, texts: seq<string>): (r: seq<string>)
    ensures |r| == |texts|
  {
    if texts == [] then [] else Each(f, texts[..|texts| - 1]) + [f(texts[|texts| - 1])]
  }

  lemma EachStep(f: string -> string, texts: seq<string>, i: nat)
    requires i < |texts|
    ensures Each(f, texts[..i + 1]) == Each(f, texts[..i]) + [f(texts[i])]
  {
    assert texts[..i + 1][..i] == texts[..i];
  }

  /** Each value of the list is mapped on its own. */
  lemma {:induction false} EachPointwise(f: string -> string, texts: seq<string>)
    ensures forall i :: 0 <= i < |texts| ==> Each(f, texts)[i] == f(texts[i])
  {
    if texts != [] {
      var init := texts[..|texts| - 1];
      EachPointwise(f, init);
      forall i | 0 <= i < |texts|
        ensures Each(f, texts)[i] == f(texts[i])
      {
        if i < |init| {
          assert Each(f, texts)[i] == Each(f, init)[i];
          assert texts[i] == init[i];
        }
      }
    }
  }

  /** What the cells of a row show, given the row's texts: two passes of the filter. */
  function DrawnAll(texts: seq<string>): seq<string> {
    Each(Filtered, Each(Filtered, texts))
  }

  /** Every cell shows its own value filtered twice, whatever the other cells hold. */
  lemma DrawnAllPointwise(texts: seq<string>)
    ensures |DrawnAll(texts)| == |texts|
    ensures forall i :: 0 <= i < |texts| ==> DrawnAll(texts)[i] == Drawn(texts[i])
  {
    EachPointwise(Filtered, texts);
    EachPointwise(Filtered, Each(Filtered, texts));
  }

  /**
   * One pass of `filtro_anti_nan` over a row's values, in column order: the
   * list `vals` of `add_row`, and again the cell loop that writes them.
   */
  method FilterEach(texts: seq<string>) returns (out: seq<string>)
    ensures out == Each(Filtered, texts)
  {
    out := [];
    var i := 0;
    while i < |texts|
      invariant 0 <= i <= |texts|
      invariant out == Each(Filtered, texts[..i])
    {
      var once := AntiNanFilter(texts[i]);
      EachStep(Filtered, texts, i);
      out := out + [once];
      i := i + 1;
    }
    assert texts[..i] == texts;
  }

  /** One row as `add_row` lays it out. */
  datatype Placement = Placement(page: nat, slot: nat, fill: Fill, y: real, cells: seq<string>)

  /** Where and how the `i`-th row of a document is drawn, given its cell texts. */
  function PlacementAt(i: nat, cells: seq<string>): (p: Placement)
    ensures p.page >= 1 && p.slot < RowsPage && p.cells == cells
    ensures p.fill == White <==> i % 2 == 0
    ensures FirstRowY <= p.y <= PageHeight - BottomMargin
  {
    RowTopWithinPage(i % RowsPage);
    Placement(i / RowsPage + 1, i % RowsPage, BandFill(i), RowTop(i % RowsPage), cells)
  }

  /** What the cells of a frame row show. */
  function RowShown(row: FrameRow, format: real -> string): seq<string> {
    DrawnAll(RowTexts(row.date, row.concept, row.withdrawals, row.deposits, row.balance, format))
  }

  /**
   * The placement `add_row` gives the row after `i` others is `PlacementAt(i, _)`:
   * page `i / ROWS_PAGE + 1`, slot `i % ROWS_PAGE`, colour `BandFill(i)`.
   */
  lemma RowPlacement(i: nat, cells: seq<string>)
    ensures var at := BeforeRow(AfterRows(i));
            Placement(at.page, at.rowsInPage, BandFill(AfterRows(i).rowGlobal), RowTop(at.rowsInPage), cells)
              == PlacementAt(i, cells)
  {
    RowSlot(i);
  }

  /**
   * Banding runs on across page breaks: consecutive rows differ in colour even
   * when the second opens a new page, so the first row of page 2 is grey.
   */
  lemma BandingAcrossPages(i: nat, above: seq<string>, below: seq<string>)
    ensures PlacementAt(i + 1, below).fill != PlacementAt(i, above).fill
    ensures PlacementAt(RowsPage, below).page == 2 && PlacementAt(RowsPage, below).slot == 0
    ensures PlacementAt(RowsPage, below).fill == Gray
  {
  }

  /** Every row's top edge is `Y_DATA_1 + slot * ROW_H` and lies between the first row and the bottom margin. */
  lemma PlacedOnPage(i: nat, cells: seq<string>)
    ensures PlacementAt(i, cells).y == FirstRowY + (i % RowsPage) as real * RowHeight
    ensures FirstRowY <= PlacementAt(i, cells).y <= PageHeight - BottomMargin
  {
    RowTopWithinPage(i % RowsPage);
  }

  class StatementPdf {
    const client: string
    const clientNumber: string
    const period: string
    /** The `,.2f` number formatting, which is not modelled. */
    const format: real -> string

    var pageNoGlobal: nat
    var rowGlobal: nat
    var rowsInPage: nat

    /** Every row drawn so far, in drawing order. */
    ghost var placed: seq<Placement>

    function State(): Counters
      reads this
    {
      Counters(pageNoGlobal, rowsInPage, rowGlobal)
    }

    ghost predicate Valid()
      reads this
    {
      && rowsInPage <= RowsPage
      && |placed| == rowGlobal
      && (pageNoGlobal == 0 ==> rowsInPage == 0 && rowGlobal == 0)
    }

    /** `__init__`: no page yet, no row yet. */
    constructor (client: string, clientNumber: string, period: string, format: real -> string)
      ensures Valid() && State() == Initial && placed == []
      ensures this.client == client && this.clientNumber == clientNumber
      ensures this.period == period && this.format == format
    {
      this.client := client;
      this.clientNumber := clientNumber;
      this.period := period;
      this.format := format;
      pageNoGlobal := 0;
      rowGlobal := 0;
      rowsInPage := 0;
      placed := [];
    }

    /** `header()`: counts the page and empties it; the header drawing is not modelled. */
    method Header()
      requires Valid()
      modifies this
      ensures Valid() && State() == AfterHeader(old(State())) && placed == old(placed)
    {
      pageNoGlobal := pageNoGlobal + 1;
      rowsInPage := 0;
    }

    /** `add_page()` of the drawing library: starts a page, which runs `header()`. */
    method AddPage()
      requires Valid()
      modifies this
      ensures Valid() && State() == AfterHeader(old(State())) && placed == old(placed)
    {
      Header();
    }

    /**
     * The bookkeeping of `add_row` for a row whose cell texts are `cells`: a
     * page break when the page is full, the band colour from the global row
     * parity, the row's top from its slot, then both row counters advanced.
     * `rows_in_page` exists only once a header has run, so a page must have
     * been started.
     */
    method PlaceRow(cells: seq<string>)
      requires Valid() && pageNoGlobal >= 1
      modifies this
      ensures Valid() && State() == AfterRow(old(State()))
      ensures 1 <= rowsInPage <= RowsPage
      ensures var at := BeforeRow(old(State()));
              placed == old(placed) + [Placement(at.page, at.rowsInPage, BandFill(old(rowGlobal)),
                                                 RowTop(at.rowsInPage), cells)]
    {
      if rowsInPage >= RowsPage {
        AddPage();
      }
      var fill := if rowGlobal % 2 == 0 then White else Gray;
      var y := RowTop(rowsInPage);
      placed, rowsInPage, rowGlobal :=
        placed + [Placement(pageNoGlobal, rowsInPage, fill, y, cells)], rowsInPage + 1, rowGlobal + 1;
    }

    /**
     * `add_row`: the five values as text, filtered once into `vals` and once
     * more as each cell is written, then laid out by `PlaceRow`. The filter
     * touches no state, so running it before the page break, as here, draws
     * the same row.
     */
    method AddRow(date: string, concept: string, withdrawals: AmountCell, deposits: AmountCell,
                  balance: AmountCell)
      requires Valid() && pageNoGlobal >= 1
      modifies this
      ensures Valid() && State() == AfterRow(old(State()))
      ensures 1 <= rowsInPage <= RowsPage
      ensures var at := BeforeRow(old(State()));
              placed == old(placed) + [Placement(at.page, at.rowsInPage, BandFill(old(rowGlobal)),
                RowTop(at.rowsInPage), DrawnAll(RowTexts(date, concept, withdrawals, deposits, balance, format)))]
    {
      var vals := FilterEach(RowTexts(date, concept, withdrawals, deposits, balance, format));
      var cells := FilterEach(vals);
      PlaceRow(cells);
    }
  }

  /** The placements of a document's rows, given what each row shows, in order. */
  function Layout(rows: seq<FrameRow>, shown: FrameRow -> seq<string>): (r: seq<Placement>)
    ensures |r| == |rows|
  {
    if rows == [] then []
    else Layout(rows[..|rows| - 1], shown) + [PlacementAt(|rows| - 1, shown(rows[|rows| - 1]))]
  }

  lemma LayoutStep(rows: seq<FrameRow>, shown: FrameRow -> seq<string>, i: nat)
    requires i < |rows|
    ensures Layout(rows[..i + 1], shown) == Layout(rows[..i], shown) + [PlacementAt(i, shown(rows[i]))]
  {
    assert rows[..i + 1][..i] == rows[..i];
  }

  /** Row `i` of the layout is placement `i`, showing what frame row `i` shows. */
  lemma {:induction false} LayoutPointwise(rows: seq<FrameRow>, shown: FrameRow -> seq<string>)
    ensures forall i :: 0 <= i < |rows| ==> Layout(rows, shown)[i] == PlacementAt(i, shown(rows[i]))
  {
    if rows != [] {
      var init := rows[..|rows| - 1];
      LayoutPointwise(init, shown);
      forall i | 0 <= i < |rows|
        ensures Layout(rows, shown)[i] == PlacementAt(i, shown(rows[i]))
      {
        if i < |init| {
          assert Layout(rows, shown)[i] == Layout(init, shown)[i];
          assert rows[i] == init[i];
        }
      }
    }
  }

  /**
   * The drawing loop of the application: one `add_page()`, then `add_row`
   * for every frame row in order. Row `i` lands on page `i / ROWS_PAGE + 1`
   * in slot `i % ROWS_PAGE` with colour `BandFill(i)`, and the document has
   * `PageCount(n)` pages.
   */
  method Render(client: string, clientNumber: string, period: string, format: real -> string,
                frame: seq<FrameRow>) returns (pdf: StatementPdf)
    ensures fresh(pdf) && pdf.Valid()
    ensures pdf.State() == AfterRows(|frame|)
    ensures pdf.pageNoGlobal == PageCount(|frame|)
    ensures pdf.placed == Layout(frame, row => RowShown(row, format))
    ensures forall i :: 0 <= i < |frame| ==> pdf.placed[i] == PlacementAt(i, RowShown(frame[i], format))
  {
    ghost var shown := row => RowShown(row, format);
    pdf := new StatementPdf(client, clientNumber, period, format);
    pdf.AddPage();
    var i := 0;
    while i < |frame|
      invariant 0 <= i <= |frame|
      invariant pdf.Valid() && pdf.State() == AfterRows(i) && pdf.format == format
      invariant pdf.placed == Layout(frame[..i], shown)
    {
      var row := frame[i];
      RowPlacement(i, RowShown(row, format));
      LayoutStep(frame, shown, i);
      pdf.AddRow(row.date, row.concept, row.withdrawals, row.deposits, row.balance);
      i := i + 1;
    }
    assert frame[..i] == frame;
    PagesForRows(|frame|);
    LayoutPointwise(frame, shown);
  }
}
