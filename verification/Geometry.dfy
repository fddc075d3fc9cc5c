/**
 * The page layout constants of main.py (lines 7-23), in points, as exact
 * real numbers: column boundaries, their derived widths and the derived row
 * height.
 */
module Geometry {

  const MmToPt: real := 2.83465
  const PageWidth: real := 187.33 * MmToPt
  const PageHeight: real := 279.40 * MmToPt

  /** Left edges of the five columns (date, description, withdrawals, deposits, balance). */
  const ColumnX: seq<real> := [5.07 * MmToPt, 20.47 * MmToPt, 105.12 * MmToPt, 131.46 * MmToPt, 153.27 * MmToPt]
  const BandLeft: real := 4.97 * MmToPt
  const BandRight: real := (187.33 - 18.42) * MmToPt

  const FirstRowY: real := 104.73901
  const HeaderY: real := 92.448
  const BottomMargin: real := 18.16 * MmToPt
  const RowsPage: nat := 51

  /**
   * `COL_W_PT`: each column reaches to the next boundary, the last one to the
   * right edge of the band.
   */
  function ColumnWidths(xs: seq<real>, right: real): (w: seq<real>)
    requires |xs| > 0
    ensures |w| == |xs|
    ensures forall i :: 0 <= i < |xs| - 1 ==> xs[i] + w[i] == xs[i + 1]
    ensures xs[|xs| - 1] + w[|xs| - 1] == right
  {
    seq(|xs|, i requires 0 <= i < |xs| => (if i + 1 < |xs| then xs[i + 1] else right) - xs[i])
  }

  /** Every derived width is positive exactly when the boundaries increase strictly up to `right`. */
  lemma WidthsPositiveIffIncreasing(xs: seq<real>, right: real)
    requires |xs| > 0
    ensures (forall i :: 0 <= i < |xs| ==> ColumnWidths(xs, right)[i] > 0.0)
        <==> (forall i :: 0 <= i < |xs| - 1 ==> xs[i] < xs[i + 1]) && xs[|xs| - 1] < right
  {
    var w := ColumnWidths(xs, right);
    if forall i :: 0 <= i < |xs| ==> w[i] > 0.0 {
      assert w[|xs| - 1] > 0.0;
    }
  }

  const ColumnWidth: seq<real> := ColumnWidths(ColumnX, BandRight)

  /**
   * `ROW_H_PT`: the space from the first row to the bottom margin shared out
   * over `rows - 1` steps, so that the top of the last row lies on the margin.
   */
  function RowHeightFor(pageHeight: real, bottomMargin: real, firstRowY: real, rows: nat): (h: real)
    requires rows >= 2
    ensures firstRowY + (rows - 1) as real * h == pageHeight - bottomMargin
  {
    (pageHeight - bottomMargin - firstRowY) / (rows - 1) as real
  }

  const RowHeight: real := RowHeightFor(PageHeight, BottomMargin, FirstRowY, RowsPage)

  /** The top of the row in slot `slot` of a page. */
  function RowTop(slot: nat): real {
    FirstRowY + slot as real * RowHeight
  }

  /** The five boundaries of the statement layout increase and every column is wide. */
  lemma ColumnWidthsPositive()
    ensures |ColumnWidth| == 5
    ensures forall i :: 0 <= i < 5 ==> ColumnWidth[i] > 0.0
    ensures BandLeft < ColumnX[0]
  {
    WidthsPositiveIffIncreasing(ColumnX, BandRight);
  }

  /** The derived row height is positive and a row is shorter than the bottom margin. */
  lemma RowHeightBounds()
    ensures 0.0 < RowHeight < BottomMargin
    ensures FirstRowY + 50.0 * RowHeight == PageHeight - BottomMargin
  {
  }

  /**
   * Every slot of a page starts between the first data row and the bottom
   * margin, and its band ends on the page; the last slot starts exactly on
   * the margin, so its band extends one row height into it.
   */
  lemma RowTopWithinPage(slot: nat)
    requires slot < RowsPage
    ensures FirstRowY <= RowTop(slot) <= PageHeight - BottomMargin
    ensures RowTop(slot) + RowHeight <= PageHeight
    ensures slot == RowsPage - 1 ==> RowTop(slot) == PageHeight - BottomMargin
  {
    RowHeightBounds();
    var k := slot as real;
    assert k * RowHeight <= 50.0 * RowHeight by {
      assert (50.0 - k) * RowHeight >= 0.0;
    }
  }

  /** Consecutive slots are one row height apart, so rows neither overlap nor leave gaps. */
  lemma RowsAbut(slot: nat)
    ensures RowTop(slot) + RowHeight == RowTop(slot + 1)
  {
  }

  /**
   * The header band (`Y_HEADER_PT` plus one row height) reaches past the top
   * of the first data row, so the rule drawn under the header lies inside the
   * first row's band.
   */
  lemma HeaderOverlapsFirstRow()
    ensures HeaderY < FirstRowY < HeaderY + RowHeight
  {
    RowHeightBounds();
  }
}
