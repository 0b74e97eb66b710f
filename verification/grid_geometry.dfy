/**
 Page geometry of the photo section of the generated document.

 All lengths are millimetres on an A4 portrait page, as the script creates
 it (`new jsPDF('p', 'mm', 'a4')`). Pages are numbered relative to the page
 on which the field table ends: page 0 is that page, page k is the k-th
 page added after it.
 */
module GridGeometry {

  /** A vertical position past which a new page is started. */
  const PageBreakY: int := 240
  /** Where writing resumes on a freshly added page. */
  const TopY: int := 20
  /** Left edge of the first column; also the x of the section heading. */
  const Margin: int := 20
  const ImgWidth: int := 80
  const ImgHeight: int := 60
  /** Spacing between columns, between rows, and under the heading. */
  const Gap: int := 10
  /** Horizontal advance after an embedded image. */
  const ColumnStep: int := ImgWidth + Gap
  /** Vertical advance at a row break. */
  const RowStep: int := ImgHeight + Gap
  /** Height of an A4 page. */
  const PageHeight: int := 297
  /** Rows that fit on a page that starts at TopY: 20, 90, 160 and 230. */
  const RowsPerPage: nat := (PageBreakY - TopY) / RowStep + 1

  /** The "Property Photos" heading: its page and baseline. */
  datatype Heading = Heading(page: nat, y: int)

  /** The loop state of the photo grid: `xPos`, `currentY`, the current
      page, and the zero-based row the cursor is in. */
  datatype Cursor = Cursor(page: nat, row: nat, x: int, y: int)

  /** Where the heading goes: 10 below the table, or at the top of a new
      page when that would pass the break line. */
  function SectionHeading(finalY: int): (h: Heading)
    ensures h.y <= PageBreakY
    ensures h.page <= 1
    ensures h.page == 0 <==> finalY + Gap <= PageBreakY
    ensures h.page == 0 ==> h.y == finalY + Gap
    ensures h.page == 1 ==> h.y == TopY
  {
    var y := finalY + Gap;
    if y > PageBreakY then Heading(1, TopY) else Heading(0, y)
  }

  /** The cursor for the first image: first column, 10 under the heading. */
  function FirstRow(finalY: int): (c: Cursor)
    ensures c.row == 0 && c.x == Margin
    ensures c.page == SectionHeading(finalY).page
    ensures c.y == SectionHeading(finalY).y + Gap
    ensures c.y <= PageBreakY + Gap
  {
    var h := SectionHeading(finalY);
    Cursor(h.page, 0, Margin, h.y + Gap)
  }

  /** A row break: back to the margin, one row lower, and onto a new page
      when the new row would start past the break line. */
  function RowBreak(c: Cursor): (d: Cursor)
    ensures d.row == c.row + 1 && d.x == Margin
    ensures d.y <= PageBreakY
    ensures d.page == c.page || d.page == c.page + 1
    ensures d.page == c.page <==> c.y + RowStep <= PageBreakY
  {
    var y := c.y + RowStep;
    if y > PageBreakY then Cursor(c.page + 1, c.row + 1, Margin, TopY)
    else Cursor(c.page, c.row + 1, Margin, y)
  }

  /** How many rows starting at `y0` and spaced RowStep apart are laid on
      the page of `y0` before a break: the first always is, every later one
      only while it starts at or above the break line. */
  function RowsOnFirstPage(y0: int): (k: nat)
    ensures k >= 1
    ensures k > 1 ==> y0 + RowStep * (k - 1) <= PageBreakY
    ensures y0 + RowStep * k > PageBreakY
  {
    if y0 > PageBreakY then 1 else (PageBreakY - y0) / RowStep + 1
  }

  /** Closed-form position of row `r` of the grid, independent of the
      step-by-step row breaks: the first RowsOnFirstPage rows share the
      heading's page, and the rest fill fresh pages RowsPerPage at a time. */
  function RowCursor(finalY: int, r: nat): (c: Cursor)
  {
    var first := FirstRow(finalY);
    var k0 := RowsOnFirstPage(first.y);
    if r < k0 then Cursor(first.page, r, Margin, first.y + RowStep * r)
    else Cursor(first.page + 1 + (r - k0) / RowsPerPage, r, Margin,
                TopY + RowStep * ((r - k0) % RowsPerPage))
  }

  lemma RowCursorStart(finalY: int)
    ensures RowCursor(finalY, 0) == FirstRow(finalY)
  {
  }

  /** One row break takes the closed-form row `r` to row `r + 1`. */
  lemma RowBreakAdvancesRow(finalY: int, r: nat)
    ensures RowBreak(RowCursor(finalY, r)) == RowCursor(finalY, r + 1)
  {
    var first := FirstRow(finalY);
    var k0 := RowsOnFirstPage(first.y);
    if r + 1 < k0 {
    } else if r + 1 == k0 {
    } else {
      var q := r - k0;
      assert q == RowsPerPage * (q / RowsPerPage) + q % RowsPerPage;
      if q % RowsPerPage < RowsPerPage - 1 {
        assert (q + 1) / RowsPerPage == q / RowsPerPage;
        assert (q + 1) % RowsPerPage == q % RowsPerPage + 1;
      } else {
        assert (q + 1) / RowsPerPage == q / RowsPerPage + 1;
        assert (q + 1) % RowsPerPage == 0;
      }
    }
  }

  /** Bounds on every row: none starts below 250, every row after the
      first starts at or above the break line, none starts above the top
      margin unless the table itself ends above the page, and no row is on
      a page before the heading's. */
  lemma RowBounds(finalY: int, r: nat)
    ensures RowCursor(finalY, r).y <= PageBreakY + Gap
    ensures r > 0 ==> RowCursor(finalY, r).y <= PageBreakY
    ensures finalY >= 0 ==> RowCursor(finalY, r).y >= TopY
    ensures RowCursor(finalY, r).page >= SectionHeading(finalY).page
    ensures RowCursor(finalY, r).row == r && RowCursor(finalY, r).x == Margin
  {
    var first := FirstRow(finalY);
    var k0 := RowsOnFirstPage(first.y);
    if r >= k0 {
      var q := r - k0;
      assert 0 <= q % RowsPerPage < RowsPerPage;
    }
  }

  /** Rows further down the grid are on a later page, or on the same page
      at least one row step lower: two rows never overlap. */
  lemma RowsSeparated(finalY: int, r: nat, s: nat)
    requires r < s
    ensures RowCursor(finalY, r).page <= RowCursor(finalY, s).page
    ensures RowCursor(finalY, r).page == RowCursor(finalY, s).page ==>
              RowCursor(finalY, s).y - RowCursor(finalY, r).y >= RowStep
  {
    var first := FirstRow(finalY);
    var k0 := RowsOnFirstPage(first.y);
    if r >= k0 {
      var q, q' := r - k0, s - k0;
      assert q == RowsPerPage * (q / RowsPerPage) + q % RowsPerPage;
      assert q' == RowsPerPage * (q' / RowsPerPage) + q' % RowsPerPage;
      if q / RowsPerPage == q' / RowsPerPage {
        assert q % RowsPerPage < q' % RowsPerPage;
      } else {
        assert q / RowsPerPage < q' / RowsPerPage;
      }
    }
  }

}
