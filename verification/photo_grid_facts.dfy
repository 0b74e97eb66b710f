/**
 Consequences of the agreement between the photo loop and its reference:
 where the heading and the rows go, which column a photo lands in, how
 failures affect the layout, and that no two photos overlap.
 */
module PhotoGridFacts {
  import opened GridGeometry
  import opened PhotoGrid

  /** Two embedded photos do not overlap: different pages, or disjoint
      rectangles of ImgWidth by ImgHeight. */
  predicate Disjoint(p: Placement, q: Placement)
  {
    || p.page != q.page
    || p.x + ImgWidth <= q.x || q.x + ImgWidth <= p.x
    || p.y + ImgHeight <= q.y || q.y + ImgHeight <= p.y
  }

  /** Every embedded photo has a placement, at its reference position. */
  lemma PlacedAt(finalY: int, ok: seq<bool>, i: nat)
    requires i < |ok| && ok[i]
    ensures LayOutPhotos(finalY, ok).Photos?
    ensures exists k :: 0 <= k < |LayOutPhotos(finalY, ok).placed| &&
                        LayOutPhotos(finalY, ok).placed[k] == Expected(finalY, ok, i)
  {
    var s := LayOutPhotos(finalY, ok);
    var k :| 0 <= k < |Successes(ok)| && Successes(ok)[k] == i;
    assert s.placed[k] == Expected(finalY, ok, i);
  }

  /** Each placement is the reference placement of the photo it holds. */
  lemma PlacedCount(finalY: int, ok: seq<bool>)
    ensures |Placed(LayOutPhotos(finalY, ok))| == |Successes(ok)|
  {
  }

  lemma PlacementIsExpected(finalY: int, ok: seq<bool>, k: nat)
    requires k < |Successes(ok)|
    ensures |Placed(LayOutPhotos(finalY, ok))| == |Successes(ok)|
    ensures Placed(LayOutPhotos(finalY, ok))[k].index == Successes(ok)[k]
    ensures Placed(LayOutPhotos(finalY, ok))[k] == Expected(finalY, ok, Successes(ok)[k])
  {
  }

  /** The heading sits 10 under the table, or at the top of a new page when
      that would pass the break line; the first row sits 10 under the
      heading on the heading's page, and no photo is on an earlier page. */
  lemma HeadingAndFirstRow(finalY: int, ok: seq<bool>)
    requires |ok| > 0
    ensures LayOutPhotos(finalY, ok).Photos?
    ensures var h := LayOutPhotos(finalY, ok).heading;
            && (finalY + Gap <= PageBreakY ==> h == Heading(0, finalY + Gap))
            && (finalY + Gap > PageBreakY ==> h == Heading(1, TopY))
    ensures var s := LayOutPhotos(finalY, ok);
            forall k :: 0 <= k < |s.placed| && s.placed[k].row == 0 ==>
              s.placed[k].page == s.heading.page && s.placed[k].y == s.heading.y + Gap
    ensures var s := LayOutPhotos(finalY, ok);
            forall k :: 0 <= k < |s.placed| ==> s.heading.page <= s.placed[k].page
  {
    var s := LayOutPhotos(finalY, ok);
    forall k | 0 <= k < |s.placed|
      ensures s.placed[k].row == 0 ==> s.placed[k].page == s.heading.page && s.placed[k].y == s.heading.y + Gap
      ensures s.heading.page <= s.placed[k].page
    {
      RowCursorStart(finalY);
      RowBounds(finalY, Successes(ok)[k] / 2);
    }
  }

  /** Vertical bounds of the grid: a photo of the first row starts at most
      250 down, every later row at most at the break line 240, and none
      above the top margin when the table ends on the page. No photo is on
      a page past the last one added. */
  lemma PlacementBounds(finalY: int, ok: seq<bool>)
    ensures var s := LayOutPhotos(finalY, ok);
            forall k :: 0 <= k < |Placed(s)| ==>
              && Placed(s)[k].y <= PageBreakY + Gap
              && (Placed(s)[k].row > 0 ==> Placed(s)[k].y <= PageBreakY)
              && (finalY >= 0 ==> Placed(s)[k].y >= TopY)
              && Placed(s)[k].page <= PagesAdded(s)
  {
    var s := LayOutPhotos(finalY, ok);
    forall k | 0 <= k < |Placed(s)|
      ensures Placed(s)[k].y <= PageBreakY + Gap
      ensures Placed(s)[k].row > 0 ==> Placed(s)[k].y <= PageBreakY
      ensures finalY >= 0 ==> Placed(s)[k].y >= TopY
      ensures Placed(s)[k].page <= PagesAdded(s)
    {
      var r := Successes(ok)[k] / 2;
      RowBounds(finalY, r);
      if r < (|ok| - 1) / 2 {
        RowsSeparated(finalY, r, (|ok| - 1) / 2);
      }
    }
  }

  /** Rows and columns follow the photo's index, not how many photos were
      embedded before it: photo i is in row i / 2, and in the second column
      exactly when it is odd and the photo before it was embedded (a failed
      embed does not move the cursor). */
  lemma ColumnsFollowEmbeds(finalY: int, ok: seq<bool>)
    ensures var s := LayOutPhotos(finalY, ok);
            forall k :: 0 <= k < |Placed(s)| ==>
              && Placed(s)[k].index < |ok| && ok[Placed(s)[k].index]
              && Placed(s)[k].row == Placed(s)[k].index / 2
              && (Placed(s)[k].x == Margin + ColumnStep <==>
                    Placed(s)[k].index % 2 == 1 && ok[Placed(s)[k].index - 1])
              && (Placed(s)[k].x == Margin || Placed(s)[k].x == Margin + ColumnStep)
  {
  }

  /** Failed embeds never shift other photos vertically: a photo embedded
      under two different failure patterns lands on the same page, row and
      y in both. */
  lemma FailuresDoNotShiftRows(finalY: int, ok: seq<bool>, ok': seq<bool>)
    requires |ok| == |ok'|
    ensures var ps, ps' := Placed(LayOutPhotos(finalY, ok)), Placed(LayOutPhotos(finalY, ok'));
            forall k, k' :: 0 <= k < |ps| && 0 <= k' < |ps'| && ps[k].index == ps'[k'].index ==>
              ps[k].page == ps'[k'].page && ps[k].row == ps'[k'].row && ps[k].y == ps'[k'].y
  {
    var ps, ps' := Placed(LayOutPhotos(finalY, ok)), Placed(LayOutPhotos(finalY, ok'));
    PlacedCount(finalY, ok);
    PlacedCount(finalY, ok');
    forall k, k' | 0 <= k < |ps| && 0 <= k' < |ps'| && ps[k].index == ps'[k'].index
      ensures ps[k].page == ps'[k'].page && ps[k].row == ps'[k'].row && ps[k].y == ps'[k'].y
    {
      PlacementIsExpected(finalY, ok, k);
      PlacementIsExpected(finalY, ok', k');
    }
  }

  /** Photo `i` is the first of its row, or the photo before it fared alike
      under both failure patterns. */
  predicate RowMateAlike(ok: seq<bool>, ok': seq<bool>, i: nat)
  {
    i < |ok| && i < |ok'| && (i % 2 == 0 || ok[i - 1] == ok'[i - 1])
  }

  /** Under two failure patterns, a photo embedded in both is in the same
      column when the photo before it in its row fared alike. */
  lemma FailuresKeepColumns(finalY: int, ok: seq<bool>, ok': seq<bool>)
    requires |ok| == |ok'|
    ensures var ps, ps' := Placed(LayOutPhotos(finalY, ok)), Placed(LayOutPhotos(finalY, ok'));
            forall k, k' :: 0 <= k < |ps| && 0 <= k' < |ps'| && ps[k].index == ps'[k'].index &&
                            RowMateAlike(ok, ok', ps[k].index) ==>
              ps[k].x == ps'[k'].x
  {
    var ps, ps' := Placed(LayOutPhotos(finalY, ok)), Placed(LayOutPhotos(finalY, ok'));
    forall k, k' | 0 <= k < |ps| && 0 <= k' < |ps'| && ps[k].index == ps'[k'].index &&
                   RowMateAlike(ok, ok', ps[k].index)
      ensures ps[k].x == ps'[k'].x
    {
      PlacedCount(finalY, ok);
      PlacedCount(finalY, ok');
      PlacementColumn(finalY, ok, k);
      PlacementColumn(finalY, ok', k');
    }
  }

  /** Only the column of the `k`-th placement, read off its reference. */
  lemma PlacementColumn(finalY: int, ok: seq<bool>, k: nat)
    requires k < |Successes(ok)|
    ensures |Placed(LayOutPhotos(finalY, ok))| == |Successes(ok)|
    ensures Placed(LayOutPhotos(finalY, ok))[k].index == Successes(ok)[k] < |ok|
    ensures Placed(LayOutPhotos(finalY, ok))[k].x == ColumnX(ok, Successes(ok)[k])
  {
    PlacedCount(finalY, ok);
    PlacementIsExpected(finalY, ok, k);
  }

  lemma {:induction false} SuccessesOfAll(ok: seq<bool>)
    requires forall i :: 0 <= i < |ok| ==> ok[i]
    ensures |Successes(ok)| == |ok|
    ensures forall k :: 0 <= k < |ok| ==> Successes(ok)[k] == k
    decreases |ok|
  {
    if |ok| > 0 {
      SuccessesOfAll(ok[..|ok| - 1]);
    }
  }

  /** With every embed succeeding, photo i is the i-th placement, in row
      i / 2, at x 20 when i is even and 110 when odd; the grid has
      ceil(n / 2) rows, each full except possibly the last. */
  lemma AllEmbedded(finalY: int, ok: seq<bool>)
    requires forall i :: 0 <= i < |ok| ==> ok[i]
    ensures var s := LayOutPhotos(finalY, ok);
            s.Photos? ==>
              && |s.placed| == |ok|
              && (forall k :: 0 <= k < |ok| ==>
                    && s.placed[k].index == k
                    && s.placed[k].row == k / 2
                    && s.placed[k].x == (if k % 2 == 0 then Margin else Margin + ColumnStep))
              && s.placed[|ok| - 1].row + 1 == (|ok| + 1) / 2
  {
    SuccessesOfAll(ok);
  }

  /** No two embedded photos overlap, whatever the table height and
      whichever embeds failed. */
  lemma NoOverlap(finalY: int, ok: seq<bool>)
    ensures var ps := Placed(LayOutPhotos(finalY, ok));
            forall k, l :: 0 <= k < l < |ps| ==> Disjoint(ps[k], ps[l])
  {
    var ps := Placed(LayOutPhotos(finalY, ok));
    PlacedCount(finalY, ok);
    forall k, l | 0 <= k < l < |ps|
      ensures Disjoint(ps[k], ps[l])
    {
      PlacementIsExpected(finalY, ok, k);
      PlacementIsExpected(finalY, ok, l);
      ExpectedDisjoint(finalY, ok, Successes(ok)[k], Successes(ok)[l]);
    }
  }

  /** Reference placements of two embedded photos do not overlap. */
  lemma ExpectedDisjoint(finalY: int, ok: seq<bool>, i: nat, j: nat)
    requires i < j < |ok| && ok[i]
    ensures Disjoint(Expected(finalY, ok, i), Expected(finalY, ok, j))
  {
    if i / 2 < j / 2 {
      RowsSeparated(finalY, i / 2, j / 2);
    } else {
      assert j == i + 1 && i % 2 == 0;
    }
  }

  /** Three photos below a table ending at 60: two in the first row at y 80,
      the third alone in the second row at y 150, no page added. */
  lemma ThreePhotoGrid()
    ensures LayOutPhotos(60, [true, true, true]) ==
            Photos(Heading(0, 70),
                   [Placement(0, 0, 0, 20, 80), Placement(1, 0, 0, 110, 80), Placement(2, 0, 1, 20, 150)],
                   0)
  {
    var ok := [true, true, true];
    var s := LayOutPhotos(60, ok);
    SuccessesOfAll(ok);
    var r0, r1 := RowCursor(60, 0), RowCursor(60, 1);
    assert r0 == Cursor(0, 0, 20, 80);
    assert r1 == Cursor(0, 1, 20, 150);
    assert s.placed[0] == Expected(60, ok, 0) == Placement(0, 0, 0, 20, 80);
    assert s.placed[1] == Expected(60, ok, 1) == Placement(1, 0, 0, 110, 80);
    assert s.placed[2] == Expected(60, ok, 2) == Placement(2, 0, 1, 20, 150);
  }

  /** The break line does not keep photos on the page: a table ending at
      230 puts the heading at 240 and the first row at 250, whose bottom
      edge is 310, past the 297 of an A4 page. */
  lemma PhotoCanPassPageBottom()
    ensures LayOutPhotos(230, [true]).Photos?
    ensures |LayOutPhotos(230, [true]).placed| == 1
    ensures LayOutPhotos(230, [true]).placed[0].y + ImgHeight > PageHeight
  {
    RowCursorStart(230);
  }

}
