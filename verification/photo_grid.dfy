/**
 The photo grid of the generated document: the `forEach` over the selected
 photos, two per row, with row and page breaks, and with every failed
 `addImage` skipped.

 The embed outcome of each photo is an input (`ok[i]` is true when
 `addImage` accepted photo i), since the embedding library is not modelled.
 */
module PhotoGrid {
  import opened GridGeometry

  /** One embedded photo: its index in the selection, and where it went. */
  datatype Placement = Placement(index: nat, page: nat, row: nat, x: int, y: int)

  /** The loop state together with the placements made so far. */
  datatype Grid = Grid(cursor: Cursor, placed: seq<Placement>)

  /** The photo section of the document: absent when no photo is selected. */
  datatype PhotoSection =
    | NoPhotos
    | Photos(heading: Heading, placed: seq<Placement>, pagesAdded: nat)

  /** Number of pages the section adds after the table's last page. */
  function PagesAdded(s: PhotoSection): nat
  {
    match s
    case NoPhotos => 0
    case Photos(_, _, n) => n
  }

  /** The placements of a section; none when there is no section. */
  function Placed(s: PhotoSection): seq<Placement>
  {
    match s
    case NoPhotos => []
    case Photos(_, placed, _) => placed
  }

  /** Row break test of the loop body: every even index but the first. */
  predicate StartsRow(i: nat)
  {
    i > 0 && i % 2 == 0
  }

  /** The loop body before the embed: break the row if the index asks for
      it. */
  function Advance(c: Cursor, i: nat): Cursor
  {
    if StartsRow(i) then RowBreak(c) else c
  }

  /** One iteration of the loop, for photo `i`: break the row if needed,
      then embed the photo at the cursor and move one column right, or, if
      the embed failed, leave the cursor where it is. */
  function Step(g: Grid, i: nat, embedded: bool): Grid
  {
    var c := Advance(g.cursor, i);
    if embedded then Grid(c.(x := c.x + ColumnStep), g.placed + [Placement(i, c.page, c.row, c.x, c.y)])
    else Grid(c, g.placed)
  }

  /** The loop over photos 0 .. |ok| - 1, in order. */
  function Walk(start: Cursor, ok: seq<bool>): Grid
    decreases |ok|
  {
    if |ok| == 0 then Grid(start, [])
    else Step(Walk(start, ok[..|ok| - 1]), |ok| - 1, ok[|ok| - 1])
  }

  /** Indices of the photos whose embed succeeded, in ascending order. */
  function Successes(ok: seq<bool>): (s: seq<nat>)
    ensures forall k :: 0 <= k < |s| ==> s[k] < |ok| && ok[s[k]]
    ensures forall k, l :: 0 <= k < l < |s| ==> s[k] < s[l]
    ensures forall i :: 0 <= i < |ok| && ok[i] ==> i in s
    decreases |ok|
  {
    if |ok| == 0 then []
    else Successes(ok[..|ok| - 1]) + (if ok[|ok| - 1] then [|ok| - 1] else [])
  }

  /** Embedded photos in the row of photo `i` up to and including it. */
  function InRow(ok: seq<bool>, i: nat): nat
    requires i < |ok|
  {
    (if i % 2 == 1 && ok[i - 1] then 1 else 0) + (if ok[i] then 1 else 0)
  }

  /** Reference column of photo `i`: the second column only when it is the
      odd photo of a row whose even photo was embedded. */
  function ColumnX(ok: seq<bool>, i: nat): int
    requires i < |ok|
  {
    if i % 2 == 1 && ok[i - 1] then Margin + ColumnStep else Margin
  }

  /** Reference placement of photo `i`: row i / 2 at its closed-form
      position, in the column ColumnX. */
  function Expected(finalY: int, ok: seq<bool>, i: nat): Placement
    requires i < |ok|
  {
    var rc := RowCursor(finalY, i / 2);
    Placement(i, rc.page, i / 2, ColumnX(ok, i), rc.y)
  }

  lemma {:induction false} ExpectedOnPrefix(finalY: int, ok: seq<bool>, n: nat, i: nat)
    requires i < n <= |ok|
    ensures Expected(finalY, ok[..n], i) == Expected(finalY, ok, i)
  {
    assert ok[..n][i] == ok[i];
    if i % 2 == 1 {
      assert ok[..n][i - 1] == ok[i - 1];
    }
  }

  /** Where the loop stands after photos 0 .. |ok| - 1: in the row of the
      last photo, one column step right of the margin for each photo of
      that row that was embedded. */
  lemma {:induction false} WalkCursor(finalY: int, ok: seq<bool>)
    ensures |ok| == 0 ==> Walk(FirstRow(finalY), ok).cursor == FirstRow(finalY)
    ensures |ok| > 0 ==>
              Walk(FirstRow(finalY), ok).cursor ==
              RowCursor(finalY, (|ok| - 1) / 2).(x := Margin + ColumnStep * InRow(ok, |ok| - 1))
    decreases |ok|
  {
    if |ok| > 0 {
      var i := |ok| - 1;
      var pre := ok[..i];
      WalkCursor(finalY, pre);
      AdvanceToReference(finalY, ok);
    }
  }

  /** Before photo i = |ok| - 1 is embedded, the cursor is at its reference
      position. */
  lemma {:induction false} AdvanceToReference(finalY: int, ok: seq<bool>)
    requires |ok| > 0
    requires |ok| - 1 == 0 ==> Walk(FirstRow(finalY), ok[..|ok| - 1]).cursor == FirstRow(finalY)
    requires |ok| - 1 > 0 ==>
               Walk(FirstRow(finalY), ok[..|ok| - 1]).cursor ==
               RowCursor(finalY, (|ok| - 2) / 2).(x := Margin + ColumnStep * InRow(ok[..|ok| - 1], |ok| - 2))
    ensures Advance(Walk(FirstRow(finalY), ok[..|ok| - 1]).cursor, |ok| - 1) ==
              RowCursor(finalY, (|ok| - 1) / 2).(x := ColumnX(ok, |ok| - 1))
  {
    var i := |ok| - 1;
    var pre := ok[..i];
    var c0 := Walk(FirstRow(finalY), pre).cursor;
    if i == 0 {
      RowCursorStart(finalY);
    } else if i % 2 == 0 {
      RowBreakAdvancesRow(finalY, (i - 1) / 2);
    } else {
      assert pre[i - 1] == ok[i - 1];
    }
  }

  /** The loop agrees with the reference: the placements are exactly the
      embedded photos in ascending order, each at its reference position. */
  lemma {:induction false} WalkMatchesReference(finalY: int, ok: seq<bool>)
    ensures |Walk(FirstRow(finalY), ok).placed| == |Successes(ok)|
    ensures forall k :: 0 <= k < |Walk(FirstRow(finalY), ok).placed| ==>
              Walk(FirstRow(finalY), ok).placed[k] == Expected(finalY, ok, Successes(ok)[k])
    decreases |ok|
  {
    if |ok| > 0 {
      var i := |ok| - 1;
      var pre := ok[..i];
      WalkMatchesReference(finalY, pre);
      WalkCursor(finalY, pre);
      AdvanceToReference(finalY, ok);
      var g0 := Walk(FirstRow(finalY), pre);
      var g := Walk(FirstRow(finalY), ok);
      assert g == Step(g0, i, ok[i]);
      var s0 := Successes(pre);
      assert Successes(ok) == s0 + (if ok[i] then [i] else []);
      forall k | 0 <= k < |g0.placed|
        ensures g.placed[k] == Expected(finalY, ok, Successes(ok)[k])
      {
        ExpectedOnPrefix(finalY, ok, i, s0[k]);
      }
    }
  }

  /** The photo section of `generatePDF`: nothing without photos; otherwise
      the heading, then the grid, with the pages it added. */
  function LayOutPhotos(finalY: int, ok: seq<bool>): (s: PhotoSection)
    ensures |ok| == 0 <==> s == NoPhotos
    ensures s.Photos? ==> s.heading == SectionHeading(finalY)
    ensures s.Photos? ==> |s.placed| == |Successes(ok)|
    ensures s.Photos? ==> forall k :: 0 <= k < |s.placed| ==>
              s.placed[k] == Expected(finalY, ok, Successes(ok)[k])
    ensures s.Photos? ==> s.pagesAdded == RowCursor(finalY, (|ok| - 1) / 2).page
  {
    if |ok| == 0 then NoPhotos
    else
      WalkMatchesReference(finalY, ok);
      WalkCursor(finalY, ok);
      var g := Walk(FirstRow(finalY), ok);
      Photos(SectionHeading(finalY), g.placed, g.cursor.page)
  }

}
