/** Where columns, lanes, cells and rails of the map lie, and why they keep clear of one another (assets/metro-core.js). */
module Geometry {
  import opened Prelude

  datatype Point = Point(x: real, y: real)
  datatype Rect = Rect(x: real, y: real, width: real, height: real)

  /** The rectangles share no point of their interiors. */
  predicate Apart(a: Rect, b: Rect) {
    a.x + a.width <= b.x || b.x + b.width <= a.x || a.y + a.height <= b.y || b.y + b.height <= a.y
  }

  /** An axis-parallel segment and a rectangle share a point. */
  predicate Meets(p: Point, q: Point, r: Rect) {
    && (p.x <= r.x + r.width || q.x <= r.x + r.width) && (p.x >= r.x || q.x >= r.x)
    && (p.y <= r.y + r.height || q.y <= r.y + r.height) && (p.y >= r.y || q.y >= r.y)
  }

  // ----- one cell: workspaces in rows of their own, labels on shared shelves -----

  datatype Box = Box(id: string, workspace: bool, width: real, height: real)

  predicate Sized(b: Box) {
    b.width > 0.0 && b.height > 0.0
  }

  predicate WorkspacesFirst(cell: seq<Box>) {
    forall i, j :: 0 <= i < j < |cell| && cell[j].workspace ==> cell[i].workspace
  }

  function RectAt(cell: seq<Box>, offsets: seq<Point>, i: nat): Rect
    requires i < |cell| && i < |offsets|
  {
    Rect(offsets[i].x, offsets[i].y, cell[i].width, cell[i].height)
  }

  ghost predicate Packed(cell: seq<Box>, offsets: seq<Point>, width: real, height: real) {
    && |offsets| == |cell|
    && (forall i :: 0 <= i < |cell| ==>
          && offsets[i].x >= 0.0 && offsets[i].x + cell[i].width <= width
          && offsets[i].y >= 24.0 && offsets[i].y + cell[i].height <= height)
    && (forall i, j :: 0 <= i < j < |cell| ==> Apart(RectAt(cell, offsets, i), RectAt(cell, offsets, j)))
  }

  method CellWidth(cell: seq<Box>) returns (width: real)
    ensures width >= 320.0 && forall i :: 0 <= i < |cell| ==> cell[i].width <= width
  {
    width := 320.0;
    for i := 0 to |cell|
      invariant width >= 320.0 && forall k :: 0 <= k < i ==> cell[k].width <= width
    {
      if cell[i].width > width {
        width := cell[i].width;
      }
    }
  }

  /** Placed so far: everything lies above `top` or to the left on the shelf that starts there. */
  ghost predicate Shelved(cell: seq<Box>, offsets: seq<Point>, width: real, top: real, left: real, shelf: real) {
    && |offsets| <= |cell| && top >= 24.0 && left >= 0.0 && shelf >= 0.0
    && (forall i :: 0 <= i < |offsets| ==>
          && offsets[i].x >= 0.0 && offsets[i].x + cell[i].width <= width && offsets[i].y >= 24.0
          && (offsets[i].y + cell[i].height <= top
              || (offsets[i].y == top && offsets[i].x + cell[i].width <= left && cell[i].height <= shelf)))
    && (forall i, j :: 0 <= i < j < |offsets| ==> Apart(RectAt(cell, offsets, i), RectAt(cell, offsets, j)))
  }

  lemma ShelveOne(cell: seq<Box>, offsets: seq<Point>, width: real, top: real, left: real, shelf: real,
                  p: Point, top': real, left': real, shelf': real)
    requires Shelved(cell, offsets, width, top, left, shelf) && |offsets| < |cell| && Sized(cell[|offsets|])
    requires var b := cell[|offsets|];
             || (p == Point(0.0, top) && left == 0.0 && shelf == 0.0 && b.width <= width
                 && top' == top + b.height + 8.0 && left' == 0.0 && shelf' == 0.0)
             || (p == Point(left, top) && left + b.width <= width && top' == top
                 && left' == left + b.width + 8.0 && shelf' >= shelf && shelf' >= b.height)
             || (p == Point(0.0, top + shelf + 8.0) && b.width <= width && top' == top + shelf + 8.0
                 && left' == b.width + 8.0 && shelf' == b.height)
    ensures Shelved(cell, offsets + [p], width, top', left', shelf')
  {
    var more := offsets + [p];
    var n := |offsets|;
    assert more[n] == p;
    assert forall i :: 0 <= i < n ==> more[i] == offsets[i] && RectAt(cell, more, i) == RectAt(cell, offsets, i);
  }

  method PackCell(cell: seq<Box>) returns (offsets: seq<Point>, width: real, height: real)
    requires WorkspacesFirst(cell) && forall i :: 0 <= i < |cell| ==> Sized(cell[i])
    ensures Packed(cell, offsets, width, height)
  {
    width := CellWidth(cell);
    var top, left, shelf := 24.0, 0.0, 0.0;
    offsets := [];
    for i := 0 to |cell|
      invariant |offsets| == i && Shelved(cell, offsets, width, top, left, shelf)
      invariant i > 0 && cell[i - 1].workspace ==> left == 0.0 && shelf == 0.0
      invariant i == 0 ==> left == 0.0 && shelf == 0.0
    {
      var b := cell[i];
      if b.workspace {
        ShelveOne(cell, offsets, width, top, left, shelf, Point(0.0, top), top + b.height + 8.0, 0.0, 0.0);
        offsets := offsets + [Point(0.0, top)];
        top := top + b.height + 8.0;
      } else if left != 0.0 && left + b.width > width {
        ShelveOne(cell, offsets, width, top, left, shelf, Point(0.0, top + shelf + 8.0),
                  top + shelf + 8.0, b.width + 8.0, b.height);
        top, left, shelf := top + shelf + 8.0, 0.0, 0.0;
        offsets := offsets + [Point(left, top)];
        left, shelf := left + b.width + 8.0, b.height;
      } else {
        var taller := if b.height > shelf then b.height else shelf;
        ShelveOne(cell, offsets, width, top, left, shelf, Point(left, top), top, left + b.width + 8.0, taller);
        offsets := offsets + [Point(left, top)];
        left, shelf := left + b.width + 8.0, taller;
      }
    }
    height := top + shelf;
  }

  // ----- columns and lanes -----

  /** Columns by rank: how wide each is, how many vertical channels follow it, and where it starts. */
  datatype Columns = Columns(gap: real, widths: seq<real>, channels: seq<nat>, xs: seq<real>, right: real)

  /** Lanes by index: how high their cells are, how many tracks run above their line, and where they lie. */
  datatype Rows = Rows(gap: real, heights: seq<real>, tracks: seq<nat>, tops: seq<real>, ys: seq<real>, bottom: real)

  function NextX(c: Columns, r: nat): real
    requires r < |c.xs| && r < |c.widths| && r < |c.channels|
  {
    c.xs[r] + c.widths[r] + c.gap + c.channels[r] as real * 16.0
  }

  function LineOf(w: Rows, l: nat): real
    requires l < |w.tops| && l < |w.tracks|
  {
    w.tops[l] + w.tracks[l] as real * 16.0 + 24.0
  }

  function NextTop(w: Rows, l: nat): real
    requires l < |w.ys| && l < |w.heights|
  {
    w.ys[l] + w.heights[l] + w.gap
  }

  ghost predicate ColumnsPlaced(c: Columns) {
    && |c.xs| == |c.widths| == |c.channels| && c.gap >= 48.0
    && (forall r :: 0 <= r < |c.widths| ==> c.widths[r] >= 48.0)
    && (if |c.xs| > 0 then c.xs[0] == 24.0 else c.right == 24.0)
    && (forall r {:trigger NextX(c, r)} :: 0 <= r < |c.xs| ==> NextX(c, r) == (if r + 1 < |c.xs| then c.xs[r + 1] else c.right))
  }

  ghost predicate RowsPlaced(w: Rows) {
    && |w.tops| == |w.ys| == |w.heights| == |w.tracks| && w.gap >= 48.0
    && (forall l :: 0 <= l < |w.heights| ==> w.heights[l] >= 0.0)
    && (if |w.tops| > 0 then w.tops[0] == 24.0 else w.bottom == 24.0)
    && (forall l :: 0 <= l < |w.tops| ==> w.ys[l] == LineOf(w, l))
    && (forall l {:trigger NextTop(w, l)} :: 0 <= l < |w.tops| ==> NextTop(w, l) == (if l + 1 < |w.tops| then w.tops[l + 1] else w.bottom))
  }

  lemma {:induction false} ColumnsApart(c: Columns, r: nat, s: nat)
    requires ColumnsPlaced(c) && r < s < |c.xs|
    ensures NextX(c, r) <= c.xs[s]
    decreases s
  {
    assert NextX(c, s - 1) == c.xs[s];
    if r + 1 < s {
      ColumnsApart(c, r, s - 1);
    }
  }

  lemma {:induction false} LanesApart(w: Rows, l: nat, m: nat)
    requires RowsPlaced(w) && l < m < |w.tops|
    ensures NextTop(w, l) <= w.tops[m]
    decreases m
  {
    assert NextTop(w, m - 1) == w.tops[m];
    if l + 1 < m {
      LanesApart(w, l, m - 1);
    }
  }

  lemma {:induction false} LaneAboveBottom(w: Rows, l: nat)
    requires RowsPlaced(w) && l < |w.tops|
    ensures NextTop(w, l) <= w.bottom
  {
    var last := |w.tops| - 1;
    assert NextTop(w, last) == w.bottom;
    if l < last {
      LanesApart(w, l, last);
    }
  }

  /** The part of the map reserved for the cell of rank `r` on lane `l`. */
  ghost predicate InCell(c: Columns, w: Rows, r: nat, l: nat, rect: Rect)
    requires ColumnsPlaced(c) && RowsPlaced(w)
  {
    && r < |c.xs| && l < |w.tops|
    && c.xs[r] + 24.0 <= rect.x && rect.x + rect.width <= c.xs[r] + c.widths[r]
    && w.ys[l] + 24.0 <= rect.y && rect.y + rect.height <= w.ys[l] + w.heights[l]
    && rect.width > 0.0 && rect.height > 0.0
  }

  /** Cells of different rank or lane never overlap. */
  lemma CellsApart(c: Columns, w: Rows, r: nat, l: nat, a: Rect, s: nat, m: nat, b: Rect)
    requires ColumnsPlaced(c) && RowsPlaced(w) && InCell(c, w, r, l, a) && InCell(c, w, s, m, b)
    requires r != s || l != m
    ensures Apart(a, b)
  {
    if r < s { ColumnsApart(c, r, s); }
    if s < r { ColumnsApart(c, s, r); }
    if l < m { LanesApart(w, l, m); }
    if m < l { LanesApart(w, m, l); }
  }

  lemma CellAboveBottom(c: Columns, w: Rows, r: nat, l: nat, a: Rect, b: Rect)
    requires ColumnsPlaced(c) && RowsPlaced(w) && InCell(c, w, r, l, a) && b.y >= w.bottom
    ensures Apart(a, b)
  {
    LaneAboveBottom(w, l);
  }

  // ----- rails -----

  /** A height at which rails of lane `l` run: its line, or one of the tracks above it. */
  ghost predicate RailHeight(w: Rows, l: nat, y: real)
    requires RowsPlaced(w)
  {
    l < |w.tops| && w.tops[l] < y <= w.ys[l]
  }

  /** A position strictly between column `r` and the next. */
  ghost predicate ChannelAt(c: Columns, r: nat, x: real)
    requires ColumnsPlaced(c)
  {
    r < |c.xs| && c.xs[r] + c.widths[r] < x < NextX(c, r)
  }

  lemma HorizontalClears(c: Columns, w: Rows, k: nat, p: Point, q: Point, r: nat, l: nat, rect: Rect)
    requires ColumnsPlaced(c) && RowsPlaced(w) && InCell(c, w, r, l, rect)
    requires p.y == q.y && RailHeight(w, k, p.y)
    ensures !Meets(p, q, rect)
  {
    if k < l { LanesApart(w, k, l); }
    if l < k { LanesApart(w, l, k); }
  }

  lemma VerticalClears(c: Columns, w: Rows, k: nat, p: Point, q: Point, r: nat, l: nat, rect: Rect)
    requires ColumnsPlaced(c) && RowsPlaced(w) && InCell(c, w, r, l, rect)
    requires p.x == q.x && ChannelAt(c, k, p.x)
    ensures !Meets(p, q, rect)
  {
    if k < r { ColumnsApart(c, k, r); }
    if r < k { ColumnsApart(c, r, k); }
  }

  /** No rail reaches below the last lane, where unborn workspaces are put. */
  lemma RailsAboveBottom(w: Rows, k: nat, p: Point, l: nat, q: Point, rect: Rect)
    requires RowsPlaced(w) && RailHeight(w, k, p.y) && RailHeight(w, l, q.y) && rect.y >= w.bottom
    ensures !Meets(p, q, rect)
  {
    LaneAboveBottom(w, k);
    LaneAboveBottom(w, l);
  }

  method PlaceLanes(gap: real, heights: seq<real>, tracks: seq<nat>) returns (w: Rows)
    requires gap >= 48.0 && |heights| == |tracks| && forall l :: 0 <= l < |heights| ==> heights[l] >= 0.0
    ensures RowsPlaced(w) && w.gap == gap && w.heights == heights && w.tracks == tracks
  {
    w := Rows(gap, [], [], [], [], 24.0);
    for l := 0 to |heights|
      invariant RowsPlaced(w) && w.gap == gap && w.heights == heights[..l] && w.tracks == tracks[..l]
    {
      TakeMore(heights, l);
      TakeMore(tracks, l);
      var y := w.bottom + tracks[l] as real * 16.0 + 24.0;
      AddRow(w, heights[l], tracks[l]);
      w := Rows(gap, w.heights + [heights[l]], w.tracks + [tracks[l]], w.tops + [w.bottom], w.ys + [y], y + heights[l] + gap);
    }
    assert heights[..|heights|] == heights && tracks[..|tracks|] == tracks;
  }

  lemma AddRow(w: Rows, height: real, tracks: nat)
    requires RowsPlaced(w) && height >= 0.0
    ensures var y := w.bottom + tracks as real * 16.0 + 24.0;
            RowsPlaced(Rows(w.gap, w.heights + [height], w.tracks + [tracks], w.tops + [w.bottom], w.ys + [y], y + height + w.gap))
  {
    var y := w.bottom + tracks as real * 16.0 + 24.0;
    var more := Rows(w.gap, w.heights + [height], w.tracks + [tracks], w.tops + [w.bottom], w.ys + [y], y + height + w.gap);
    var n := |w.tops|;
    forall l | 0 <= l < n + 1
      ensures more.ys[l] == LineOf(more, l)
      ensures NextTop(more, l) == (if l + 1 < n + 1 then more.tops[l + 1] else more.bottom)
    {
      if l < n {
        assert more.ys[l] == w.ys[l] == LineOf(w, l) == LineOf(more, l);
        assert NextTop(more, l) == NextTop(w, l);
      }
    }
    if n > 0 {
      assert more.tops[0] == w.tops[0];
    }
  }
}
