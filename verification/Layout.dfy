/** `layoutTopology`: from a graph and its checkouts to stations, labels and rails that never collide (assets/metro-core.js). */
module Layout {
  import opened Prelude
  import opened Topology
  import opened Geometry
  import opened Routing
  import Kahn
  import Lanes
  import MapValidation

  const MAX_ROWS := 2048

  datatype Attachment = Attachment(worktree: string, head: Oid, width: real, height: real)

  /** An endpoint with its rank, its lane and its packed cell. */
  datatype Station = Station(oid: Oid, rank: nat, lane: nat, cell: seq<Box>, offsets: seq<Point>, height: real)

  ghost predicate StationOk(s: Station) {
    (exists width :: Packed(s.cell, s.offsets, width, s.height)) && s.height >= 0.0
    && forall i :: 0 <= i < |s.cell| ==> Sized(s.cell[i])
  }

  /** Stations are listed once, and no two share both rank and lane. */
  ghost predicate StationsApart(stations: seq<Station>) {
    forall i, j :: 0 <= i < j < |stations| ==>
      stations[i].rank != stations[j].rank || stations[i].lane != stations[j].lane
  }

  datatype Frame = Frame(columns: Columns, rows: Rows)

  ghost predicate Framed(fr: Frame, stations: seq<Station>) {
    && ColumnsPlaced(fr.columns) && RowsPlaced(fr.rows)
    && forall i :: 0 <= i < |stations| ==> FramesStation(fr, stations[i])
  }

  /** The column is wide enough and the lane high enough for the station's cell. */
  ghost predicate FramesStation(fr: Frame, s: Station) {
    && StationOk(s) && s.rank < |fr.columns.xs| && s.rank < |fr.columns.widths| && s.lane < |fr.rows.tops|
    && s.lane < |fr.rows.heights| && s.lane < |fr.rows.ys|
    && (forall k :: 0 <= k < |s.cell| && k < |s.offsets| ==> s.offsets[k].x + s.cell[k].width + 24.0 <= fr.columns.widths[s.rank])
    && s.height <= fr.rows.heights[s.lane]
  }

  function LabelRect(fr: Frame, s: Station, k: nat): Rect
    requires s.rank < |fr.columns.xs| && s.lane < |fr.rows.ys| && k < |s.cell| && k < |s.offsets|
  {
    Rect(fr.columns.xs[s.rank] + 24.0 + s.offsets[k].x, fr.rows.ys[s.lane] + s.offsets[k].y, s.cell[k].width, s.cell[k].height)
  }

  lemma LabelInCell(fr: Frame, s: Station, k: nat)
    requires ColumnsPlaced(fr.columns) && RowsPlaced(fr.rows) && FramesStation(fr, s) && k < |s.cell|
    ensures k < |s.offsets| && InCell(fr.columns, fr.rows, s.rank, s.lane, LabelRect(fr, s, k))
  {
    var width :| Packed(s.cell, s.offsets, width, s.height);
  }

  lemma LabelsOfOneCell(fr: Frame, s: Station, k: nat, m: nat)
    requires ColumnsPlaced(fr.columns) && RowsPlaced(fr.rows) && FramesStation(fr, s) && k < m < |s.cell|
    ensures m < |s.offsets| && Apart(LabelRect(fr, s, k), LabelRect(fr, s, m))
  {
    var width :| Packed(s.cell, s.offsets, width, s.height);
    assert Apart(RectAt(s.cell, s.offsets, k), RectAt(s.cell, s.offsets, m));
  }

  /** No two label or workspace rectangles of the map overlap. */
  lemma LabelsApart(fr: Frame, stations: seq<Station>, i: nat, k: nat, j: nat, m: nat)
    requires Framed(fr, stations) && StationsApart(stations)
    requires i < |stations| && j < |stations| && k < |stations[i].cell| && m < |stations[j].cell| && (i != j || k != m)
    ensures k < |stations[i].offsets| && m < |stations[j].offsets|
    ensures Apart(LabelRect(fr, stations[i], k), LabelRect(fr, stations[j], m))
  {
    var s, t := stations[i], stations[j];
    assert FramesStation(fr, s) && FramesStation(fr, t);
    LabelInCell(fr, s, k);
    LabelInCell(fr, t, m);
    if i == j {
      LabelsOfOneCell(fr, s, Min(k, m), if k < m then m else k);
    } else {
      CellsApart(fr.columns, fr.rows, s.rank, s.lane, LabelRect(fr, s, k), t.rank, t.lane, LabelRect(fr, t, m));
    }
  }

  // ----- rails -----

  function TrackY(rows: Rows, route: Route): real
    requires route.fromLane < |rows.ys|
  {
    rows.ys[route.fromLane] - 16.0 * (route.track + 1) as real
  }

  function RailPoints(fr: Frame, route: Route, departure: real, arrival: real): (p: seq<Point>)
    requires route.fromRank < |fr.columns.xs| && route.toRank < |fr.columns.xs|
    requires route.fromLane < |fr.rows.ys| && route.toLane < |fr.rows.ys|
    ensures |p| >= 2
  {
    var a := Point(fr.columns.xs[route.fromRank], fr.rows.ys[route.fromLane]);
    var z := Point(fr.columns.xs[route.toRank], fr.rows.ys[route.toLane]);
    if route.direct then [a, z]
    else
      var y := TrackY(fr.rows, route);
      [a, Point(departure, a.y), Point(departure, y), Point(arrival, y), Point(arrival, z.y), z]
  }

  ghost predicate Railed(fr: Frame, routes: seq<Route>, departure: seq<real>, arrival: seq<real>) {
    && RowsPlaced(fr.rows) && ChannelsPlaced(fr.columns, routes, departure, arrival)
    && RoutesOk(routes, |fr.columns.xs|, |fr.rows.tops|)
    && forall l :: 0 <= l < |fr.rows.tops| ==> fr.rows.tracks[l] == TracksOn(routes, l)
  }

  lemma StationLine(rows: Rows, l: nat)
    requires RowsPlaced(rows) && l < |rows.tops|
    ensures RailHeight(rows, l, rows.ys[l])
  {
    assert rows.ys[l] == LineOf(rows, l);
  }

  lemma TrackHeight(fr: Frame, routes: seq<Route>, departure: seq<real>, arrival: seq<real>, i: nat)
    requires Railed(fr, routes, departure, arrival) && i < |routes| && !routes[i].direct
    ensures RailHeight(fr.rows, routes[i].fromLane, TrackY(fr.rows, routes[i]))
    ensures TrackY(fr.rows, routes[i]) < fr.rows.ys[routes[i].fromLane]
  {
    var l := routes[i].fromLane;
    TrackWithinLane(routes, |fr.columns.xs|, |fr.rows.tops|, i);
    assert fr.rows.ys[l] == LineOf(fr.rows, l);
  }

  /** A segment of a rail runs along a height of some lane or along a channel of some gap. */
  ghost predicate Lawful(fr: Frame, p: Point, q: Point)
    requires ColumnsPlaced(fr.columns) && RowsPlaced(fr.rows)
  {
    && (exists l :: RailHeight(fr.rows, l, p.y)) && (exists l :: RailHeight(fr.rows, l, q.y))
    && (p.y == q.y || (p.x == q.x && exists r :: ChannelAt(fr.columns, r, p.x)))
  }

  lemma LawfulClears(fr: Frame, p: Point, q: Point, r: nat, l: nat, rect: Rect)
    requires ColumnsPlaced(fr.columns) && RowsPlaced(fr.rows) && Lawful(fr, p, q)
    requires InCell(fr.columns, fr.rows, r, l, rect)
    ensures !Meets(p, q, rect)
  {
    if p.y == q.y {
      var k :| RailHeight(fr.rows, k, p.y);
      HorizontalClears(fr.columns, fr.rows, k, p, q, r, l, rect);
    } else {
      var k :| ChannelAt(fr.columns, k, p.x);
      VerticalClears(fr.columns, fr.rows, k, p, q, r, l, rect);
    }
  }

  lemma LawfulAboveBottom(fr: Frame, p: Point, q: Point, rect: Rect)
    requires ColumnsPlaced(fr.columns) && RowsPlaced(fr.rows) && Lawful(fr, p, q) && rect.y >= fr.rows.bottom
    ensures !Meets(p, q, rect)
  {
    var k :| RailHeight(fr.rows, k, p.y);
    var l :| RailHeight(fr.rows, l, q.y);
    RailsAboveBottom(fr.rows, k, p, l, q, rect);
  }

  lemma RailLawful(fr: Frame, routes: seq<Route>, departure: seq<real>, arrival: seq<real>, i: nat, t: nat)
    requires Railed(fr, routes, departure, arrival) && i < |routes|
    requires t + 1 < |RailPoints(fr, routes[i], departure[i], arrival[i])|
    ensures var p := RailPoints(fr, routes[i], departure[i], arrival[i]); Lawful(fr, p[t], p[t + 1])
  {
    var route := routes[i];
    StationLine(fr.rows, route.fromLane);
    StationLine(fr.rows, route.toLane);
    if !route.direct {
      TrackHeight(fr, routes, departure, arrival, i);
      var k, m := SlotsOf(fr.columns, routes, departure, arrival, |fr.rows.tops|, i);
      SlotsForward(fr.columns, routes, i, departure[i], k, arrival[i], m);
    }
  }

  /** Rails of different routed edges run on different heights between their channels. */
  lemma TrackHeightsDiffer(fr: Frame, routes: seq<Route>, departure: seq<real>, arrival: seq<real>, i: nat, j: nat)
    requires Railed(fr, routes, departure, arrival) && i < j < |routes| && !routes[i].direct && !routes[j].direct
    ensures TrackY(fr.rows, routes[i]) != TrackY(fr.rows, routes[j])
  {
    TrackHeight(fr, routes, departure, arrival, i);
    TrackHeight(fr, routes, departure, arrival, j);
    TracksDiffer(routes, |fr.columns.xs|, |fr.rows.tops|, i, j);
    var l, m := routes[i].fromLane, routes[j].fromLane;
    if l < m { LanesApart(fr.rows, l, m); }
    if m < l { LanesApart(fr.rows, m, l); }
  }

  // ----- the stages -----

  predicate Unborn(head: Oid) {
    head == "" || ((|head| == 40 || |head| == 64) && forall i :: 0 <= i < |head| ==> head[i] == '0')
  }

  /** Whether a station of the same lane lies strictly between the two ranks. */
  predicate Interrupted(order: seq<Oid>, ranks: map<Oid, nat>, laneOf: map<Oid, nat>, from: Oid, to: Oid)
    requires from in ranks && to in ranks && from in laneOf
    requires forall v :: v in order ==> v in ranks && v in laneOf
  {
    exists v :: v in order && laneOf[v] == laneOf[from] && ranks[from] < ranks[v] < ranks[to]
  }

  method RouteEdges(arcs: Arcs, order: seq<Oid>, ranks: map<Oid, nat>, laneOf: map<Oid, nat>, rankCount: nat, laneCount: nat)
    returns (routes: seq<Route>, tracks: seq<nat>)
    requires forall a :: a in arcs ==> a.0 in ranks && a.1 in ranks && a.0 in laneOf && a.1 in laneOf && ranks[a.0] < ranks[a.1]
    requires forall v :: v in order ==> v in ranks && v in laneOf
    requires forall v :: v in ranks ==> ranks[v] < rankCount
    requires forall v :: v in laneOf ==> laneOf[v] < laneCount
    ensures |routes| == |arcs| && |tracks| == laneCount && RoutesOk(routes, rankCount, laneCount)
    ensures forall l :: 0 <= l < laneCount ==> tracks[l] == TracksOn(routes, l)
    ensures forall i :: 0 <= i < |arcs| ==>
              && routes[i].fromRank == ranks[arcs[i].0] && routes[i].toRank == ranks[arcs[i].1]
              && routes[i].fromLane == laneOf[arcs[i].0] && routes[i].toLane == laneOf[arcs[i].1]
              && (routes[i].direct <==> laneOf[arcs[i].0] == laneOf[arcs[i].1]
                                        && !Interrupted(order, ranks, laneOf, arcs[i].0, arcs[i].1))
  {
    routes := [];
    tracks := seq(laneCount, l => 0);
    for i := 0 to |arcs|
      invariant |routes| == i && |tracks| == laneCount && RoutesOk(routes, rankCount, laneCount)
      invariant forall l :: 0 <= l < laneCount ==> tracks[l] == TracksOn(routes, l)
      invariant forall k :: 0 <= k < i ==>
                  && routes[k].fromRank == ranks[arcs[k].0] && routes[k].toRank == ranks[arcs[k].1]
                  && routes[k].fromLane == laneOf[arcs[k].0] && routes[k].toLane == laneOf[arcs[k].1]
                  && (routes[k].direct <==> laneOf[arcs[k].0] == laneOf[arcs[k].1]
                                            && !Interrupted(order, ranks, laneOf, arcs[k].0, arcs[k].1))
    {
      var (from, to) := arcs[i];
      assert arcs[i] in arcs;
      var lane := laneOf[from];
      var direct := lane == laneOf[to] && !Interrupted(order, ranks, laneOf, from, to);
      var route := Route(direct, ranks[from], ranks[to], lane, laneOf[to], tracks[lane]);
      RouteMore(routes, route, rankCount, laneCount);
      if !direct {
        tracks := tracks[lane := tracks[lane] + 1];
      }
      routes := routes + [route];
    }
  }

  lemma RouteMore(routes: seq<Route>, route: Route, rankCount: nat, laneCount: nat)
    requires RoutesOk(routes, rankCount, laneCount)
    requires route.fromRank < route.toRank < rankCount && route.fromLane < laneCount && route.toLane < laneCount
    requires route.direct ==> route.fromLane == route.toLane
    requires route.track == TracksOn(routes, route.fromLane)
    ensures RoutesOk(routes + [route], rankCount, laneCount)
    ensures forall l :: TracksOn(routes + [route], l) == TracksOn(routes, l) + if !route.direct && route.fromLane == l then 1 else 0
  {
    var more := routes + [route];
    assert more[..|routes|] == routes;
    forall i | 0 <= i < |more|
      ensures more[i].fromRank < more[i].toRank < rankCount && more[i].fromLane < laneCount && more[i].toLane < laneCount
      ensures more[i].direct ==> more[i].fromLane == more[i].toLane
      ensures !more[i].direct ==> more[i].track == TracksOn(more[..i], more[i].fromLane)
    {
      if i < |routes| {
        assert more[i] == routes[i] && more[..i] == routes[..i];
      }
    }
  }

  function LabelWidth(display: string): real {
    var w := (|display| * 8 + 48) as real;
    if w < 96.0 then 96.0 else if w > 320.0 then 320.0 else w
  }

  /** Checked attachments: sizes in range, one per worktree, heads on the graph or unborn. */
  ghost predicate AttachmentsOk(attachments: seq<Attachment>, endpoints: set<Oid>) {
    && |attachments| <= MAX_ROWS
    && (forall a :: a in attachments ==>
          && 1.0 <= a.width <= 16384.0 && 1.0 <= a.height <= 16384.0
          && (Unborn(a.head) || a.head in endpoints))
    && Distinct(seq(|attachments|, i requires 0 <= i < |attachments| => attachments[i].worktree))
  }

  method CheckAttachments(attachments: seq<Attachment>, endpoints: set<Oid>) returns (ok: bool)
    ensures ok <==> AttachmentsOk(attachments, endpoints)
  {
    var each := true;
    for i := 0 to |attachments|
      invariant each <==> forall k :: 0 <= k < i ==>
                  && 1.0 <= attachments[k].width <= 16384.0 && 1.0 <= attachments[k].height <= 16384.0
                  && (Unborn(attachments[k].head) || attachments[k].head in endpoints)
    {
      var a := attachments[i];
      each := each && 1.0 <= a.width && a.width <= 16384.0 && 1.0 <= a.height && a.height <= 16384.0
              && (Unborn(a.head) || a.head in endpoints);
    }
    var distinct := MapValidation.AllDistinct(seq(|attachments|, i requires 0 <= i < |attachments| => attachments[i].worktree));
    ok := |attachments| <= MAX_ROWS && each && distinct;
  }

  // ----- the labels of a station -----

  function WorkspaceBox(a: Attachment): Box {
    Box("workspace:" + a.worktree, true, a.width, a.height)
  }

  function NodeBox(oid: Oid, junction: bool): Box {
    Box("node:" + oid, false, if junction then 160.0 else 96.0, 44.0)
  }

  function RefBox(r: Ref): Box {
    Box("ref:" + r.name, false, LabelWidth(r.display), 44.0)
  }

  function BoundaryBox(b: Boundary): Box {
    Box(b.id, false, 320.0, 44.0)
  }

  predicate HeadedAt(a: Attachment, oid: Oid) {
    !Unborn(a.head) && a.head == oid
  }

  /** One box for every workspace whose head is here. */
  function WorkspaceBoxes(attachments: seq<Attachment>, oid: Oid): seq<Box> {
    if attachments == [] then []
    else
      var n := |attachments| - 1;
      WorkspaceBoxes(attachments[..n], oid) + if HeadedAt(attachments[n], oid) then [WorkspaceBox(attachments[n])] else []
  }

  function RefBoxes(refs: seq<Ref>, oid: Oid): seq<Box> {
    if refs == [] then []
    else
      var n := |refs| - 1;
      RefBoxes(refs[..n], oid) + if refs[n].oid == oid then [RefBox(refs[n])] else []
  }

  function BoundaryBoxes(boundaries: seq<Boundary>, oid: Oid): seq<Box> {
    if boundaries == [] then []
    else
      var n := |boundaries| - 1;
      BoundaryBoxes(boundaries[..n], oid) + if boundaries[n].oid == oid then [BoundaryBox(boundaries[n])] else []
  }

  /** Everything a station shows: each workspace, ref and boundary there once, and the station's own label. */
  ghost function LabelsAt(g: Graph, attachments: seq<Attachment>, oid: Oid, junction: bool): multiset<Box> {
    multiset(WorkspaceBoxes(attachments, oid)) + multiset{NodeBox(oid, junction)}
    + multiset(RefBoxes(g.refs, oid)) + multiset(BoundaryBoxes(g.boundaries, oid))
  }

  /** Workspaces come first, the preferred ones before the others. */
  method BuildCell(g: Graph, attachments: seq<Attachment>, preferred: set<string>, oid: Oid, junction: bool)
    returns (cell: seq<Box>)
    requires forall a :: a in attachments ==> 1.0 <= a.width && 1.0 <= a.height
    ensures WorkspacesFirst(cell) && forall i :: 0 <= i < |cell| ==> Sized(cell[i])
    ensures multiset(cell) == LabelsAt(g, attachments, oid, junction)
  {
    var workspaces := PlaceWorkspaces(attachments, preferred, oid);
    var rest := CompactLabels(g, oid, junction);
    cell := workspaces + rest;
    assert multiset(cell) == multiset(workspaces) + multiset(rest);
  }

  /** The workspaces here that are preferred, or those that are not. */
  function Chosen(attachments: seq<Attachment>, preferred: set<string>, oid: Oid, want: bool): seq<Box> {
    if attachments == [] then []
    else
      var n := |attachments| - 1;
      Chosen(attachments[..n], preferred, oid, want)
      + if HeadedAt(attachments[n], oid) && (attachments[n].worktree in preferred) == want then [WorkspaceBox(attachments[n])] else []
  }

  lemma {:induction false} ChosenTogether(attachments: seq<Attachment>, preferred: set<string>, oid: Oid)
    requires forall a :: a in attachments ==> 1.0 <= a.width && 1.0 <= a.height
    ensures multiset(Chosen(attachments, preferred, oid, true)) + multiset(Chosen(attachments, preferred, oid, false))
         == multiset(WorkspaceBoxes(attachments, oid))
    ensures forall b :: b in WorkspaceBoxes(attachments, oid) ==> Sized(b) && b.workspace
    decreases |attachments|
  {
    if attachments != [] {
      ChosenTogether(attachments[..|attachments| - 1], preferred, oid);
    }
  }

  method PlaceWorkspaces(attachments: seq<Attachment>, preferred: set<string>, oid: Oid) returns (boxes: seq<Box>)
    requires forall a :: a in attachments ==> 1.0 <= a.width && 1.0 <= a.height
    ensures multiset(boxes) == multiset(WorkspaceBoxes(attachments, oid))
    ensures forall k :: 0 <= k < |boxes| ==> Sized(boxes[k]) && boxes[k].workspace
  {
    var first, others: seq<Box> := [], [];
    for i := 0 to |attachments|
      invariant first == Chosen(attachments[..i], preferred, oid, true)
      invariant others == Chosen(attachments[..i], preferred, oid, false)
    {
      assert attachments[..i + 1][..i] == attachments[..i];
      if HeadedAt(attachments[i], oid) {
        if attachments[i].worktree in preferred {
          first := first + [WorkspaceBox(attachments[i])];
        } else {
          others := others + [WorkspaceBox(attachments[i])];
        }
      }
    }
    assert attachments[..|attachments|] == attachments;
    ChosenTogether(attachments, preferred, oid);
    boxes := first + others;
    SameBoxes(boxes, WorkspaceBoxes(attachments, oid));
  }

  lemma SameBoxes(a: seq<Box>, b: seq<Box>)
    requires multiset(a) == multiset(b) && forall x :: x in b ==> Sized(x) && x.workspace
    ensures forall k :: 0 <= k < |a| ==> Sized(a[k]) && a[k].workspace
  {
    forall k | 0 <= k < |a|
      ensures a[k] in b
    {
      assert a[k] in multiset(a);
    }
  }

  method CompactLabels(g: Graph, oid: Oid, junction: bool) returns (boxes: seq<Box>)
    ensures multiset(boxes) == multiset{NodeBox(oid, junction)} + multiset(RefBoxes(g.refs, oid)) + multiset(BoundaryBoxes(g.boundaries, oid))
    ensures forall k :: 0 <= k < |boxes| ==> Sized(boxes[k]) && !boxes[k].workspace
  {
    boxes := [NodeBox(oid, junction)];
    for i := 0 to |g.refs|
      invariant forall k :: 0 <= k < |boxes| ==> Sized(boxes[k]) && !boxes[k].workspace
      invariant boxes == [NodeBox(oid, junction)] + RefBoxes(g.refs[..i], oid)
    {
      assert g.refs[..i + 1][..i] == g.refs[..i];
      if g.refs[i].oid == oid {
        boxes := boxes + [RefBox(g.refs[i])];
      }
    }
    assert g.refs[..|g.refs|] == g.refs;
    var boundaries := BoundaryLabels(g.boundaries, oid);
    assert multiset([NodeBox(oid, junction)] + RefBoxes(g.refs, oid) + boundaries)
        == multiset{NodeBox(oid, junction)} + multiset(RefBoxes(g.refs, oid)) + multiset(boundaries);
    boxes := boxes + boundaries;
  }

  method BoundaryLabels(boundaries: seq<Boundary>, oid: Oid) returns (boxes: seq<Box>)
    ensures boxes == BoundaryBoxes(boundaries, oid)
    ensures forall k :: 0 <= k < |boxes| ==> Sized(boxes[k]) && !boxes[k].workspace
  {
    boxes := [];
    for i := 0 to |boundaries|
      invariant forall k :: 0 <= k < |boxes| ==> Sized(boxes[k]) && !boxes[k].workspace
      invariant boxes == BoundaryBoxes(boundaries[..i], oid)
    {
      assert boundaries[..i + 1][..i] == boundaries[..i];
      if boundaries[i].oid == oid {
        boxes := boxes + [BoundaryBox(boundaries[i])];
      }
    }
    assert boundaries[..|boundaries|] == boundaries;
  }

  /** A workspace with its head here is among the labels here. */
  lemma WorkspaceIsLabelled(g: Graph, attachments: seq<Attachment>, cell: seq<Box>, oid: Oid, junction: bool, a: Attachment)
    returns (k: nat)
    requires multiset(cell) == LabelsAt(g, attachments, oid, junction) && a in attachments && HeadedAt(a, oid)
    ensures k < |cell| && cell[k] == WorkspaceBox(a)
  {
    WorkspaceIsBoxed(attachments, oid, a);
    assert WorkspaceBox(a) in multiset(cell);
    k :| 0 <= k < |cell| && cell[k] == WorkspaceBox(a);
  }

  lemma {:induction false} WorkspaceIsBoxed(attachments: seq<Attachment>, oid: Oid, a: Attachment)
    requires a in attachments && HeadedAt(a, oid)
    ensures WorkspaceBox(a) in WorkspaceBoxes(attachments, oid)
    decreases |attachments|
  {
    var n := |attachments| - 1;
    if attachments[n] != a {
      assert a in attachments[..n];
      WorkspaceIsBoxed(attachments[..n], oid, a);
    }
  }

  method ColumnWidths(stations: seq<Station>, rankCount: nat) returns (widths: seq<real>)
    requires forall s :: s in stations ==> StationOk(s) && s.rank < rankCount
    ensures |widths| == rankCount && forall r :: 0 <= r < rankCount ==> widths[r] >= 48.0
    ensures forall i :: 0 <= i < |stations| ==> WideEnough(widths, stations[i], |stations[i].cell|)
  {
    widths := seq(rankCount, r => 48.0);
    for i := 0 to |stations|
      invariant |widths| == rankCount && forall r :: 0 <= r < rankCount ==> widths[r] >= 48.0
      invariant forall j :: 0 <= j < i ==> WideEnough(widths, stations[j], |stations[j].cell|)
    {
      var s := stations[i];
      assert s in stations;
      OffsetsComplete(s);
      for k := 0 to |s.cell|
        invariant |widths| == rankCount && forall r :: 0 <= r < rankCount ==> widths[r] >= 48.0
        invariant forall j :: 0 <= j < i ==> WideEnough(widths, stations[j], |stations[j].cell|)
        invariant WideEnough(widths, s, k)
      {
        var right := s.offsets[k].x + s.cell[k].width + 24.0;
        if right > widths[s.rank] {
          Widen(widths, stations, i, s.rank, right);
          Widen(widths, [s], 1, s.rank, right);
          widths := widths[s.rank := right];
        }
      }
    }
  }

  ghost predicate WideEnough(widths: seq<real>, s: Station, n: nat) {
    && s.rank < |widths| && |s.offsets| == |s.cell| && n <= |s.cell|
    && forall k :: 0 <= k < n ==> s.offsets[k].x + s.cell[k].width + 24.0 <= widths[s.rank]
  }

  lemma OffsetsComplete(s: Station)
    requires StationOk(s)
    ensures |s.offsets| == |s.cell|
  {
  }

  lemma Widen(widths: seq<real>, stations: seq<Station>, i: nat, r: nat, w: real)
    requires i <= |stations| && r < |widths| && w >= widths[r]
    ensures forall j, n: nat :: 0 <= j < i && WideEnough(widths, stations[j], n) ==> WideEnough(widths[r := w], stations[j], n)
  {
  }

  method RowHeights(stations: seq<Station>, laneCount: nat) returns (heights: seq<real>)
    requires forall s :: s in stations ==> s.lane < laneCount
    ensures |heights| == laneCount && forall l :: 0 <= l < laneCount ==> heights[l] >= 0.0
    ensures forall i :: 0 <= i < |stations| ==> stations[i].height <= heights[stations[i].lane]
  {
    heights := seq(laneCount, l => 0.0);
    for i := 0 to |stations|
      invariant |heights| == laneCount && forall l :: 0 <= l < laneCount ==> heights[l] >= 0.0
      invariant forall j :: 0 <= j < i ==> stations[j].lane < laneCount && stations[j].height <= heights[stations[j].lane]
    {
      var s := stations[i];
      assert s in stations;
      if s.height > heights[s.lane] {
        heights := heights[s.lane := s.height];
      }
    }
  }
}
