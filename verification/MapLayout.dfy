/** The whole layout, stage after stage, and what it guarantees (assets/metro-core.js). */
module MapLayout {
  import opened Prelude
  import opened Topology
  import opened Geometry
  import opened Routing
  import opened Layout
  import Kahn
  import Lanes
  import MapValidation

  datatype Map = Map(
    stations: seq<Station>, frame: Frame, routes: seq<Route>, departure: seq<real>, arrival: seq<real>,
    rails: seq<seq<Point>>, unborn: seq<Rect>)

  /** Ranks, lanes and the order stations are listed in. */
  datatype Plan = Plan(order: seq<Oid>, ranks: map<Oid, nat>, laneOf: map<Oid, nat>, laneCount: nat)

  /** Everything the stages establish. */
  ghost predicate Assembled(m: Map) {
    && Framed(m.frame, m.stations) && StationsApart(m.stations)
    && Railed(m.frame, m.routes, m.departure, m.arrival) && |m.rails| == |m.routes|
    && (forall i :: 0 <= i < |m.routes| ==> m.rails[i] == RailPoints(m.frame, m.routes[i], m.departure[i], m.arrival[i]))
    && (forall i :: 0 <= i < |m.unborn| ==> m.unborn[i].y >= m.frame.rows.bottom)
    && (forall i, j :: 0 <= i < j < |m.unborn| ==> Apart(m.unborn[i], m.unborn[j]))
  }

  // ----- the guarantees -----

  ghost predicate RectanglesApart(m: Map)
    requires Assembled(m)
  {
    && (forall i, k, j, n :: IsLabel(m, i, k) && IsLabel(m, j, n) && (i != j || k != n) ==> Apart(Label(m, i, k), Label(m, j, n)))
    && (forall i, k, u :: IsLabel(m, i, k) && 0 <= u < |m.unborn| ==> Apart(Label(m, i, k), m.unborn[u]))
    && (forall u, v :: 0 <= u < v < |m.unborn| ==> Apart(m.unborn[u], m.unborn[v]))
  }

  ghost predicate IsLabel(m: Map, i: int, k: int) {
    0 <= i < |m.stations| && 0 <= k < |m.stations[i].cell|
  }

  ghost function Label(m: Map, i: int, k: int): Rect
    requires Framed(m.frame, m.stations) && IsLabel(m, i, k)
  {
    assert FramesStation(m.frame, m.stations[i]);
    OffsetsComplete(m.stations[i]);
    LabelRect(m.frame, m.stations[i], k)
  }

  ghost predicate RailsClear(m: Map)
    requires Assembled(m)
  {
    forall e, t :: IsSegment(m, e, t) ==> SegmentClear(m, m.rails[e][t], m.rails[e][t + 1])
  }

  /** The segment touches no label and no workspace. */
  ghost predicate SegmentClear(m: Map, p: Point, q: Point)
    requires Assembled(m)
  {
    && (forall i, k :: IsLabel(m, i, k) ==> !Meets(p, q, Label(m, i, k)))
    && (forall u :: 0 <= u < |m.unborn| ==> !Meets(p, q, m.unborn[u]))
  }

  ghost predicate IsSegment(m: Map, e: int, t: int) {
    0 <= e < |m.rails| && 0 <= t && t + 1 < |m.rails[e]|
  }

  /** Every rail starts left of where it ends, and a routed one departs and arrives strictly in between. */
  ghost predicate RailsForward(m: Map)
    requires Assembled(m)
  {
    forall e :: 0 <= e < |m.routes| ==>
      && m.rails[e][0].x < m.rails[e][|m.rails[e]| - 1].x
      && (!m.routes[e].direct ==>
            m.rails[e][0].x < m.departure[e] < m.arrival[e] < m.rails[e][|m.rails[e]| - 1].x)
  }

  /** Routed edges share no vertical channel and no track. */
  ghost predicate RailsSeparate(m: Map)
    requires Assembled(m)
  {
    forall e, f :: 0 <= e < |m.routes| && 0 <= f < |m.routes| && e != f && !m.routes[e].direct && !m.routes[f].direct ==>
      && m.departure[e] != m.departure[f] && m.arrival[e] != m.arrival[f] && m.departure[e] != m.arrival[f]
      && TrackY(m.frame.rows, m.routes[e]) != TrackY(m.frame.rows, m.routes[f])
  }

  lemma AssembledRectangles(m: Map)
    requires Assembled(m)
    ensures RectanglesApart(m)
  {
    forall i, k, j, n | IsLabel(m, i, k) && IsLabel(m, j, n) && (i != j || k != n)
      ensures Apart(Label(m, i, k), Label(m, j, n))
    {
      LabelsApart(m.frame, m.stations, i, k, j, n);
    }
    forall i, k, u | IsLabel(m, i, k) && 0 <= u < |m.unborn|
      ensures Apart(Label(m, i, k), m.unborn[u])
    {
      assert FramesStation(m.frame, m.stations[i]);
      LabelInCell(m.frame, m.stations[i], k);
      CellAboveBottom(m.frame.columns, m.frame.rows, m.stations[i].rank, m.stations[i].lane, Label(m, i, k), m.unborn[u]);
    }
  }

  lemma SegmentClears(m: Map, e: int, t: int)
    requires Assembled(m) && IsSegment(m, e, t)
    ensures SegmentClear(m, m.rails[e][t], m.rails[e][t + 1])
  {
    var p, q := m.rails[e][t], m.rails[e][t + 1];
    RailLawful(m.frame, m.routes, m.departure, m.arrival, e, t);
    forall i, k | IsLabel(m, i, k)
      ensures !Meets(p, q, Label(m, i, k))
    {
      assert FramesStation(m.frame, m.stations[i]);
      LabelInCell(m.frame, m.stations[i], k);
      LawfulClears(m.frame, p, q, m.stations[i].rank, m.stations[i].lane, Label(m, i, k));
    }
    forall u | 0 <= u < |m.unborn|
      ensures !Meets(p, q, m.unborn[u])
    {
      LawfulAboveBottom(m.frame, p, q, m.unborn[u]);
    }
  }

  lemma AssembledRails(m: Map)
    requires Assembled(m)
    ensures RailsClear(m)
  {
    forall e, t | IsSegment(m, e, t)
      ensures SegmentClear(m, m.rails[e][t], m.rails[e][t + 1])
    {
      SegmentClears(m, e, t);
    }
  }

  lemma AssembledForward(m: Map)
    requires Assembled(m)
    ensures RailsForward(m)
  {
    forall e | 0 <= e < |m.routes|
      ensures m.rails[e][0].x < m.rails[e][|m.rails[e]| - 1].x
      ensures !m.routes[e].direct ==> m.rails[e][0].x < m.departure[e] < m.arrival[e] < m.rails[e][|m.rails[e]| - 1].x
    {
      DirectForward(m.frame.columns, m.routes[e].fromRank, m.routes[e].toRank);
      if !m.routes[e].direct {
        LeftToRight(m.frame.columns, m.routes, m.departure, m.arrival, |m.frame.rows.tops|, e);
      }
    }
  }

  lemma AssembledSeparate(m: Map)
    requires Assembled(m)
    ensures RailsSeparate(m)
  {
    forall e, f | 0 <= e < |m.routes| && 0 <= f < |m.routes| && e != f && !m.routes[e].direct && !m.routes[f].direct
      ensures m.departure[e] != m.departure[f] && m.arrival[e] != m.arrival[f] && m.departure[e] != m.arrival[f]
      ensures TrackY(m.frame.rows, m.routes[e]) != TrackY(m.frame.rows, m.routes[f])
    {
      ChannelsDiffer(m.frame.columns, m.routes, m.departure, m.arrival, |m.frame.rows.tops|, e, f);
      if e < f {
        TrackHeightsDiffer(m.frame, m.routes, m.departure, m.arrival, e, f);
      } else {
        TrackHeightsDiffer(m.frame, m.routes, m.departure, m.arrival, f, e);
      }
    }
  }

  // ----- from the graph to the stages -----

  /** On a well-formed graph a cycle of edges would be a cycle of parent links. */
  lemma EdgesAcyclic(g: Graph)
    requires WellFormed(g)
    ensures Within(Pairs(g.edges), Endpoints(g)) && !HasCycle(Pairs(g.edges))
  {
    var arcs, oids := Pairs(g.edges), CommitOids(g);
    forall a | a in arcs
      ensures a.0 in Endpoints(g) && a.1 in oids
      ensures a.0 in oids ==> a in ArcsOf(g.commits, oids)
    {
      var i :| 0 <= i < |arcs| && arcs[i] == a;
      var e := g.edges[i];
      assert e in g.edges;
      var k :| 0 <= k < |g.commits| && g.commits[k].oid == a.1;
      assert g.commits[k] in g.commits;
      ArcsOfExact(g.commits, oids, a.0, a.1);
    }
    if HasCycle(arcs) {
      var p :| IsPath(arcs, p) && |p| > 1 && p[0] == p[|p| - 1];
      CycleOfCommits(g, p);
    }
  }

  lemma CycleOfCommits(g: Graph, p: seq<Oid>)
    requires forall a :: a in Pairs(g.edges) ==> a.1 in CommitOids(g) && (a.0 in CommitOids(g) ==> a in ArcsOf(g.commits, CommitOids(g)))
    requires IsPath(Pairs(g.edges), p) && |p| > 1 && p[0] == p[|p| - 1]
    ensures HasCycle(ArcsOf(g.commits, CommitOids(g)))
  {
    var arcs := Pairs(g.edges);
    forall i | 0 <= i < |p|
      ensures p[i] in CommitOids(g)
    {
      var j := if i == 0 then |p| - 1 else i;
      assert (p[j - 1], p[j - 1 + 1]) in arcs;
    }
    forall i | 0 <= i < |p| - 1
      ensures (p[i], p[i + 1]) in ArcsOf(g.commits, CommitOids(g))
    {
      assert (p[i], p[i + 1]) in arcs;
    }
    assert IsPath(ArcsOf(g.commits, CommitOids(g)), p);
  }

  /** The first parent of every commit that has one. */
  method FirstParents(commits: seq<Commit>, arcs: Arcs) returns (firsts: Lanes.Firsts)
    requires Distinct(OidSeq(commits)) && forall c, p :: c in commits && p in c.parents ==> (p, c.oid) in arcs
    ensures forall v :: v in firsts ==> (firsts[v], v) in arcs
    ensures forall k :: 0 <= k < |commits| ==> FirstIs(firsts, commits[k])
    ensures firsts.Keys <= Elements(OidSeq(commits))
  {
    firsts := map[];
    for i := 0 to |commits|
      invariant firsts.Keys <= Elements(OidSeq(commits)[..i])
      invariant forall v :: v in firsts ==> (firsts[v], v) in arcs
      invariant forall k :: 0 <= k < i ==> FirstIs(firsts, commits[k])
    {
      var c := commits[i];
      assert c in commits;
      NotEarlier(commits, i);
      TakeMore(OidSeq(commits), i);
      if c.parents != [] {
        assert c.parents[0] in c.parents;
        firsts := firsts[c.oid := c.parents[0]];
      }
    }
    assert OidSeq(commits)[..|commits|] == OidSeq(commits);
  }

  ghost predicate FirstIs(firsts: Lanes.Firsts, c: Commit) {
    if c.parents == [] then c.oid !in firsts else c.oid in firsts && firsts[c.oid] == c.parents[0]
  }

  lemma NotEarlier(commits: seq<Commit>, i: nat)
    requires Distinct(OidSeq(commits)) && i < |commits|
    ensures commits[i].oid !in Elements(OidSeq(commits)[..i])
    ensures forall k :: 0 <= k < i ==> commits[k].oid != commits[i].oid
  {
    assert forall k :: 0 <= k < |commits| ==> OidSeq(commits)[k] == commits[k].oid;
  }

  method Tips(g: Graph, order: seq<Oid>, refsInOrder: seq<Oid>) returns (tips: seq<Oid>)
    requires forall r :: r in refsInOrder ==> r in order
    ensures Elements(tips) == Elements(order)
  {
    tips := refsInOrder;
    for i := |order| downto 0
      invariant forall v :: v in tips ==> v in order
      invariant forall k :: i <= k < |order| ==> order[k] in tips
    {
      tips := tips + [order[i]];
    }
  }

  /** The endpoint has several children, or its commit several parents. */
  ghost predicate Junction(g: Graph, v: Oid) {
    |Kahn.Targets(Pairs(g.edges), v)| > 1 || exists c :: c in g.commits && c.oid == v && |c.parents| > 1
  }

  /** The station of one endpoint: where the plan puts it, packed, with exactly its labels. */
  ghost predicate StationFor(g: Graph, attachments: seq<Attachment>, p: Plan, s: Station, v: Oid) {
    && s.oid == v && v in p.ranks && v in p.laneOf && s.rank == p.ranks[v] && s.lane == p.laneOf[v]
    && StationOk(s) && multiset(s.cell) == LabelsAt(g, attachments, v, Junction(g, v))
  }

  ghost predicate Stationed(g: Graph, attachments: seq<Attachment>, p: Plan, stations: seq<Station>) {
    && |stations| == |p.order|
    && forall i :: 0 <= i < |p.order| ==> StationFor(g, attachments, p, stations[i], p.order[i])
  }

  method BuildStation(g: Graph, attachments: seq<Attachment>, preferred: set<string>, p: Plan, v: Oid) returns (s: Station)
    requires forall a :: a in attachments ==> 1.0 <= a.width && 1.0 <= a.height
    requires v in p.ranks && v in p.laneOf
    ensures StationFor(g, attachments, p, s, v)
  {
    var junction := |Kahn.Targets(Pairs(g.edges), v)| > 1 || exists c :: c in g.commits && c.oid == v && |c.parents| > 1;
    var cell := BuildCell(g, attachments, preferred, v, junction);
    var offsets, width, height := PackCell(cell);
    PackedHeight(cell, offsets, width, height);
    s := Station(v, p.ranks[v], p.laneOf[v], cell, offsets, if cell == [] then 0.0 else height);
  }

  /** Builds and packs the cell of every endpoint. */
  method Stations(g: Graph, attachments: seq<Attachment>, preferred: set<string>, p: Plan) returns (stations: seq<Station>)
    requires forall a :: a in attachments ==> 1.0 <= a.width && 1.0 <= a.height
    requires forall v :: v in p.order ==> v in p.ranks && v in p.laneOf
    ensures Stationed(g, attachments, p, stations)
  {
    stations := [];
    for i := 0 to |p.order|
      invariant |stations| == i
      invariant forall k :: 0 <= k < i ==> StationFor(g, attachments, p, stations[k], p.order[k])
    {
      var s := BuildStation(g, attachments, preferred, p, p.order[i]);
      stations := stations + [s];
    }
  }

  lemma PackedHeight(cell: seq<Box>, offsets: seq<Point>, width: real, height: real)
    requires Packed(cell, offsets, width, height) && forall i :: 0 <= i < |cell| ==> Sized(cell[i])
    ensures cell != [] ==> height >= 0.0
    ensures cell == [] ==> Packed(cell, offsets, width, 0.0)
  {
    if cell != [] {
      assert Sized(cell[0]) && offsets[0].y >= 24.0;
    }
  }

  /** The workspaces without a commit, in the order of the list. */
  function UnbornOf(attachments: seq<Attachment>): seq<Attachment> {
    if attachments == [] then []
    else
      var n := |attachments| - 1;
      UnbornOf(attachments[..n]) + if Unborn(attachments[n].head) then [attachments[n]] else []
  }

  /** Every unborn workspace has a rectangle of its own, of its size. */
  ghost predicate UnbornPlaced(unborn: seq<Attachment>, rects: seq<Rect>) {
    && |rects| == |unborn|
    && forall i :: 0 <= i < |rects| ==> rects[i].width == unborn[i].width && rects[i].height == unborn[i].height
  }

  /** Unborn workspaces are stacked below the last lane. */
  method PlaceUnborn(attachments: seq<Attachment>, bottom: real, rowGap: real) returns (rects: seq<Rect>, y: real)
    requires rowGap >= 48.0 && forall a :: a in attachments ==> 1.0 <= a.height
    ensures forall i :: 0 <= i < |rects| ==> rects[i].y >= bottom
    ensures forall i, j :: 0 <= i < j < |rects| ==> Apart(rects[i], rects[j])
    ensures UnbornPlaced(UnbornOf(attachments), rects)
  {
    rects, y := [], bottom;
    for n := 0 to |attachments|
      invariant y >= bottom && forall i :: 0 <= i < |rects| ==> bottom <= rects[i].y && rects[i].y + rects[i].height <= y
      invariant forall i, j :: 0 <= i < j < |rects| ==> Apart(rects[i], rects[j])
      invariant UnbornPlaced(UnbornOf(attachments[..n]), rects)
    {
      var a := attachments[n];
      assert a in attachments && attachments[..n + 1][..n] == attachments[..n];
      if Unborn(a.head) {
        rects := rects + [Rect(24.0, y, a.width, a.height)];
        y := y + a.height + rowGap;
      }
    }
    assert attachments[..|attachments|] == attachments;
  }

  method DrawRails(frame: Frame, routes: seq<Route>, departure: seq<real>, arrival: seq<real>) returns (rails: seq<seq<Point>>)
    requires Railed(frame, routes, departure, arrival)
    ensures |rails| == |routes|
    ensures forall i :: 0 <= i < |routes| ==> rails[i] == RailPoints(frame, routes[i], departure[i], arrival[i])
  {
    rails := [];
    for i := 0 to |routes|
      invariant |rails| == i
      invariant forall k :: 0 <= k < i ==> rails[k] == RailPoints(frame, routes[k], departure[k], arrival[k])
    {
      rails := rails + [RailPoints(frame, routes[i], departure[i], arrival[i])];
    }
  }

  function Priority(r: Ref): nat {
    if r.name == "refs/heads/main" then 0
    else if r.name == "refs/heads/master" then 1
    else if r.kind == "branch" then 2
    else if r.kind == "remote" then 3
    else 4
  }

  method RefTips(refs: seq<Ref>) returns (tips: seq<Oid>)
    ensures forall t :: t in tips ==> exists r :: r in refs && r.oid == t
  {
    tips := [];
    for p := 0 to 5
      invariant forall t :: t in tips ==> exists r :: r in refs && r.oid == t
    {
      for i := 0 to |refs|
        invariant forall t :: t in tips ==> exists r :: r in refs && r.oid == t
      {
        if Priority(refs[i]) == p {
          assert refs[i] in refs;
          tips := tips + [refs[i].oid];
        }
      }
    }
  }

  method RankCount(order: seq<Oid>, ranks: map<Oid, nat>) returns (n: nat)
    requires forall v :: v in order ==> v in ranks
    ensures forall v :: v in order ==> ranks[v] < n
  {
    n := 0;
    for i := 0 to |order|
      invariant forall k :: 0 <= k < i ==> ranks[order[k]] < n
    {
      if ranks[order[i]] + 1 > n {
        n := ranks[order[i]] + 1;
      }
    }
  }

  ghost predicate PlanOk(g: Graph, p: Plan) {
    && Distinct(p.order) && Elements(p.order) == Endpoints(g)
    && Kahn.AllRanked(Pairs(g.edges), Endpoints(g), p.ranks)
    && p.laneOf.Keys == Endpoints(g) && (forall v :: v in p.laneOf ==> p.laneOf[v] < p.laneCount)
    && (forall u, v :: u in Endpoints(g) && v in Endpoints(g) && u != v ==> p.ranks[u] != p.ranks[v] || p.laneOf[u] != p.laneOf[v])
    && (forall c, d :: c in g.commits && d in g.commits && OnParentsLane(p, c) && OnParentsLane(p, d) && c.parents[0] == d.parents[0] ==>
          c.oid == d.oid)
  }

  /** The commit lies on the lane of its first parent. */
  ghost predicate OnParentsLane(p: Plan, c: Commit) {
    && c.parents != [] && c.oid in p.laneOf && c.parents[0] in p.laneOf
    && p.laneOf[c.oid] == p.laneOf[c.parents[0]]
  }

  method MakePlan(g: Graph) returns (p: Plan)
    requires WellFormed(g)
    ensures PlanOk(g, p)
  {
    EdgesAcyclic(g);
    var nodes := (set i | 0 <= i < |g.commits| :: g.commits[i].oid) + (set i | 0 <= i < |g.boundaries| :: g.boundaries[i].oid);
    assert nodes == Endpoints(g);
    var arcs := Pairs(g.edges);
    var order, ranks := Kahn.RankAll(nodes, arcs);
    var firsts := FirstParents(g.commits, arcs);
    FirstsFit(g, nodes, arcs, firsts, ranks);
    var refTips := RefTips(g.refs);
    assert forall v :: v in refTips ==> v in Elements(order);
    var tips := Tips(g, order, refTips);
    var lanes, laneOf := Lanes.AssignLanes(nodes, firsts, tips);
    p := Plan(order, ranks, laneOf, |lanes|);
    LanesSeparate(nodes, firsts, ranks, lanes, laneOf);
    LanesFollow(g, p, nodes, firsts, lanes);
  }

  /** No two commits follow the same first parent on its lane. */
  lemma LanesFollow(g: Graph, p: Plan, nodes: set<Oid>, firsts: Lanes.Firsts, lanes: seq<seq<Oid>>)
    requires Lanes.LanesOk(nodes, firsts, lanes, p.laneOf) && Lanes.FirstsRise(firsts, p.ranks) && p.ranks.Keys == nodes
    requires forall k :: 0 <= k < |g.commits| ==> FirstIs(firsts, g.commits[k])
    ensures forall c, d :: c in g.commits && d in g.commits && OnParentsLane(p, c) && OnParentsLane(p, d) ==>
              c.parents[0] == d.parents[0] ==> c.oid == d.oid
  {
    forall c, d | c in g.commits && d in g.commits && OnParentsLane(p, c) && OnParentsLane(p, d) && c.parents[0] == d.parents[0]
      ensures c.oid == d.oid
    {
      var i :| 0 <= i < |g.commits| && g.commits[i] == c;
      var j :| 0 <= j < |g.commits| && g.commits[j] == d;
      assert FirstIs(firsts, g.commits[i]) && FirstIs(firsts, g.commits[j]);
      Lanes.LaneSuccessorUnique(nodes, firsts, p.ranks, lanes, p.laneOf, c.parents[0], c.oid, d.oid);
    }
  }

  lemma FirstsFit(g: Graph, nodes: set<Oid>, arcs: Arcs, firsts: Lanes.Firsts, ranks: map<Oid, nat>)
    requires Within(arcs, nodes) && Kahn.AllRanked(arcs, nodes, ranks) && forall v :: v in firsts ==> (firsts[v], v) in arcs
    ensures Lanes.Closed(nodes, firsts) && Lanes.FirstsRise(firsts, ranks)
  {
    forall v | v in firsts
      ensures v in nodes && firsts[v] in nodes && v in ranks && firsts[v] in ranks && ranks[firsts[v]] < ranks[v]
    {
      assert (firsts[v], v).0 in nodes && (firsts[v], v).1 in nodes;
      assert Kahn.RankAt(arcs, ranks, v);
    }
  }

  lemma LanesSeparate(nodes: set<Oid>, firsts: Lanes.Firsts, ranks: map<Oid, nat>, lanes: seq<seq<Oid>>, laneOf: map<Oid, nat>)
    requires Lanes.LanesOk(nodes, firsts, lanes, laneOf) && laneOf.Keys == nodes && ranks.Keys == nodes && Lanes.FirstsRise(firsts, ranks)
    ensures forall v :: v in laneOf ==> laneOf[v] < |lanes|
    ensures forall u, v :: u in nodes && v in nodes && u != v ==> ranks[u] != ranks[v] || laneOf[u] != laneOf[v]
  {
    forall v | v in laneOf
      ensures laneOf[v] < |lanes|
    {
      assert Lanes.OnItsLane(laneOf, lanes, v);
    }
    forall u, v | u in nodes && v in nodes && u != v
      ensures ranks[u] != ranks[v] || laneOf[u] != laneOf[v]
    {
      if ranks[u] == ranks[v] && laneOf[u] == laneOf[v] {
        Lanes.SameLaneSameRank(nodes, firsts, ranks, lanes, laneOf, u, v);
      }
    }
  }

  function PointOf(fr: Frame, p: Plan, v: Oid): Point
    requires v in p.ranks && v in p.laneOf && p.ranks[v] < |fr.columns.xs| && p.laneOf[v] < |fr.rows.ys|
  {
    Point(fr.columns.xs[p.ranks[v]], fr.rows.ys[p.laneOf[v]])
  }

  /** The map shows the graph: one station per endpoint, one rail per edge between its stations, and every workspace. */
  ghost predicate Depicts(g: Graph, attachments: seq<Attachment>, p: Plan, m: Map) {
    && PlanOk(g, p) && Assembled(m)
    && Stationed(g, attachments, p, m.stations)
    && RailsJoined(g, p, m)
    && UnbornPlaced(UnbornOf(attachments), m.unborn)
  }

  ghost predicate RailsJoined(g: Graph, p: Plan, m: Map) {
    && |m.rails| == |g.edges|
    && (forall e :: 0 <= e < |g.edges| ==> RailJoins(g, p, m, e))
  }

  ghost predicate RailJoins(g: Graph, p: Plan, m: Map, e: nat)
    requires e < |g.edges| && e < |m.rails|
  {
    var from, to := g.edges[e].from, g.edges[e].to;
    && from in p.ranks && from in p.laneOf && p.ranks[from] < |m.frame.columns.xs| && p.laneOf[from] < |m.frame.rows.ys|
    && to in p.ranks && to in p.laneOf && p.ranks[to] < |m.frame.columns.xs| && p.laneOf[to] < |m.frame.rows.ys|
    && |m.rails[e]| >= 2
    && m.rails[e][0] == PointOf(m.frame, p, from) && m.rails[e][|m.rails[e]| - 1] == PointOf(m.frame, p, to)
  }

  /** Different workspaces with commits are shown by different labels, each at its commit and of its size, and apart. */
  lemma WorkspacesShown(g: Graph, attachments: seq<Attachment>, p: Plan, m: Map, a: Attachment, b: Attachment)
    returns (i: nat, k: nat, j: nat, n: nat)
    requires Depicts(g, attachments, p, m) && AttachmentsOk(attachments, Endpoints(g))
    requires a in attachments && b in attachments && a != b && !Unborn(a.head) && !Unborn(b.head)
    ensures IsLabel(m, i, k) && m.stations[i].oid == a.head && m.stations[i].cell[k] == WorkspaceBox(a)
    ensures IsLabel(m, j, n) && m.stations[j].oid == b.head && m.stations[j].cell[n] == WorkspaceBox(b)
    ensures Apart(Label(m, i, k), Label(m, j, n))
  {
    assert a.head in Elements(p.order) && b.head in Elements(p.order);
    i, k := WorkspaceShown(g, attachments, p, m.stations, a);
    j, n := WorkspaceShown(g, attachments, p, m.stations, b);
    DifferentWorktrees(attachments, a, b);
    LabelsApart(m.frame, m.stations, i, k, j, n);
  }

  lemma WorkspaceShown(g: Graph, attachments: seq<Attachment>, p: Plan, stations: seq<Station>, a: Attachment)
    returns (i: nat, k: nat)
    requires Stationed(g, attachments, p, stations) && a in attachments && !Unborn(a.head) && a.head in p.order
    ensures i < |stations| && k < |stations[i].cell|
    ensures stations[i].oid == a.head && stations[i].cell[k] == WorkspaceBox(a)
  {
    i :| 0 <= i < |p.order| && p.order[i] == a.head;
    assert StationFor(g, attachments, p, stations[i], p.order[i]);
    k := WorkspaceIsLabelled(g, attachments, stations[i].cell, a.head, Junction(g, a.head), a);
  }

  lemma DifferentWorktrees(attachments: seq<Attachment>, a: Attachment, b: Attachment)
    requires Distinct(seq(|attachments|, i requires 0 <= i < |attachments| => attachments[i].worktree))
    requires a in attachments && b in attachments && a != b
    ensures WorkspaceBox(a) != WorkspaceBox(b)
  {
    var names := seq(|attachments|, i requires 0 <= i < |attachments| => attachments[i].worktree);
    var i :| 0 <= i < |attachments| && attachments[i] == a;
    var j :| 0 <= j < |attachments| && attachments[j] == b;
    assert names[i] == a.worktree && names[j] == b.worktree;
    assert WorkspaceBox(a).id[10..] == a.worktree && WorkspaceBox(b).id[10..] == b.worktree;
  }

  method PlaceFrame(stations: seq<Station>, routes: seq<Route>, tracks: seq<nat>, rankCount: nat, laneCount: nat,
                    rowGap: real, columnGap: real)
    returns (frame: Frame, departure: seq<real>, arrival: seq<real>)
    requires rowGap >= 48.0 && columnGap >= 48.0
    requires forall s :: s in stations ==> StationOk(s) && s.rank < rankCount && s.lane < laneCount
    requires RoutesOk(routes, rankCount, laneCount) && |tracks| == laneCount
    requires forall l :: 0 <= l < laneCount ==> tracks[l] == TracksOn(routes, l)
    ensures Framed(frame, stations) && Railed(frame, routes, departure, arrival)
    ensures |frame.columns.xs| == rankCount && |frame.rows.tops| == laneCount && frame.rows.gap == rowGap
  {
    var widths := ColumnWidths(stations, rankCount);
    var heights := RowHeights(stations, laneCount);
    var columns;
    columns, departure, arrival := PlaceColumns(columnGap, widths, routes);
    var rows := PlaceLanes(rowGap, heights, tracks);
    frame := Frame(columns, rows);
    forall i | 0 <= i < |stations|
      ensures FramesStation(frame, stations[i])
    {
      assert stations[i] in stations;
      assert WideEnough(widths, stations[i], |stations[i].cell|);
    }
  }

  lemma PlanSeparatesStations(g: Graph, attachments: seq<Attachment>, p: Plan, stations: seq<Station>, rankCount: nat)
    requires PlanOk(g, p) && Stationed(g, attachments, p, stations) && forall v :: v in p.order ==> v in p.ranks && p.ranks[v] < rankCount
    ensures StationsApart(stations)
    ensures forall s :: s in stations ==> StationOk(s) && s.rank < rankCount && s.lane < p.laneCount
  {
    forall i, j | 0 <= i < j < |stations|
      ensures stations[i].rank != stations[j].rank || stations[i].lane != stations[j].lane
    {
      assert StationFor(g, attachments, p, stations[i], p.order[i]) && StationFor(g, attachments, p, stations[j], p.order[j]);
      assert p.order[i] in Elements(p.order) && p.order[j] in Elements(p.order);
    }
    forall s | s in stations
      ensures StationOk(s) && s.rank < rankCount && s.lane < p.laneCount
    {
      var i :| 0 <= i < |stations| && stations[i] == s;
      assert StationFor(g, attachments, p, stations[i], p.order[i]);
      assert p.order[i] in p.order;
    }
  }

  lemma PlanCovers(g: Graph, p: Plan)
    requires WellFormed(g) && PlanOk(g, p)
    ensures forall v :: v in p.order ==> v in p.ranks && v in p.laneOf
    ensures forall v :: v in p.ranks ==> v in p.order
    ensures forall a :: a in Pairs(g.edges) ==>
              && a.0 in p.ranks && a.1 in p.ranks && a.0 in p.laneOf && a.1 in p.laneOf && p.ranks[a.0] < p.ranks[a.1]
  {
    EdgesAcyclic(g);
    assert forall v :: v in p.order <==> v in Elements(p.order);
    forall a | a in Pairs(g.edges)
      ensures a.0 in p.ranks && a.1 in p.ranks && p.ranks[a.0] < p.ranks[a.1]
    {
      assert Kahn.RankAt(Pairs(g.edges), p.ranks, a.1);
      assert (a.0, a.1) in Pairs(g.edges);
    }
  }

  ghost predicate RoutesPlanned(g: Graph, p: Plan, routes: seq<Route>) {
    && |routes| == |g.edges|
    && forall e :: 0 <= e < |g.edges| ==> RoutePlanned(p, routes[e], Pairs(g.edges)[e])
  }

  method PlanRoutes(g: Graph, p: Plan, rankCount: nat) returns (routes: seq<Route>, tracks: seq<nat>)
    requires WellFormed(g) && PlanOk(g, p) && forall v :: v in p.order ==> v in p.ranks && p.ranks[v] < rankCount
    ensures RoutesOk(routes, rankCount, p.laneCount) && |tracks| == p.laneCount
    ensures forall l :: 0 <= l < p.laneCount ==> tracks[l] == TracksOn(routes, l)
    ensures RoutesPlanned(g, p, routes)
  {
    PlanCovers(g, p);
    routes, tracks := RouteEdges(Pairs(g.edges), p.order, p.ranks, p.laneOf, rankCount, p.laneCount);
    assert forall e :: 0 <= e < |g.edges| ==> Pairs(g.edges)[e] in Pairs(g.edges);
  }

  /** Stations, frame and rails of a planned graph. */
  method Draw(g: Graph, attachments: seq<Attachment>, preferred: set<string>, p: Plan, rowGap: real, columnGap: real) returns (m: Map)
    requires WellFormed(g) && AttachmentsOk(attachments, Endpoints(g)) && rowGap >= 48.0 && columnGap >= 48.0
    requires PlanOk(g, p)
    ensures Assembled(m) && Stationed(g, attachments, p, m.stations) && RailsJoined(g, p, m) && UnbornPlaced(UnbornOf(attachments), m.unborn)
  {
    PlanCovers(g, p);
    var rankCount := RankCount(p.order, p.ranks);
    var stations := Stations(g, attachments, preferred, p);
    PlanSeparatesStations(g, attachments, p, stations, rankCount);
    var routes, tracks := PlanRoutes(g, p, rankCount);
    var frame, departure, arrival := PlaceFrame(stations, routes, tracks, rankCount, p.laneCount, rowGap, columnGap);
    var rails := DrawRails(frame, routes, departure, arrival);
    var unborn, _ := PlaceUnborn(attachments, frame.rows.bottom, rowGap);
    m := Map(stations, frame, routes, departure, arrival, rails, unborn);
    RailsJoin(g, p, m);
  }

  method Assemble(g: Graph, attachments: seq<Attachment>, preferred: set<string>, rowGap: real, columnGap: real) returns (p: Plan, m: Map)
    requires WellFormed(g) && AttachmentsOk(attachments, Endpoints(g)) && rowGap >= 48.0 && columnGap >= 48.0
    ensures Depicts(g, attachments, p, m)
  {
    p := MakePlan(g);
    m := Draw(g, attachments, preferred, p, rowGap, columnGap);
  }

  lemma RailsJoin(g: Graph, p: Plan, m: Map)
    requires Assembled(m) && RoutesPlanned(g, p, m.routes)
    ensures RailsJoined(g, p, m)
  {
    forall e | 0 <= e < |g.edges|
      ensures RailJoins(g, p, m, e)
    {
      assert Pairs(g.edges)[e] in Pairs(g.edges);
      assert RoutePlanned(p, m.routes[e], Pairs(g.edges)[e]);
    }
  }

  ghost predicate ArcPlanned(p: Plan, a: (Oid, Oid)) {
    a.0 in p.ranks && a.1 in p.ranks && a.0 in p.laneOf && a.1 in p.laneOf
  }

  ghost predicate RoutePlanned(p: Plan, route: Route, a: (Oid, Oid)) {
    && ArcPlanned(p, a)
    && route.fromRank == p.ranks[a.0] && route.toRank == p.ranks[a.1]
    && route.fromLane == p.laneOf[a.0] && route.toLane == p.laneOf[a.1]
    && (route.direct ==> route.fromLane == route.toLane)
  }

  /**
   * `layoutTopology`. Every valid graph and attachment list gets a map, and on it no rectangles overlap,
   * no rail touches a rectangle, every rail runs forward, and routed rails keep their channels and tracks
   * to themselves.
   */
  method LayoutTopology(g: Graph, attachments: seq<Attachment>, preferred: set<string>, rowGap: real, columnGap: real)
    returns (r: Option<Map>, ghost p: Plan)
    ensures r.Some? <==>
              && WellFormed(g) && MapValidation.WithinCounts(g) && AttachmentsOk(attachments, Endpoints(g))
              && 1.0 <= rowGap <= 16384.0 && 1.0 <= columnGap <= 16384.0
    ensures r.Some? ==> Depicts(g, attachments, p, r.value)
    ensures r.Some? ==> RectanglesApart(r.value) && RailsClear(r.value) && RailsForward(r.value) && RailsSeparate(r.value)
  {
    p := Plan([], map[], map[], 0);
    var valid := MapValidation.ValidateTopology(g);
    if !valid {
      return None, p;
    }
    var endpoints := (set i | 0 <= i < |g.commits| :: g.commits[i].oid) + (set i | 0 <= i < |g.boundaries| :: g.boundaries[i].oid);
    assert endpoints == Endpoints(g);
    var ok := CheckAttachments(attachments, endpoints);
    if !ok || rowGap < 1.0 || rowGap > 16384.0 || columnGap < 1.0 || columnGap > 16384.0 {
      return None, p;
    }
    var plan, m := Assemble(g, attachments, preferred, if rowGap < 48.0 then 48.0 else rowGap, if columnGap < 48.0 then 48.0 else columnGap);
    AssembledRectangles(m);
    AssembledRails(m);
    AssembledForward(m);
    AssembledSeparate(m);
    return Some(m), plan;
  }
}
