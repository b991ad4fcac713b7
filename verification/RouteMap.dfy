/**
 * The route map on top of the layout (assets/metro-core.js, `layoutRouteMap` and `projectTopology`): folding a laid-out
 * graph, reusing bypass channels, and projecting the horizontal axis between anchors.
 */
module RouteMap {
  import opened Prelude
  import opened Topology
  import opened Folding
  import MapLayout
  import Kahn

  // ----- folding a laid-out graph -----

  function BaseOf(g: Graph, p: MapLayout.Plan): Base {
    Base(p.order, g.edges, p.ranks, p.laneOf)
  }

  lemma BaseOfPlan(g: Graph, p: MapLayout.Plan)
    requires WellFormed(g) && MapLayout.PlanOk(g, p)
    ensures BaseOk(BaseOf(g, p))
  {
    MapLayout.PlanCovers(g, p);
    var b := BaseOf(g, p);
    forall e | e in b.edges
      ensures e.from in b.nodes && e.to in b.nodes && b.ranks[e.from] < b.ranks[e.to]
    {
      PlanEdge(g, p, e);
    }
    PlanEdgeIds(g);
  }

  lemma PlanEdge(g: Graph, p: MapLayout.Plan, e: Edge)
    requires WellFormed(g) && MapLayout.PlanOk(g, p) && e in g.edges
    ensures e.from in p.order && e.to in p.order && e.from in p.ranks && e.to in p.ranks && p.ranks[e.from] < p.ranks[e.to]
  {
    MapLayout.PlanCovers(g, p);
    InPairs(g.edges, e);
  }

  lemma PlanEdgeIds(g: Graph)
    requires EdgesOk(g)
    ensures Distinct(EdgeIds(g.edges))
  {
    assert EdgeIds(g.edges) == seq(|g.edges|, i requires 0 <= i < |g.edges| => g.edges[i].id);
  }

  /** A plain station is the end of one edge only, so that edge comes from its first parent, on its own lane. */
  lemma PlainFollowsFirst(g: Graph, p: MapLayout.Plan, e: Edge) returns (c: Commit)
    requires WellFormed(g) && MapLayout.PlanOk(g, p) && e in g.edges && Plain(g.edges, p.laneOf, e.to)
    ensures c in g.commits && c.oid == e.to && MapLayout.OnParentsLane(p, c) && c.parents[0] == e.from
  {
    var k :| 0 <= k < |g.commits| && g.commits[k].oid == e.to;
    c := g.commits[k];
    assert c in g.commits && e.from in c.parents;
    var first := c.parents[0];
    assert first in c.parents;
    var f := OfPair(g.edges, first, c.oid);
    PlainIn(g.edges, p.laneOf, e.to, e);
    PlainIn(g.edges, p.laneOf, e.to, f);
  }

  lemma PlanHasOneSuccessor(g: Graph, p: MapLayout.Plan)
    requires WellFormed(g) && MapLayout.PlanOk(g, p)
    ensures OneSuccessor(BaseOf(g, p))
  {
    forall e, f | e in g.edges && f in g.edges && Plain(g.edges, p.laneOf, e.to) && Plain(g.edges, p.laneOf, f.to) && e.from == f.from
      ensures e == f
    {
      var c := PlainFollowsFirst(g, p, e);
      var d := PlainFollowsFirst(g, p, f);
      PlainIn(g.edges, p.laneOf, e.to, e);
      PlainIn(g.edges, p.laneOf, e.to, f);
    }
  }

  /** What no folding may hide: heads, refs, boundaries and the commits asked for. */
  ghost function Marked(g: Graph, heads: set<Oid>, keepOids: set<Oid>): set<Oid> {
    heads + (set r | r in g.refs :: r.oid) + keepOids + BoundaryOids(g)
  }

  ghost function Kept(g: Graph, p: MapLayout.Plan, heads: set<Oid>, keepOids: set<Oid>): set<Oid> {
    KeepSet(BaseOf(g, p), p.order, Marked(g, heads, keepOids))
  }

  /** Folds a laid-out graph around its marked stations. */
  method FoldLayout(g: Graph, p: MapLayout.Plan, heads: set<Oid>, keepOids: set<Oid>, o: Options)
    returns (f: Folded)
    requires WellFormed(g) && MapLayout.PlanOk(g, p)
    ensures Marked(g, heads, keepOids) <= Kept(g, p, heads, keepOids) && KeepOk(BaseOf(g, p), Kept(g, p, heads, keepOids))
    ensures FoldedOk(BaseOf(g, p), Kept(g, p, heads, keepOids), o, f)
  {
    BaseOfPlan(g, p);
    var refs := set r | r in g.refs :: r.oid;
    var boundaries := set i | 0 <= i < |g.boundaries| :: g.boundaries[i].oid;
    f := Fold(BaseOf(g, p), heads + refs + keepOids + boundaries, o);
  }

  /** On a checked graph with its layout, range identifiers never collide. */
  lemma LayoutRangeIdsUnique(g: Graph, p: MapLayout.Plan, keep: set<Oid>, o: Options, f: Folded, j: nat, k: nat)
    requires WellFormed(g) && MapLayout.PlanOk(g, p) && KeepOk(BaseOf(g, p), keep) && FoldedOk(BaseOf(g, p), keep, o, f)
    requires j < k < |f.ranges| && forall v :: v in p.order ==> NoColon(v)
    ensures f.ranges[j].id != f.ranges[k].id
  {
    BaseOfPlan(g, p);
    PlanHasOneSuccessor(g, p);
    RangeIdsUnique(BaseOf(g, p), keep, o, f.ranges, j, k);
  }

  // ----- bypass channels -----

  /** A bypass edge: the ranks it runs between. */
  datatype Span = Span(from: nat, to: nat)

  /** Every channel's last end is the end of the last span it was given. */
  ghost predicate Channelled(spans: seq<Span>, slots: seq<nat>, ends: seq<nat>) {
    && |slots| <= |spans|
    && (forall i :: 0 <= i < |slots| ==> slots[i] < |ends| && spans[i].to <= ends[slots[i]])
    && (forall i, j :: 0 <= i < j < |slots| && slots[i] == slots[j] ==> spans[i].to < spans[j].from)
  }

  lemma ChannelMore(spans: seq<Span>, slots: seq<nat>, ends: seq<nat>, slot: nat)
    requires Channelled(spans, slots, ends) && |slots| < |spans| && slot <= |ends|
    requires spans[|slots|].from < spans[|slots|].to && (slot < |ends| ==> ends[slot] < spans[|slots|].from)
    ensures var to := spans[|slots|].to;
            Channelled(spans, slots + [slot], if slot == |ends| then ends + [to] else ends[slot := to])
  {
  }

  /** Each span takes the first channel whose last span ended before it begins, or opens a channel. */
  method AssignChannels(spans: seq<Span>) returns (slots: seq<nat>, ends: seq<nat>)
    requires forall s :: s in spans ==> s.from < s.to
    ensures |slots| == |spans| && forall i :: 0 <= i < |slots| ==> slots[i] < |ends|
    ensures forall i, j :: 0 <= i < j < |spans| && slots[i] == slots[j] ==> spans[i].to < spans[j].from
    ensures |ends| <= |spans|
  {
    slots, ends := [], [];
    for n := 0 to |spans|
      invariant |slots| == n && Channelled(spans, slots, ends) && |ends| <= n
    {
      var span := spans[n];
      assert span in spans;
      var slot := 0;
      while slot < |ends| && ends[slot] >= span.from
        invariant slot <= |ends|
      {
        slot := slot + 1;
      }
      ChannelMore(spans, slots, ends, slot);
      if slot == |ends| {
        ends := ends + [span.to];
      } else {
        ends := ends[slot := span.to];
      }
      slots := slots + [slot];
    }
  }

  // ----- projection of the horizontal axis -----

  function Axis(value: real, min: real, max: real, low: real, high: real): real {
    if max > min then low + (value - min) / (max - min) * (high - low) else (low + high) / 2.0
  }

  lemma AxisRises(a: real, b: real, min: real, max: real, low: real, high: real)
    requires min < max && low < high
    ensures a < b ==> Axis(a, min, max, low, high) < Axis(b, min, max, low, high)
    ensures a == b ==> Axis(a, min, max, low, high) == Axis(b, min, max, low, high)
  {
    if a < b {
      var d, h := max - min, high - low;
      QuotientRises(a - min, b - min, d);
      ProductRises((a - min) / d, (b - min) / d, h);
    }
  }

  lemma QuotientRises(x: real, y: real, d: real)
    requires x < y && d > 0.0
    ensures x / d < y / d
  {
    assert x / d * d == x && y / d * d == y;
  }

  lemma ProductRises(x: real, y: real, h: real)
    requires x < y && h > 0.0
    ensures x * h < y * h
  {
  }

  lemma AxisEnds(min: real, max: real, low: real, high: real)
    requires min < max
    ensures Axis(min, min, max, low, high) == low && Axis(max, min, max, low, high) == high
  {
    assert (max - min) / (max - min) == 1.0;
    assert (min - min) / (max - min) == 0.0;
  }

  ghost predicate Sorted(s: seq<real>) {
    forall i, j :: 0 <= i < j < |s| ==> s[i] < s[j]
  }

  /** The anchors a value lies between; values beyond the ends belong to the outermost pair. */
  ghost predicate Between(anchors: seq<real>, value: real, k: nat) {
    k + 1 < |anchors| && (k == 0 || anchors[k] <= value) && (k + 2 == |anchors| || value < anchors[k + 1])
  }

  function Interval(n: nat, width: real): real
    requires n >= 2
  {
    (width - 64.0) / (n - 1) as real
  }

  function Mark(n: nat, width: real, k: nat): real
    requires n >= 2
  {
    32.0 + k as real * Interval(n, width)
  }

  function Project(anchors: seq<real>, width: real, value: real, k: nat): real
    requires k + 1 < |anchors|
  {
    Axis(value, anchors[k], anchors[k + 1], Mark(|anchors|, width, k), Mark(|anchors|, width, k + 1))
  }

  /** `projectX`: bisection for the anchors around the value, then interpolation between their marks. */
  method ProjectX(anchors: seq<real>, min: real, max: real, width: real, value: real) returns (x: real, ghost k: nat)
    requires Sorted(anchors)
    ensures |anchors| < 3 ==> x == Axis(value, min, max, 32.0, width - 32.0)
    ensures |anchors| >= 3 ==> Between(anchors, value, k) && x == Project(anchors, width, value, k)
  {
    k := 0;
    if |anchors| < 3 {
      return Axis(value, min, max, 32.0, width - 32.0), k;
    }
    var low, high := 0, |anchors| - 1;
    while high - low > 1
      invariant 0 <= low < high < |anchors|
      invariant low == 0 || anchors[low] <= value
      invariant high == |anchors| - 1 || value < anchors[high]
    {
      var middle := (low + high) / 2;
      if value < anchors[middle] {
        high := middle;
      } else {
        low := middle;
      }
    }
    k := low;
    x := Project(anchors, width, value, low);
  }

  lemma IntervalPositive(n: nat, width: real)
    requires n >= 2 && width > 64.0
    ensures Interval(n, width) > 0.0
    ensures Mark(n, width, 0) == 32.0 && Mark(n, width, n - 1) == width - 32.0
  {
    var d := (n - 1) as real;
    QuotientRises(0.0, width - 64.0, d);
    assert 0.0 / d == 0.0;
    assert d * ((width - 64.0) / d) == width - 64.0;
  }

  lemma MarksRise(n: nat, width: real, i: nat, j: nat)
    requires n >= 2 && width > 64.0
    ensures i < j ==> Mark(n, width, i) < Mark(n, width, j)
    ensures i <= j ==> Mark(n, width, i) <= Mark(n, width, j)
  {
    IntervalPositive(n, width);
    if i < j {
      ProductRises(i as real, j as real, Interval(n, width));
    }
  }

  /** Within its segment a value stays between the marks. */
  lemma WithinMarks(anchors: seq<real>, width: real, value: real, k: nat)
    requires Sorted(anchors) && width > 64.0 && k + 1 < |anchors|
    ensures anchors[k] <= value ==> Mark(|anchors|, width, k) <= Project(anchors, width, value, k)
    ensures value < anchors[k + 1] ==> Project(anchors, width, value, k) < Mark(|anchors|, width, k + 1)
    ensures value == anchors[k + 1] ==> Project(anchors, width, value, k) == Mark(|anchors|, width, k + 1)
  {
    var low, high := Mark(|anchors|, width, k), Mark(|anchors|, width, k + 1);
    MarksRise(|anchors|, width, k, k + 1);
    AxisEnds(anchors[k], anchors[k + 1], low, high);
    AxisRises(anchors[k], value, anchors[k], anchors[k + 1], low, high);
    AxisRises(value, anchors[k + 1], anchors[k], anchors[k + 1], low, high);
  }

  /** The projection keeps the order of any two positions. */
  lemma ProjectionKeepsOrder(anchors: seq<real>, width: real, a: real, b: real, i: nat, j: nat)
    requires Sorted(anchors) && width > 64.0 && a < b && Between(anchors, a, i) && Between(anchors, b, j)
    ensures Project(anchors, width, a, i) < Project(anchors, width, b, j)
  {
    var n := |anchors|;
    if i == j {
      MarksRise(n, width, i, i + 1);
      AxisRises(a, b, anchors[i], anchors[i + 1], Mark(n, width, i), Mark(n, width, i + 1));
    } else if i < j {
      WithinMarks(anchors, width, a, i);
      WithinMarks(anchors, width, b, j);
      MarksRise(n, width, i + 1, j);
    }
  }

  /** Every position of the map lands inside the margins, and the outermost ones on them. */
  lemma ProjectionStaysInside(anchors: seq<real>, width: real, value: real, k: nat)
    requires Sorted(anchors) && width > 64.0 && Between(anchors, value, k)
    requires anchors[0] <= value <= anchors[|anchors| - 1]
    ensures 32.0 <= Project(anchors, width, value, k) <= width - 32.0
    ensures value == anchors[0] ==> Project(anchors, width, value, k) == 32.0
    ensures value == anchors[|anchors| - 1] ==> Project(anchors, width, value, k) == width - 32.0
  {
    var n := |anchors|;
    IntervalPositive(n, width);
    WithinMarks(anchors, width, value, k);
    MarksRise(n, width, 0, k);
    MarksRise(n, width, k + 1, n - 1);
    if value == anchors[0] {
      AxisEnds(anchors[0], anchors[1], Mark(n, width, 0), Mark(n, width, 1));
    }
  }

  /** With fewer than three anchors the plain axis does the same between the outermost positions. */
  lemma PlainAxisKeepsOrder(min: real, max: real, width: real, a: real, b: real)
    requires width > 64.0 && min <= a < b <= max
    ensures 32.0 <= Axis(a, min, max, 32.0, width - 32.0) < Axis(b, min, max, 32.0, width - 32.0) <= width - 32.0
  {
    AxisEnds(min, max, 32.0, width - 32.0);
    AxisRises(min, a, min, max, 32.0, width - 32.0);
    AxisRises(a, b, min, max, 32.0, width - 32.0);
    AxisRises(b, max, min, max, 32.0, width - 32.0);
  }
}
