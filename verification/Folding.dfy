/**
 * Folding long stretches of history into summary edges (assets/metro-core.js, `layoutRouteMap`). A chain runs
 * from one kept station to the next through stations with one way in and one way out on their own lane.
 */
module Folding {
  import opened Prelude
  import opened Topology

  const MIN_MEMBERS := 4

  // ----- edges around a station -----

  function Outgoing(edges: seq<Edge>, v: Oid): seq<Edge> {
    if edges == [] then []
    else
      var n := |edges| - 1;
      Outgoing(edges[..n], v) + if edges[n].from == v then [edges[n]] else []
  }

  function Incoming(edges: seq<Edge>, v: Oid): seq<Edge> {
    if edges == [] then []
    else
      var n := |edges| - 1;
      Incoming(edges[..n], v) + if edges[n].to == v then [edges[n]] else []
  }

  lemma {:induction false} OutgoingExact(edges: seq<Edge>, v: Oid)
    ensures forall e :: e in Outgoing(edges, v) <==> e in edges && e.from == v
    ensures Distinct(edges) ==> Distinct(Outgoing(edges, v))
  {
    if edges != [] {
      var n := |edges| - 1;
      OutgoingExact(edges[..n], v);
      assert edges == edges[..n] + [edges[n]];
      if Distinct(edges) {
        assert edges[n] !in edges[..n];
      }
    }
  }

  lemma {:induction false} IncomingExact(edges: seq<Edge>, v: Oid)
    ensures forall e :: e in Incoming(edges, v) <==> e in edges && e.to == v
  {
    if edges != [] {
      var n := |edges| - 1;
      IncomingExact(edges[..n], v);
      assert edges == edges[..n] + [edges[n]];
    }
  }

  /** One edge in, one out, both on the station's own lane: the stations a summary may hide. */
  predicate Plain(edges: seq<Edge>, laneOf: map<Oid, nat>, v: Oid) {
    && |Incoming(edges, v)| == 1 && |Outgoing(edges, v)| == 1 && v in laneOf
    && Incoming(edges, v)[0].from in laneOf && laneOf[Incoming(edges, v)[0].from] == laneOf[v]
    && Outgoing(edges, v)[0].to in laneOf && laneOf[Outgoing(edges, v)[0].to] == laneOf[v]
  }

  lemma PlainOut(edges: seq<Edge>, laneOf: map<Oid, nat>, v: Oid, e: Edge)
    requires Plain(edges, laneOf, v) && e in edges && e.from == v
    ensures e == Outgoing(edges, v)[0] && e.to in laneOf && laneOf[e.to] == laneOf[v]
  {
    OutgoingExact(edges, v);
    OnlyElement(Outgoing(edges, v), e);
  }

  lemma PlainIn(edges: seq<Edge>, laneOf: map<Oid, nat>, v: Oid, e: Edge)
    requires Plain(edges, laneOf, v) && e in edges && e.to == v
    ensures e == Incoming(edges, v)[0] && e.from in laneOf && laneOf[e.from] == laneOf[v]
  {
    IncomingExact(edges, v);
    OnlyElement(Incoming(edges, v), e);
  }

  /** What folding reads from the finished layout. */
  datatype Base = Base(nodes: seq<Oid>, edges: seq<Edge>, ranks: map<Oid, nat>, laneOf: map<Oid, nat>)

  function EdgeIds(edges: seq<Edge>): (s: seq<string>)
    ensures |s| == |edges| && forall i :: 0 <= i < |s| ==> s[i] == edges[i].id
  {
    seq(|edges|, i requires 0 <= i < |edges| => edges[i].id)
  }

  ghost predicate BaseOk(b: Base) {
    && Distinct(b.nodes) && Distinct(EdgeIds(b.edges))
    && b.ranks.Keys == Elements(b.nodes) && b.laneOf.Keys == Elements(b.nodes)
    && (forall e :: e in b.edges ==> e.from in b.nodes && e.to in b.nodes && b.ranks[e.from] < b.ranks[e.to])
  }

  /** Lanes follow first parents, so a station has at most one plain successor on its own lane. */
  ghost predicate OneSuccessor(b: Base) {
    forall e, f :: e in b.edges && f in b.edges && Plain(b.edges, b.laneOf, e.to) && Plain(b.edges, b.laneOf, f.to) ==>
      e.from == f.from ==> e == f
  }

  ghost predicate KeepOk(b: Base, keep: set<Oid>) {
    forall v :: v in b.nodes ==> v in keep || Plain(b.edges, b.laneOf, v)
  }

  lemma SameId(b: Base, e: Edge, f: Edge)
    requires BaseOk(b) && e in b.edges && f in b.edges && e.id == f.id
    ensures e == f
  {
    var i :| 0 <= i < |b.edges| && b.edges[i] == e;
    var j :| 0 <= j < |b.edges| && b.edges[j] == f;
    assert EdgeIds(b.edges)[i] == EdgeIds(b.edges)[j];
  }

  lemma EdgesDistinct(b: Base)
    requires BaseOk(b)
    ensures Distinct(b.edges)
  {
    forall i, j | 0 <= i < j < |b.edges|
      ensures b.edges[i] != b.edges[j]
    {
      assert EdgeIds(b.edges)[i] != EdgeIds(b.edges)[j];
    }
  }

  // ----- chains -----

  ghost predicate Joined(b: Base, keep: set<Oid>, chain: seq<Edge>, i: nat)
    requires i < |chain|
  {
    chain[i] in b.edges && (i + 1 < |chain| ==> chain[i].to == chain[i + 1].from && chain[i].to !in keep)
  }

  /** A walk that has not met a kept station after its start. */
  ghost predicate Walk(b: Base, keep: set<Oid>, chain: seq<Edge>) {
    chain != [] && chain[0].from in keep && forall i :: 0 <= i < |chain| ==> Joined(b, keep, chain, i)
  }

  ghost predicate Chain(b: Base, keep: set<Oid>, chain: seq<Edge>) {
    Walk(b, keep, chain) && chain[|chain| - 1].to in keep
  }

  function Members(chain: seq<Edge>): (s: seq<Oid>)
    requires chain != []
    ensures |s| == |chain| - 1 && forall i :: 0 <= i < |s| ==> s[i] == chain[i].to
  {
    seq(|chain| - 1, i requires 0 <= i < |chain| - 1 => chain[i].to)
  }

  /** A station that is not kept has one way in and one way out. */
  lemma OneWay(b: Base, keep: set<Oid>, e: Edge, f: Edge)
    requires BaseOk(b) && KeepOk(b, keep) && e in b.edges && f in b.edges
    ensures e.to == f.to && e.to !in keep ==> e == f
    ensures e.from == f.from && e.from !in keep ==> e == f
  {
    if e.to == f.to && e.to !in keep {
      PlainIn(b.edges, b.laneOf, e.to, e);
      PlainIn(b.edges, b.laneOf, e.to, f);
    }
    if e.from == f.from && e.from !in keep {
      PlainOut(b.edges, b.laneOf, e.from, e);
      PlainOut(b.edges, b.laneOf, e.from, f);
    }
  }

  lemma StartIsKept(b: Base, keep: set<Oid>, c: seq<Edge>, i: nat)
    requires Walk(b, keep, c) && i < |c|
    ensures c[i] in b.edges && (c[i].from in keep <==> i == 0)
    ensures i > 0 ==> c[i - 1] in b.edges && c[i - 1].to == c[i].from
  {
    assert Joined(b, keep, c, i);
    if i > 0 {
      assert Joined(b, keep, c, i - 1);
    }
  }

  lemma StepBack(b: Base, keep: set<Oid>, c: seq<Edge>, d: seq<Edge>, i: nat, j: nat)
    requires BaseOk(b) && KeepOk(b, keep) && Walk(b, keep, c) && Walk(b, keep, d)
    requires i < |c| && j < |d| && c[i] == d[j]
    ensures i == 0 <==> j == 0
    ensures i > 0 && j > 0 ==> c[i - 1] == d[j - 1]
  {
    StartIsKept(b, keep, c, i);
    StartIsKept(b, keep, d, j);
    if i > 0 && j > 0 {
      OneWay(b, keep, c[i - 1], d[j - 1]);
    }
  }

  /** Two walks that pass over one edge have the same start, at the same distance. */
  lemma {:induction false} WalksMeet(b: Base, keep: set<Oid>, c: seq<Edge>, d: seq<Edge>, i: nat, j: nat)
    requires BaseOk(b) && KeepOk(b, keep) && Walk(b, keep, c) && Walk(b, keep, d)
    requires i < |c| && j < |d| && c[i] == d[j]
    ensures i == j && c[0] == d[0]
    decreases i
  {
    StepBack(b, keep, c, d, i, j);
    if i > 0 {
      WalksMeet(b, keep, c, d, i - 1, j - 1);
    }
  }

  /** A chain is determined by its first edge. */
  lemma {:induction false} WalksAgree(b: Base, keep: set<Oid>, c: seq<Edge>, d: seq<Edge>, i: nat)
    requires BaseOk(b) && KeepOk(b, keep) && Walk(b, keep, c) && Walk(b, keep, d) && c[0] == d[0]
    requires i < |c| && i < |d|
    ensures c[i] == d[i]
  {
    if i > 0 {
      WalksAgree(b, keep, c, d, i - 1);
      StartIsKept(b, keep, c, i);
      StartIsKept(b, keep, d, i);
      OneWay(b, keep, c[i], d[i]);
    }
  }

  lemma ChainDetermined(b: Base, keep: set<Oid>, c: seq<Edge>, d: seq<Edge>)
    requires BaseOk(b) && KeepOk(b, keep) && Chain(b, keep, c) && Chain(b, keep, d) && c[0] == d[0]
    ensures c == d
  {
    forall i | 0 <= i < |c| && i < |d|
      ensures c[i] == d[i]
    {
      WalksAgree(b, keep, c, d, i);
    }
    EndsAtKept(b, keep, c, |d| - 1);
    EndsAtKept(b, keep, d, |c| - 1);
  }

  lemma EndsAtKept(b: Base, keep: set<Oid>, c: seq<Edge>, i: nat)
    requires Chain(b, keep, c)
    ensures i < |c| ==> (c[i].to in keep <==> i + 1 == |c|)
  {
    if i < |c| {
      assert Joined(b, keep, c, i);
    }
  }

  lemma WayOut(b: Base, keep: set<Oid>, v: Oid)
    requires BaseOk(b) && KeepOk(b, keep) && v in b.nodes && v !in keep
    ensures |Outgoing(b.edges, v)| == 1 && Outgoing(b.edges, v)[0] in b.edges && Outgoing(b.edges, v)[0].from == v
  {
    OutgoingExact(b.edges, v);
    assert Outgoing(b.edges, v)[0] in Outgoing(b.edges, v);
  }

  lemma WalkOn(b: Base, keep: set<Oid>, chain: seq<Edge>, next: Edge)
    requires Walk(b, keep, chain) && next in b.edges && next.from == chain[|chain| - 1].to && next.from !in keep
    ensures Walk(b, keep, chain + [next]) && Members(chain + [next]) == Members(chain) + [next.from]
  {
    var longer := chain + [next];
    forall i | 0 <= i < |longer|
      ensures Joined(b, keep, longer, i)
    {
      if i < |chain| { assert Joined(b, keep, chain, i); }
    }
  }

  /** The inner loop: walks on while the end is not kept. */
  method WalkChain(b: Base, outgoing: map<Oid, seq<Edge>>, keep: set<Oid>, first: Edge)
    returns (members: seq<Oid>, chain: seq<Edge>, end: Oid)
    requires BaseOk(b) && KeepOk(b, keep) && first in b.edges && first.from in keep
    requires GroupedOut(b, b.edges, outgoing)
    ensures Chain(b, keep, chain) && chain[0] == first && members == Members(chain) && end == chain[|chain| - 1].to
  {
    members, chain, end := [], [first], first.to;
    ghost var top := HighestRank(b.ranks);
    HighestBounds(b.ranks, end);
    while end !in keep
      invariant Walk(b, keep, chain) && chain[0] == first && end == chain[|chain| - 1].to && members == Members(chain)
      invariant end in b.nodes && b.ranks[end] <= top
      decreases top - b.ranks[end]
    {
      WayOut(b, keep, end);
      var next := outgoing[end][0];
      WalkOn(b, keep, chain, next);
      members := members + [end];
      chain := chain + [next];
      end := next.to;
      HighestBounds(b.ranks, end);
    }
  }

  ghost function HighestRank(ranks: map<Oid, nat>): nat {
    if ranks == map[] then 0
    else
      var v :| v in ranks;
      var rest := HighestRank(ranks - {v});
      if ranks[v] > rest then ranks[v] else rest
  }

  lemma {:induction false} HighestBounds(ranks: map<Oid, nat>, v: Oid)
    requires v in ranks
    ensures ranks[v] <= HighestRank(ranks)
    decreases |ranks|
  {
    var u :| u in ranks && HighestRank(ranks) == (var rest := HighestRank(ranks - {u}); if ranks[u] > rest then ranks[u] else rest);
    if v != u {
      assert v in ranks - {u};
      HighestBounds(ranks - {u}, v);
    }
  }

  // ----- ranges -----

  /** What the reader asked to see in full. */
  datatype Options = Options(expandedHistory: set<string>, expandedCommits: set<Oid>, revealCommit: Option<Oid>)

  datatype Range = Range(id: string, from: Oid, to: Oid, members: seq<Oid>, chain: seq<Edge>, expanded: bool)

  function RangeId(from: Oid, to: Oid): string {
    "history-range:" + from + ":" + to
  }

  predicate Expanded(o: Options, id: string, members: seq<Oid>) {
    || id in o.expandedHistory
    || (exists i :: 0 <= i < |members| && members[i] in o.expandedCommits)
    || (o.revealCommit.Some? && o.revealCommit.value in members)
  }

  function RangeOf(o: Options, chain: seq<Edge>): Range
    requires chain != []
  {
    var id := RangeId(chain[0].from, chain[|chain| - 1].to);
    Range(id, chain[0].from, chain[|chain| - 1].to, Members(chain), chain, Expanded(o, id, Members(chain)))
  }

  ghost predicate RangeOk(b: Base, keep: set<Oid>, o: Options, r: Range) {
    Chain(b, keep, r.chain) && |r.chain| > MIN_MEMBERS && r == RangeOf(o, r.chain)
  }

  ghost predicate RangesOk(b: Base, keep: set<Oid>, o: Options, ranges: seq<Range>) {
    && (forall k :: 0 <= k < |ranges| ==> RangeOk(b, keep, o, ranges[k]))
    && (forall j, k :: 0 <= j < k < |ranges| ==> ranges[j].chain[0] != ranges[k].chain[0])
  }

  /** The chain from the edge is too short to fold, or it is one of the ranges. */
  ghost predicate Followed(b: Base, keep: set<Oid>, ranges: seq<Range>, first: Edge) {
    exists c :: Chain(b, keep, c) && c[0] == first && (|c| <= MIN_MEMBERS || exists r :: r in ranges && r.chain == c)
  }

  ghost function Hidden(ranges: seq<Range>): set<Oid> {
    set r, v | r in ranges && !r.expanded && v in r.members :: v
  }

  ghost function Omitted(ranges: seq<Range>): set<string> {
    set r, e | r in ranges && !r.expanded && e in r.chain :: e.id
  }

  function Summary(r: Range): Edge {
    Edge(r.id, r.from, r.to)
  }

  function Summaries(ranges: seq<Range>): seq<Edge> {
    if ranges == [] then []
    else
      var n := |ranges| - 1;
      Summaries(ranges[..n]) + if ranges[n].expanded then [] else [Summary(ranges[n])]
  }

  function Shown(nodes: seq<Oid>, hidden: set<Oid>): seq<Oid> {
    if nodes == [] then []
    else
      var n := |nodes| - 1;
      Shown(nodes[..n], hidden) + if nodes[n] in hidden then [] else [nodes[n]]
  }

  function Rest(edges: seq<Edge>, omitted: set<string>): seq<Edge> {
    if edges == [] then []
    else
      var n := |edges| - 1;
      Rest(edges[..n], omitted) + if edges[n].id in omitted then [] else [edges[n]]
  }

  datatype Folded = Folded(nodes: seq<Oid>, edges: seq<Edge>, ranges: seq<Range>)

  /** The edges shown are those of no collapsed chain, and one summary for each. */
  ghost predicate Collapsed(b: Base, keep: set<Oid>, o: Options, f: Folded) {
    RangesOk(b, keep, o, f.ranges) && f.edges == Rest(b.edges, Omitted(f.ranges)) + Summaries(f.ranges)
  }

  ghost predicate FoldedOk(b: Base, keep: set<Oid>, o: Options, f: Folded) {
    && Collapsed(b, keep, o, f)
    && (forall e :: e in b.edges && e.from in keep ==> Followed(b, keep, f.ranges, e))
    && f.nodes == Shown(b.nodes, Hidden(f.ranges))
  }

  // ----- the folding loop -----

  method GroupEdges(b: Base) returns (incoming: map<Oid, seq<Edge>>, outgoing: map<Oid, seq<Edge>>)
    requires BaseOk(b)
    ensures GroupedIn(b, b.edges, incoming)
    ensures GroupedOut(b, b.edges, outgoing)
  {
    incoming := map v | v in b.nodes :: [];
    outgoing := incoming;
    for i := 0 to |b.edges|
      invariant GroupedIn(b, b.edges[..i], incoming)
      invariant GroupedOut(b, b.edges[..i], outgoing)
    {
      var e := b.edges[i];
      assert e in b.edges;
      TakeMore(b.edges, i);
      assert (b.edges[..i] + [e])[..i] == b.edges[..i];
      incoming := incoming[e.to := incoming[e.to] + [e]];
      outgoing := outgoing[e.from := outgoing[e.from] + [e]];
    }
    assert b.edges[..|b.edges|] == b.edges;
  }

  ghost predicate GroupedOut(b: Base, edges: seq<Edge>, outgoing: map<Oid, seq<Edge>>) {
    outgoing.Keys == Elements(b.nodes) && forall v :: v in outgoing ==> outgoing[v] == Outgoing(edges, v)
  }

  ghost predicate GroupedIn(b: Base, edges: seq<Edge>, incoming: map<Oid, seq<Edge>>) {
    incoming.Keys == Elements(b.nodes) && forall v :: v in incoming ==> incoming[v] == Incoming(edges, v)
  }

  method IsPlain(b: Base, incoming: seq<Edge>, outgoing: seq<Edge>, v: Oid) returns (yes: bool)
    requires BaseOk(b) && v in b.nodes && incoming == Incoming(b.edges, v) && outgoing == Outgoing(b.edges, v)
    ensures yes == Plain(b.edges, b.laneOf, v)
  {
    if |incoming| != 1 || |outgoing| != 1 {
      return false;
    }
    IncomingExact(b.edges, v);
    OutgoingExact(b.edges, v);
    assert incoming[0] in incoming && outgoing[0] in outgoing;
    yes := b.laneOf[incoming[0].from] == b.laneOf[v] && b.laneOf[v] == b.laneOf[outgoing[0].to];
  }

  /** Heads, refs, boundaries and asked-for commits are marked; every station that is not plain is kept as well. */
  ghost function KeepSet(b: Base, nodes: seq<Oid>, marked: set<Oid>): set<Oid> {
    marked + set v | v in nodes && !Plain(b.edges, b.laneOf, v)
  }

  method FindKept(b: Base, marked: set<Oid>, incoming: map<Oid, seq<Edge>>, outgoing: map<Oid, seq<Edge>>)
    returns (keep: set<Oid>)
    requires BaseOk(b)
    requires GroupedIn(b, b.edges, incoming)
    requires GroupedOut(b, b.edges, outgoing)
    ensures keep == KeepSet(b, b.nodes, marked) && KeepOk(b, keep)
  {
    keep := marked;
    for i := 0 to |b.nodes|
      invariant keep == KeepSet(b, b.nodes[..i], marked)
    {
      var v := b.nodes[i];
      var plain := IsPlain(b, incoming[v], outgoing[v], v);
      TakeMore(b.nodes, i);
      KeepMore(b, b.nodes[..i], v, marked);
      if !plain {
        keep := keep + {v};
      }
    }
    assert b.nodes[..|b.nodes|] == b.nodes;
  }

  lemma KeepMore(b: Base, nodes: seq<Oid>, v: Oid, marked: set<Oid>)
    ensures KeepSet(b, nodes + [v], marked) == KeepSet(b, nodes, marked) + if Plain(b.edges, b.laneOf, v) then {} else {v}
  {
  }

  /** The running state of the loop: everything follows from the ranges found so far and the first edges seen. */
  ghost predicate Folding(b: Base, keep: set<Oid>, o: Options, ranges: seq<Range>, hidden: set<Oid>, omitted: set<string>,
                          replacements: seq<Edge>, seen: set<Edge>)
  {
    && RangesOk(b, keep, o, ranges) && hidden == Hidden(ranges) && omitted == Omitted(ranges)
    && replacements == Summaries(ranges)
    && (forall r :: r in ranges ==> r.chain != [] && r.chain[0] in seen)
    && (forall e :: e in seen ==> Followed(b, keep, ranges, e))
  }

  lemma StillFollowed(b: Base, keep: set<Oid>, ranges: seq<Range>, r: Range, e: Edge)
    requires Followed(b, keep, ranges, e)
    ensures Followed(b, keep, ranges + [r], e)
  {
    var c :| Chain(b, keep, c) && c[0] == e && (|c| <= MIN_MEMBERS || exists q :: q in ranges && q.chain == c);
    assert forall q :: q in ranges ==> q in ranges + [r];
  }

  lemma AddRange(b: Base, keep: set<Oid>, o: Options, ranges: seq<Range>, hidden: set<Oid>, omitted: set<string>,
                 replacements: seq<Edge>, seen: set<Edge>, r: Range)
    requires Folding(b, keep, o, ranges, hidden, omitted, replacements, seen)
    requires RangeOk(b, keep, o, r) && r.chain[0] !in seen
    ensures Folding(b, keep, o, ranges + [r],
                    hidden + if r.expanded then {} else Elements(r.members),
                    omitted + if r.expanded then {} else set e | e in r.chain :: e.id,
                    replacements + if r.expanded then [] else [Summary(r)],
                    seen + {r.chain[0]})
  {
    assert (ranges + [r])[..|ranges|] == ranges;
    RangesMore(b, keep, o, ranges, r, seen);
    FollowedMore(b, keep, o, ranges, r, seen);
    HiddenMore(ranges, r);
  }

  lemma RangesMore(b: Base, keep: set<Oid>, o: Options, ranges: seq<Range>, r: Range, seen: set<Edge>)
    requires RangesOk(b, keep, o, ranges) && RangeOk(b, keep, o, r) && r.chain[0] !in seen
    requires forall q :: q in ranges ==> q.chain != [] && q.chain[0] in seen
    ensures RangesOk(b, keep, o, ranges + [r])
  {
    var more := ranges + [r];
    forall k | 0 <= k < |more|
      ensures RangeOk(b, keep, o, more[k])
      ensures k < |ranges| ==> more[k].chain[0] in seen
    {
      if k < |ranges| {
        assert RangeOk(b, keep, o, ranges[k]) && ranges[k] in ranges;
      }
    }
    assert forall j, k :: 0 <= j < k < |ranges| ==> more[j].chain[0] != more[k].chain[0];
  }

  lemma FollowedMore(b: Base, keep: set<Oid>, o: Options, ranges: seq<Range>, r: Range, seen: set<Edge>)
    requires RangeOk(b, keep, o, r) && forall e :: e in seen ==> Followed(b, keep, ranges, e)
    ensures forall e :: e in seen + {r.chain[0]} ==> Followed(b, keep, ranges + [r], e)
  {
    assert r in ranges + [r] && r.chain == r.chain;
    forall e | e in seen
      ensures Followed(b, keep, ranges + [r], e)
    {
      StillFollowed(b, keep, ranges, r, e);
    }
  }

  lemma HiddenMore(ranges: seq<Range>, r: Range)
    ensures Hidden(ranges + [r]) == Hidden(ranges) + if r.expanded then {} else Elements(r.members)
    ensures Omitted(ranges + [r]) == Omitted(ranges) + if r.expanded then {} else set e | e in r.chain :: e.id
  {
    assert forall q :: q in ranges + [r] <==> q in ranges || q == r;
  }

  /** Follows one edge out of a kept station and records its range. */
  method FoldFirst(b: Base, outgoing: map<Oid, seq<Edge>>, keep: set<Oid>, o: Options, first: Edge,
                   ranges0: seq<Range>, hidden0: set<Oid>, omitted0: set<string>, replacements0: seq<Edge>, ghost seen: set<Edge>)
    returns (ranges: seq<Range>, hidden: set<Oid>, omitted: set<string>, replacements: seq<Edge>)
    requires BaseOk(b) && KeepOk(b, keep) && first in b.edges && first.from in keep && first !in seen
    requires GroupedOut(b, b.edges, outgoing)
    requires Folding(b, keep, o, ranges0, hidden0, omitted0, replacements0, seen)
    ensures Folding(b, keep, o, ranges, hidden, omitted, replacements, seen + {first})
  {
    ranges, hidden, omitted, replacements := ranges0, hidden0, omitted0, replacements0;
    var members, chain, end := WalkChain(b, outgoing, keep, first);
    if |members| < MIN_MEMBERS {
      assert Followed(b, keep, ranges, first);
      return;
    }
    var id := RangeId(first.from, end);
    var r := Range(id, first.from, end, members, chain, Expanded(o, id, members));
    AddRange(b, keep, o, ranges, hidden, omitted, replacements, seen, r);
    ranges := ranges + [r];
    if !r.expanded {
      hidden := hidden + (set v | v in members);
      omitted := omitted + (set e | e in chain :: e.id);
      replacements := replacements + [Summary(r)];
    }
  }

  /** The edges that leave the kept ones of these stations. */
  ghost function Firsts(b: Base, keep: set<Oid>, nodes: seq<Oid>): set<Edge> {
    set e | e in b.edges && e.from in keep && e.from in nodes
  }

  lemma FirstsAreNew(b: Base, keep: set<Oid>, start: Oid, nodes: seq<Oid>)
    requires BaseOk(b) && start in keep && start !in nodes
    ensures Distinct(Outgoing(b.edges, start))
    ensures forall e :: e in Outgoing(b.edges, start) ==> e in b.edges && e.from == start && e !in Firsts(b, keep, nodes)
    ensures Firsts(b, keep, nodes + [start]) == Firsts(b, keep, nodes) + Elements(Outgoing(b.edges, start))
  {
    OutgoingExact(b.edges, start);
    EdgesDistinct(b);
  }

  lemma NextIsNew(firsts: seq<Edge>, j: nat, seen: set<Edge>)
    requires Distinct(firsts) && j < |firsts| && forall e :: e in firsts ==> e !in seen
    ensures firsts[j] !in seen + Elements(firsts[..j])
    ensures seen + Elements(firsts[..j + 1]) == seen + Elements(firsts[..j]) + {firsts[j]}
  {
    TakeMore(firsts, j);
    assert firsts[j] in firsts && firsts[j] !in firsts[..j];
  }

  method FoldFrom(b: Base, outgoing: map<Oid, seq<Edge>>, keep: set<Oid>, o: Options, start: Oid, ghost nodes: seq<Oid>,
                  ranges0: seq<Range>, hidden0: set<Oid>, omitted0: set<string>, replacements0: seq<Edge>)
    returns (ranges: seq<Range>, hidden: set<Oid>, omitted: set<string>, replacements: seq<Edge>)
    requires BaseOk(b) && KeepOk(b, keep) && start in b.nodes && start in keep && start !in nodes
    requires GroupedOut(b, b.edges, outgoing)
    requires Folding(b, keep, o, ranges0, hidden0, omitted0, replacements0, Firsts(b, keep, nodes))
    ensures Folding(b, keep, o, ranges, hidden, omitted, replacements, Firsts(b, keep, nodes + [start]))
  {
    ranges, hidden, omitted, replacements := ranges0, hidden0, omitted0, replacements0;
    ghost var seen0, seen := Firsts(b, keep, nodes), Firsts(b, keep, nodes);
    var firsts := outgoing[start];
    FirstsAreNew(b, keep, start, nodes);
    for j := 0 to |firsts|
      invariant Folding(b, keep, o, ranges, hidden, omitted, replacements, seen)
      invariant seen == seen0 + Elements(firsts[..j])
    {
      var first := firsts[j];
      assert first in firsts;
      NextIsNew(firsts, j, seen0);
      ranges, hidden, omitted, replacements := FoldFirst(b, outgoing, keep, o, first, ranges, hidden, omitted, replacements, seen);
      seen := seen + {first};
    }
    assert firsts[..|firsts|] == firsts;
  }

  method FoldRanges(b: Base, outgoing: map<Oid, seq<Edge>>, keep: set<Oid>, o: Options)
    returns (ranges: seq<Range>, hidden: set<Oid>, omitted: set<string>, replacements: seq<Edge>)
    requires BaseOk(b) && KeepOk(b, keep) && GroupedOut(b, b.edges, outgoing)
    ensures Folding(b, keep, o, ranges, hidden, omitted, replacements, Firsts(b, keep, b.nodes))
  {
    ranges, hidden, omitted, replacements := [], {}, {}, [];
    for i := 0 to |b.nodes|
      invariant Folding(b, keep, o, ranges, hidden, omitted, replacements, Firsts(b, keep, b.nodes[..i]))
    {
      var start := b.nodes[i];
      TakeMore(b.nodes, i);
      if start in keep {
        assert start !in b.nodes[..i];
        ranges, hidden, omitted, replacements :=
          FoldFrom(b, outgoing, keep, o, start, b.nodes[..i], ranges, hidden, omitted, replacements);
      } else {
        assert Firsts(b, keep, b.nodes[..i + 1]) == Firsts(b, keep, b.nodes[..i]);
      }
    }
    assert b.nodes[..|b.nodes|] == b.nodes;
  }

  /** The folding part of `layoutRouteMap`. */
  method Fold(b: Base, marked: set<Oid>, o: Options) returns (f: Folded)
    requires BaseOk(b)
    ensures KeepOk(b, KeepSet(b, b.nodes, marked)) && FoldedOk(b, KeepSet(b, b.nodes, marked), o, f)
  {
    var incoming, outgoing := GroupEdges(b);
    var keep := FindKept(b, marked, incoming, outgoing);
    var ranges, hidden, omitted, replacements := FoldRanges(b, outgoing, keep, o);
    FoldingDone(b, keep, o, ranges, hidden, omitted, replacements);
    f := Folded(Shown(b.nodes, hidden), Rest(b.edges, omitted) + replacements, ranges);
  }

  lemma FoldingDone(b: Base, keep: set<Oid>, o: Options, ranges: seq<Range>, hidden: set<Oid>, omitted: set<string>,
                    replacements: seq<Edge>)
    requires BaseOk(b) && Folding(b, keep, o, ranges, hidden, omitted, replacements, Firsts(b, keep, b.nodes))
    ensures FoldedOk(b, keep, o, Folded(Shown(b.nodes, hidden), Rest(b.edges, omitted) + replacements, ranges))
  {
  }

  // ----- what a summary hides -----

  /** An edge of a chain, or a hidden station, tells which range it belongs to. */
  lemma ChainsApart(b: Base, keep: set<Oid>, o: Options, ranges: seq<Range>, j: nat, k: nat, e: Edge)
    requires BaseOk(b) && KeepOk(b, keep) && RangesOk(b, keep, o, ranges) && j < |ranges| && k < |ranges|
    requires e in ranges[j].chain && e in ranges[k].chain
    ensures j == k
  {
    assert RangeOk(b, keep, o, ranges[j]) && RangeOk(b, keep, o, ranges[k]);
    var c, d := ranges[j].chain, ranges[k].chain;
    var x :| 0 <= x < |c| && c[x] == e;
    var y :| 0 <= y < |d| && d[y] == e;
    WalksMeet(b, keep, c, d, x, y);
  }

  lemma MemberEdge(b: Base, keep: set<Oid>, o: Options, r: Range, v: Oid) returns (i: nat)
    requires BaseOk(b) && KeepOk(b, keep) && RangeOk(b, keep, o, r) && v in r.members
    ensures v in b.nodes && v !in keep && i < |r.members| && r.members[i] == v
    ensures r.chain[i] in b.edges && r.chain[i].to == v && r.chain[i + 1] in b.edges && r.chain[i + 1].from == v
  {
    i :| 0 <= i < |r.members| && r.members[i] == v;
    EndsAtKept(b, keep, r.chain, i);
    StartIsKept(b, keep, r.chain, i);
    StartIsKept(b, keep, r.chain, i + 1);
  }

  /** Ranges share no station and no edge. */
  lemma RangesDisjoint(b: Base, keep: set<Oid>, o: Options, ranges: seq<Range>, j: nat, k: nat)
    requires BaseOk(b) && KeepOk(b, keep) && RangesOk(b, keep, o, ranges) && j < k < |ranges|
    ensures forall v :: v in ranges[j].members ==> v !in ranges[k].members
    ensures forall e :: e in ranges[j].chain ==> e !in ranges[k].chain
  {
    if e :| e in ranges[j].chain && e in ranges[k].chain {
      ChainsApart(b, keep, o, ranges, j, k, e);
    }
    if v :| v in ranges[j].members && v in ranges[k].members {
      SharedMember(b, keep, o, ranges, j, k, v);
    }
  }

  lemma SharedMember(b: Base, keep: set<Oid>, o: Options, ranges: seq<Range>, j: nat, k: nat, v: Oid)
    requires BaseOk(b) && KeepOk(b, keep) && RangesOk(b, keep, o, ranges) && j < |ranges| && k < |ranges|
    requires v in ranges[j].members && v in ranges[k].members
    ensures j == k
  {
    assert RangeOk(b, keep, o, ranges[j]) && RangeOk(b, keep, o, ranges[k]);
    var x := MemberEdge(b, keep, o, ranges[j], v);
    var y := MemberEdge(b, keep, o, ranges[k], v);
    OneWay(b, keep, ranges[j].chain[x], ranges[k].chain[y]);
    ChainsApart(b, keep, o, ranges, j, k, ranges[j].chain[x]);
  }

  /** No kept station, no revealed commit and no expanded commit is ever hidden. */
  lemma HidesOnlyFoldable(b: Base, keep: set<Oid>, o: Options, ranges: seq<Range>, v: Oid)
    requires BaseOk(b) && KeepOk(b, keep) && RangesOk(b, keep, o, ranges) && v in Hidden(ranges)
    ensures v in b.nodes && v !in keep && v !in o.expandedCommits && o.revealCommit != Some(v)
    ensures exists r :: r in ranges && !r.expanded && v in r.members && |r.members| >= MIN_MEMBERS
  {
    var r :| r in ranges && !r.expanded && v in r.members;
    var k :| 0 <= k < |ranges| && ranges[k] == r;
    assert RangeOk(b, keep, o, ranges[k]);
    var i := MemberEdge(b, keep, o, r, v);
  }

  // ----- unique identifiers -----

  lemma RangeIdInjective(a: Oid, b: Oid, c: Oid, d: Oid)
    requires NoColon(a) && NoColon(c) && RangeId(a, b) == RangeId(c, d)
    ensures a == c && b == d
  {
    var n := |"history-range:"|;
    assert RangeId(a, b)[n..] == a + ":" + b && RangeId(c, d)[n..] == c + ":" + d;
    ColonJoinInjective(a, b, c, d);
  }

  /** Because lanes follow first parents, no two ranges start at the same station, so no two share an identifier. */
  lemma RangeIdsUnique(b: Base, keep: set<Oid>, o: Options, ranges: seq<Range>, j: nat, k: nat)
    requires BaseOk(b) && KeepOk(b, keep) && RangesOk(b, keep, o, ranges) && OneSuccessor(b) && j < k < |ranges|
    requires forall v :: v in b.nodes ==> NoColon(v)
    ensures ranges[j].from != ranges[k].from && ranges[j].id != ranges[k].id
  {
    var r, q := ranges[j], ranges[k];
    assert RangeOk(b, keep, o, r) && RangeOk(b, keep, o, q);
    StartIsKept(b, keep, r.chain, 0);
    StartIsKept(b, keep, q.chain, 0);
    EndsAtKept(b, keep, r.chain, 0);
    EndsAtKept(b, keep, q.chain, 0);
    if r.id == q.id {
      RangeIdInjective(r.from, r.to, q.from, q.to);
    }
  }

  // ----- nothing is lost -----

  function HiddenList(ranges: seq<Range>): seq<Oid> {
    if ranges == [] then []
    else
      var n := |ranges| - 1;
      HiddenList(ranges[..n]) + if ranges[n].expanded then [] else ranges[n].members
  }

  function OmittedList(ranges: seq<Range>): seq<Edge> {
    if ranges == [] then []
    else
      var n := |ranges| - 1;
      OmittedList(ranges[..n]) + if ranges[n].expanded then [] else ranges[n].chain
  }

  lemma {:induction false} ListsExact(ranges: seq<Range>)
    ensures forall v :: v in HiddenList(ranges) <==> v in Hidden(ranges)
    ensures forall e :: e in OmittedList(ranges) <==> exists r :: r in ranges && !r.expanded && e in r.chain
    decreases |ranges|
  {
    if ranges != [] {
      var n := |ranges| - 1;
      ListsExact(ranges[..n]);
      assert ranges == ranges[..n] + [ranges[n]];
      HiddenMore(ranges[..n], ranges[n]);
    }
  }

  lemma ChainDistinct(b: Base, keep: set<Oid>, o: Options, r: Range)
    requires BaseOk(b) && KeepOk(b, keep) && RangeOk(b, keep, o, r)
    ensures Distinct(r.chain) && Distinct(r.members)
  {
    forall i, j | 0 <= i < j < |r.chain|
      ensures r.chain[i] != r.chain[j]
    {
      if r.chain[i] == r.chain[j] {
        WalksMeet(b, keep, r.chain, r.chain, i, j);
      }
    }
    forall i, j | 0 <= i < j < |r.members|
      ensures r.members[i] != r.members[j]
    {
      StartIsKept(b, keep, r.chain, i);
      StartIsKept(b, keep, r.chain, j);
      EndsAtKept(b, keep, r.chain, i);
      OneWay(b, keep, r.chain[i], r.chain[j]);
    }
  }

  lemma RangesTake(b: Base, keep: set<Oid>, o: Options, ranges: seq<Range>, n: nat)
    requires RangesOk(b, keep, o, ranges) && n <= |ranges|
    ensures RangesOk(b, keep, o, ranges[..n])
  {
    forall k | 0 <= k < n
      ensures RangeOk(b, keep, o, ranges[..n][k])
    {
      assert RangeOk(b, keep, o, ranges[k]);
    }
    assert forall j, k :: 0 <= j < k < n ==> ranges[j].chain[0] != ranges[k].chain[0];
  }

  /** Nothing of the last range occurs in an earlier one. */
  lemma LastRangeNew(b: Base, keep: set<Oid>, o: Options, before: seq<Range>, last: Range)
    requires BaseOk(b) && KeepOk(b, keep) && RangesOk(b, keep, o, before + [last])
    ensures forall v :: v in last.members ==> v !in HiddenList(before)
    ensures forall e :: e in last.chain ==> e !in OmittedList(before)
  {
    ListsExact(before);
    forall r | r in before
      ensures forall v :: v in last.members ==> v !in r.members
      ensures forall e :: e in last.chain ==> e !in r.chain
    {
      var j :| 0 <= j < |before| && before[j] == r;
      assert (before + [last])[j] == r;
      RangesDisjoint(b, keep, o, before + [last], j, |before|);
    }
  }

  lemma {:induction false} ListsDistinct(b: Base, keep: set<Oid>, o: Options, ranges: seq<Range>)
    requires BaseOk(b) && KeepOk(b, keep) && RangesOk(b, keep, o, ranges)
    ensures Distinct(HiddenList(ranges)) && Distinct(OmittedList(ranges))
    decreases |ranges|
  {
    if ranges != [] {
      var n := |ranges| - 1;
      RangesTake(b, keep, o, ranges, n);
      ListsDistinct(b, keep, o, ranges[..n]);
      assert RangeOk(b, keep, o, ranges[n]);
      ChainDistinct(b, keep, o, ranges[n]);
      assert ranges[..n] + [ranges[n]] == ranges;
      LastRangeNew(b, keep, o, ranges[..n], ranges[n]);
      JoinDistinct(HiddenList(ranges[..n]), ranges[n].members);
      JoinDistinct(OmittedList(ranges[..n]), ranges[n].chain);
    }
  }

  lemma {:induction false} ShownExact(nodes: seq<Oid>, hidden: set<Oid>)
    ensures forall v :: v in Shown(nodes, hidden) <==> v in nodes && v !in hidden
    ensures Distinct(nodes) ==> Distinct(Shown(nodes, hidden))
    decreases |nodes|
  {
    if nodes != [] {
      var n := |nodes| - 1;
      ShownExact(nodes[..n], hidden);
      assert nodes == nodes[..n] + [nodes[n]];
      if Distinct(nodes) {
        assert nodes[n] !in nodes[..n];
        JoinDistinct(Shown(nodes[..n], hidden), if nodes[n] in hidden then [] else [nodes[n]]);
      }
    }
  }

  lemma {:induction false} ShowsAll(nodes: seq<Oid>)
    ensures Shown(nodes, {}) == nodes
    decreases |nodes|
  {
    if nodes != [] {
      ShowsAll(nodes[..|nodes| - 1]);
    }
  }

  lemma {:induction false} RestExact(edges: seq<Edge>, omitted: set<string>)
    ensures forall e :: e in Rest(edges, omitted) <==> e in edges && e.id !in omitted
    ensures Distinct(edges) ==> Distinct(Rest(edges, omitted))
    decreases |edges|
  {
    if edges != [] {
      var n := |edges| - 1;
      RestExact(edges[..n], omitted);
      assert edges == edges[..n] + [edges[n]];
      if Distinct(edges) {
        assert edges[n] !in edges[..n];
        JoinDistinct(Rest(edges[..n], omitted), if edges[n].id in omitted then [] else [edges[n]]);
      }
    }
  }

  lemma {:induction false} RestIsAll(edges: seq<Edge>)
    ensures Rest(edges, {}) == edges
    decreases |edges|
  {
    if edges != [] {
      RestIsAll(edges[..|edges| - 1]);
    }
  }

  /** An edge is left out exactly when a collapsed chain holds it. */
  lemma OmittedExact(b: Base, keep: set<Oid>, o: Options, ranges: seq<Range>, e: Edge)
    requires BaseOk(b) && RangesOk(b, keep, o, ranges)
    ensures (e in b.edges && e.id in Omitted(ranges)) <==> exists r :: r in ranges && !r.expanded && e in r.chain
  {
    if r :| r in ranges && !r.expanded && e in r.chain {
      ChainInBase(b, keep, o, ranges, r, e);
    }
    if e in b.edges && e.id in Omitted(ranges) {
      var r, f :| r in ranges && !r.expanded && f in r.chain && f.id == e.id;
      ChainInBase(b, keep, o, ranges, r, f);
      SameId(b, e, f);
    }
  }

  lemma ChainInBase(b: Base, keep: set<Oid>, o: Options, ranges: seq<Range>, r: Range, e: Edge)
    requires RangesOk(b, keep, o, ranges) && r in ranges && e in r.chain
    ensures RangeOk(b, keep, o, r) && e in b.edges
  {
    var k :| 0 <= k < |ranges| && ranges[k] == r;
    assert RangeOk(b, keep, o, ranges[k]);
    var i :| 0 <= i < |r.chain| && r.chain[i] == e;
    StartIsKept(b, keep, r.chain, i);
  }

  /** The stations shown and the stations the summaries hide are together exactly the stations of the map. */
  lemma StationsConserved(b: Base, keep: set<Oid>, o: Options, f: Folded)
    requires BaseOk(b) && KeepOk(b, keep) && FoldedOk(b, keep, o, f)
    ensures multiset(f.nodes + HiddenList(f.ranges)) == multiset(b.nodes)
  {
    var shown, rest := f.nodes, HiddenList(f.ranges);
    ShownExact(b.nodes, Hidden(f.ranges));
    ListsExact(f.ranges);
    ListsDistinct(b, keep, o, f.ranges);
    HiddenAreStations(b, keep, o, f.ranges);
    JoinDistinct(shown, rest);
    SameElements(shown + rest, b.nodes);
  }

  lemma HiddenAreStations(b: Base, keep: set<Oid>, o: Options, ranges: seq<Range>)
    requires BaseOk(b) && KeepOk(b, keep) && RangesOk(b, keep, o, ranges)
    ensures forall v :: v in Hidden(ranges) ==> v in b.nodes
  {
    forall v | v in Hidden(ranges)
      ensures v in b.nodes
    {
      HidesOnlyFoldable(b, keep, o, ranges, v);
    }
  }

  /** The edges left in place and the chains behind the summaries are together exactly the edges of the map. */
  lemma EdgesConserved(b: Base, keep: set<Oid>, o: Options, f: Folded)
    requires BaseOk(b) && KeepOk(b, keep) && FoldedOk(b, keep, o, f)
    ensures multiset(Rest(b.edges, Omitted(f.ranges)) + OmittedList(f.ranges)) == multiset(b.edges)
  {
    var rest, chains := Rest(b.edges, Omitted(f.ranges)), OmittedList(f.ranges);
    RestExact(b.edges, Omitted(f.ranges));
    EdgesDistinct(b);
    ListsExact(f.ranges);
    ListsDistinct(b, keep, o, f.ranges);
    forall e
      ensures e in chains <==> e in b.edges && e.id in Omitted(f.ranges)
    {
      OmittedExact(b, keep, o, f.ranges, e);
    }
    JoinDistinct(rest, chains);
    SameElements(rest + chains, b.edges);
  }

  /** Asking for every range in full shows the map unfolded, in its own order. */
  lemma ExpandAll(b: Base, keep: set<Oid>, o: Options, f: Folded)
    requires BaseOk(b) && KeepOk(b, keep) && FoldedOk(b, keep, o, f)
    requires forall r :: r in f.ranges ==> r.id in o.expandedHistory
    ensures f.nodes == b.nodes && f.edges == b.edges
  {
    forall k | 0 <= k < |f.ranges|
      ensures f.ranges[k].expanded
    {
      assert RangeOk(b, keep, o, f.ranges[k]) && f.ranges[k] in f.ranges;
    }
    assert Hidden(f.ranges) == {} && Omitted(f.ranges) == {};
    NoSummaries(f.ranges);
    ShowsAll(b.nodes);
    RestIsAll(b.edges);
  }

  lemma {:induction false} NoSummaries(ranges: seq<Range>)
    requires forall k :: 0 <= k < |ranges| ==> ranges[k].expanded
    ensures Summaries(ranges) == []
    decreases |ranges|
  {
    if ranges != [] {
      NoSummaries(ranges[..|ranges| - 1]);
    }
  }

  lemma {:induction false} SummariesExact(ranges: seq<Range>)
    ensures forall e :: e in Summaries(ranges) <==> exists r :: r in ranges && !r.expanded && e == Summary(r)
    decreases |ranges|
  {
    if ranges != [] {
      var n := |ranges| - 1;
      SummariesExact(ranges[..n]);
      assert ranges == ranges[..n] + [ranges[n]];
    }
  }

  // ----- reachability -----

  lemma {:induction false} ChainReaches(b: Base, keep: set<Oid>, chain: seq<Edge>, i: nat)
    requires Walk(b, keep, chain) && i < |chain|
    ensures Reaches(Pairs(b.edges), chain[0].from, chain[i].to)
  {
    StartIsKept(b, keep, chain, i);
    InPairs(b.edges, chain[i]);
    if i == 0 {
      assert IsPath(Pairs(b.edges), [chain[0].from]);
    } else {
      ChainReaches(b, keep, chain, i - 1);
    }
    ReachesStep(Pairs(b.edges), chain[0].from, chain[i].from, chain[i].to);
  }

  /** One edge of the folded map is a way through the full one. */
  lemma FoldedEdgeReaches(b: Base, keep: set<Oid>, o: Options, f: Folded, u: Oid, v: Oid)
    requires BaseOk(b) && KeepOk(b, keep) && Collapsed(b, keep, o, f) && (u, v) in Pairs(f.edges)
    ensures Reaches(Pairs(b.edges), u, v)
  {
    var e := OfPair(f.edges, u, v);
    RestExact(b.edges, Omitted(f.ranges));
    SummariesExact(f.ranges);
    if e in Rest(b.edges, Omitted(f.ranges)) {
      InPairs(b.edges, e);
      assert IsPath(Pairs(b.edges), [u, v]);
    } else {
      var r :| r in f.ranges && !r.expanded && e == Summary(r);
      SummaryReaches(b, keep, o, f.ranges, r);
    }
  }

  lemma SummaryReaches(b: Base, keep: set<Oid>, o: Options, ranges: seq<Range>, r: Range)
    requires RangesOk(b, keep, o, ranges) && r in ranges
    ensures Reaches(Pairs(b.edges), Summary(r).from, Summary(r).to)
  {
    var k :| 0 <= k < |ranges| && ranges[k] == r;
    assert RangeOk(b, keep, o, ranges[k]);
    ChainReaches(b, keep, r.chain, |r.chain| - 1);
  }

  lemma {:induction false} FoldedPathReaches(b: Base, keep: set<Oid>, o: Options, f: Folded, p: seq<Oid>)
    requires BaseOk(b) && KeepOk(b, keep) && Collapsed(b, keep, o, f) && IsPath(Pairs(f.edges), p)
    ensures Reaches(Pairs(b.edges), p[0], p[|p| - 1])
    decreases |p|
  {
    if |p| == 1 {
      assert IsPath(Pairs(b.edges), [p[0]]);
    } else {
      var n := |p| - 1;
      PathSlice(Pairs(f.edges), p, 0, n);
      FoldedPathReaches(b, keep, o, f, p[..n]);
      assert (p[n - 1], p[n - 1 + 1]) in Pairs(f.edges);
      FoldedEdgeReaches(b, keep, o, f, p[n - 1], p[n]);
      ReachesTransitive(Pairs(b.edges), p[0], p[n - 1], p[n]);
    }
  }

  /** An edge between two stations that are shown is shown. */
  lemma ShownEdge(b: Base, keep: set<Oid>, o: Options, f: Folded, e: Edge)
    requires BaseOk(b) && KeepOk(b, keep) && Collapsed(b, keep, o, f) && e in b.edges
    requires e.from !in Hidden(f.ranges) && e.to !in Hidden(f.ranges)
    ensures e in f.edges
  {
    RestExact(b.edges, Omitted(f.ranges));
    OmittedExact(b, keep, o, f.ranges, e);
    if r :| r in f.ranges && !r.expanded && e in r.chain {
      TouchesHidden(b, keep, o, f.ranges, r, e);
    }
  }

  lemma TouchesHidden(b: Base, keep: set<Oid>, o: Options, ranges: seq<Range>, r: Range, e: Edge)
    requires BaseOk(b) && KeepOk(b, keep) && RangesOk(b, keep, o, ranges) && r in ranges && !r.expanded && e in r.chain
    ensures e.from in Hidden(ranges) || e.to in Hidden(ranges)
  {
    ChainInBase(b, keep, o, ranges, r, e);
    var i :| 0 <= i < |r.chain| && r.chain[i] == e;
    if i < |r.chain| - 1 {
      assert r.members[i] in r.members && r.members[i] == e.to;
    } else {
      StartIsKept(b, keep, r.chain, i);
      assert r.members[i - 1] in r.members && r.members[i - 1] == e.from;
    }
  }

  /** A path that enters a collapsed chain and ends at a shown station runs along the whole chain. */
  lemma {:induction false} RunsAlong(b: Base, keep: set<Oid>, o: Options, ranges: seq<Range>, r: Range, p: seq<Oid>, i: nat)
    requires BaseOk(b) && KeepOk(b, keep) && RangesOk(b, keep, o, ranges) && r in ranges && !r.expanded
    requires IsPath(Pairs(b.edges), p) && |p| > 1 && p[|p| - 1] !in Hidden(ranges)
    requires RangeOk(b, keep, o, r) && p[1] == r.chain[0].to && i < |r.chain|
    ensures i + 1 < |p| && p[i + 1] == r.chain[i].to
  {
    if i > 0 {
      RunsAlong(b, keep, o, ranges, r, p, i - 1);
      assert r.members[i - 1] in r.members && r.members[i - 1] == p[i];
      assert p[i] in Hidden(ranges);
      assert (p[i], p[i + 1]) in Pairs(b.edges);
      var e := OfPair(b.edges, p[i], p[i + 1]);
      StartIsKept(b, keep, r.chain, i);
      OneWay(b, keep, e, r.chain[i]);
    }
  }

  lemma RunsToEnd(b: Base, keep: set<Oid>, o: Options, ranges: seq<Range>, r: Range, p: seq<Oid>) returns (n: nat)
    requires BaseOk(b) && KeepOk(b, keep) && RangesOk(b, keep, o, ranges) && r in ranges && !r.expanded
    requires IsPath(Pairs(b.edges), p) && |p| > 1 && p[|p| - 1] !in Hidden(ranges)
    requires RangeOk(b, keep, o, r) && p[1] == r.chain[0].to
    ensures 0 < n < |p| && p[n] == r.to
  {
    n := |r.chain|;
    RunsAlong(b, keep, o, ranges, r, p, n - 1);
  }

  /** A hidden station entered from a shown one is the first of its chain. */
  lemma EntersChain(b: Base, keep: set<Oid>, o: Options, ranges: seq<Range>, e: Edge) returns (r: Range)
    requires BaseOk(b) && KeepOk(b, keep) && RangesOk(b, keep, o, ranges) && e in b.edges
    requires e.from !in Hidden(ranges) && e.to in Hidden(ranges)
    ensures r in ranges && !r.expanded && RangeOk(b, keep, o, r) && r.chain[0] == e && r.from == e.from
  {
    r :| r in ranges && !r.expanded && e.to in r.members;
    var k :| 0 <= k < |ranges| && ranges[k] == r;
    assert RangeOk(b, keep, o, ranges[k]);
    var i := MemberEdge(b, keep, o, r, e.to);
    OneWay(b, keep, e, r.chain[i]);
    InsideIsHidden(b, keep, o, ranges, r, i);
  }

  lemma InsideIsHidden(b: Base, keep: set<Oid>, o: Options, ranges: seq<Range>, r: Range, i: nat)
    requires RangeOk(b, keep, o, r) && r in ranges && !r.expanded && i < |r.chain|
    ensures i > 0 ==> r.chain[i].from in Hidden(ranges)
  {
    if i > 0 {
      StartIsKept(b, keep, r.chain, i);
      assert r.members[i - 1] in r.members && r.members[i - 1] == r.chain[i].from;
    }
  }

  lemma SummaryShown(f: Folded, b: Base, r: Range)
    requires f.edges == Rest(b.edges, Omitted(f.ranges)) + Summaries(f.ranges) && r in f.ranges && !r.expanded
    ensures (r.from, r.to) in Pairs(f.edges)
  {
    SummariesExact(f.ranges);
    assert Summary(r) in Summaries(f.ranges);
    InPairs(f.edges, Summary(r));
  }

  lemma KeptIsShown(b: Base, keep: set<Oid>, o: Options, ranges: seq<Range>, v: Oid)
    requires BaseOk(b) && KeepOk(b, keep) && RangesOk(b, keep, o, ranges) && v in keep
    ensures v !in Hidden(ranges)
  {
    if v in Hidden(ranges) {
      HidesOnlyFoldable(b, keep, o, ranges, v);
    }
  }

  /** The first steps of a path between shown stations, as one folded edge. */
  lemma FirstFoldedStep(b: Base, keep: set<Oid>, o: Options, f: Folded, p: seq<Oid>) returns (n: nat)
    requires BaseOk(b) && KeepOk(b, keep) && Collapsed(b, keep, o, f) && IsPath(Pairs(b.edges), p) && |p| > 1
    requires p[0] !in Hidden(f.ranges) && p[|p| - 1] !in Hidden(f.ranges)
    ensures 0 < n < |p| && (p[0], p[n]) in Pairs(f.edges) && p[n] !in Hidden(f.ranges)
  {
    assert (p[0], p[0 + 1]) in Pairs(b.edges);
    var e := OfPair(b.edges, p[0], p[1]);
    if p[1] !in Hidden(f.ranges) {
      ShownEdge(b, keep, o, f, e);
      InPairs(f.edges, e);
      n := 1;
    } else {
      n := StepOverChain(b, keep, o, f, p, e);
    }
  }

  lemma StepOverChain(b: Base, keep: set<Oid>, o: Options, f: Folded, p: seq<Oid>, e: Edge) returns (n: nat)
    requires BaseOk(b) && KeepOk(b, keep) && Collapsed(b, keep, o, f) && IsPath(Pairs(b.edges), p) && |p| > 1
    requires e in b.edges && e.from == p[0] && e.to == p[1]
    requires p[0] !in Hidden(f.ranges) && p[1] in Hidden(f.ranges) && p[|p| - 1] !in Hidden(f.ranges)
    ensures 0 < n < |p| && (p[0], p[n]) in Pairs(f.edges) && p[n] !in Hidden(f.ranges)
  {
    var r := EntersChain(b, keep, o, f.ranges, e);
    n := RunsToEnd(b, keep, o, f.ranges, r, p);
    SummaryShown(f, b, r);
    SummaryEndsKept(b, keep, o, f.ranges, r);
    KeptIsShown(b, keep, o, f.ranges, r.to);
  }

  /** The next shown station of the path that one folded edge leads to. */
  lemma NextShown(b: Base, keep: set<Oid>, o: Options, f: Folded, p: seq<Oid>, i: nat) returns (j: nat)
    requires BaseOk(b) && KeepOk(b, keep) && Collapsed(b, keep, o, f) && IsPath(Pairs(b.edges), p) && i + 1 < |p|
    requires p[i] !in Hidden(f.ranges) && p[|p| - 1] !in Hidden(f.ranges)
    ensures i < j < |p| && (p[i], p[j]) in Pairs(f.edges) && p[j] !in Hidden(f.ranges)
  {
    PathSlice(Pairs(b.edges), p, i, |p|);
    var n := FirstFoldedStep(b, keep, o, f, p[i..]);
    j := i + n;
  }

  lemma {:induction false} PathReachesFolded(b: Base, keep: set<Oid>, o: Options, f: Folded, p: seq<Oid>, i: nat)
    requires BaseOk(b) && KeepOk(b, keep) && Collapsed(b, keep, o, f) && IsPath(Pairs(b.edges), p) && i < |p|
    requires p[i] !in Hidden(f.ranges) && p[|p| - 1] !in Hidden(f.ranges)
    ensures Reaches(Pairs(f.edges), p[i], p[|p| - 1])
    decreases |p| - i
  {
    if i + 1 == |p| {
      assert IsPath(Pairs(f.edges), [p[i]]);
    } else {
      var j := NextShown(b, keep, o, f, p, i);
      PathReachesFolded(b, keep, o, f, p, j);
      StepReaches(Pairs(f.edges), p[i], p[j], p[|p| - 1]);
    }
  }

  /** Folding changes no ancestry between stations that are shown. */
  lemma ReachabilityKept(b: Base, keep: set<Oid>, o: Options, f: Folded, u: Oid, v: Oid)
    requires BaseOk(b) && KeepOk(b, keep) && FoldedOk(b, keep, o, f) && u in f.nodes && v in f.nodes
    ensures Reaches(Pairs(f.edges), u, v) <==> Reaches(Pairs(b.edges), u, v)
  {
    ShownExact(b.nodes, Hidden(f.ranges));
    if Reaches(Pairs(f.edges), u, v) {
      var p :| IsPath(Pairs(f.edges), p) && p[0] == u && p[|p| - 1] == v;
      FoldedPathReaches(b, keep, o, f, p);
    }
    if Reaches(Pairs(b.edges), u, v) {
      var p :| IsPath(Pairs(b.edges), p) && p[0] == u && p[|p| - 1] == v;
      PathReachesFolded(b, keep, o, f, p, 0);
    }
  }

  /** Every shown edge joins shown stations. */
  lemma FoldedEdgesJoinShown(b: Base, keep: set<Oid>, o: Options, f: Folded, e: Edge)
    requires BaseOk(b) && KeepOk(b, keep) && FoldedOk(b, keep, o, f) && e in f.edges
    ensures e.from in f.nodes && e.to in f.nodes
  {
    RestExact(b.edges, Omitted(f.ranges));
    SummariesExact(f.ranges);
    ShownExact(b.nodes, Hidden(f.ranges));
    if e in Rest(b.edges, Omitted(f.ranges)) {
      OmittedExact(b, keep, o, f.ranges, e);
      EdgeClearOfHidden(b, keep, o, f.ranges, e);
    } else {
      var r :| r in f.ranges && !r.expanded && e == Summary(r);
      SummaryEndsKept(b, keep, o, f.ranges, r);
      KeptIsShown(b, keep, o, f.ranges, r.from);
      KeptIsShown(b, keep, o, f.ranges, r.to);
    }
  }

  lemma SummaryEndsKept(b: Base, keep: set<Oid>, o: Options, ranges: seq<Range>, r: Range)
    requires BaseOk(b) && RangesOk(b, keep, o, ranges) && r in ranges
    ensures r.from in keep && r.to in keep && r.from in b.nodes && r.to in b.nodes
  {
    var k :| 0 <= k < |ranges| && ranges[k] == r;
    assert RangeOk(b, keep, o, ranges[k]);
    StartIsKept(b, keep, r.chain, 0);
    StartIsKept(b, keep, r.chain, |r.chain| - 1);
  }

  /** Both edges at a hidden station belong to its chain. */
  lemma EdgeClearOfHidden(b: Base, keep: set<Oid>, o: Options, ranges: seq<Range>, e: Edge)
    requires BaseOk(b) && KeepOk(b, keep) && RangesOk(b, keep, o, ranges) && e in b.edges
    requires forall r :: r in ranges && !r.expanded ==> e !in r.chain
    ensures e.from !in Hidden(ranges) && e.to !in Hidden(ranges)
  {
    if e.from in Hidden(ranges) {
      HiddenEdges(b, keep, o, ranges, e.from, e);
    }
    if e.to in Hidden(ranges) {
      HiddenEdges(b, keep, o, ranges, e.to, e);
    }
  }

  lemma HiddenEdges(b: Base, keep: set<Oid>, o: Options, ranges: seq<Range>, v: Oid, e: Edge)
    requires BaseOk(b) && KeepOk(b, keep) && RangesOk(b, keep, o, ranges) && v in Hidden(ranges)
    requires e in b.edges && (e.from == v || e.to == v)
    ensures exists r :: r in ranges && !r.expanded && e in r.chain
  {
    var r :| r in ranges && !r.expanded && v in r.members;
    var k :| 0 <= k < |ranges| && ranges[k] == r;
    assert RangeOk(b, keep, o, ranges[k]);
    var i := MemberEdge(b, keep, o, r, v);
    OneWay(b, keep, e, r.chain[i]);
    OneWay(b, keep, e, r.chain[i + 1]);
    assert r.chain[i] in r.chain && r.chain[i + 1] in r.chain;
  }

  /** Every station that is not kept lies on a chain from a kept one. */
  lemma {:induction false} OnSomeWalk(b: Base, keep: set<Oid>, v: Oid) returns (c: seq<Edge>)
    requires BaseOk(b) && KeepOk(b, keep) && v in b.nodes && v !in keep
    ensures Walk(b, keep, c) && c[|c| - 1].to == v
    decreases b.ranks[v]
  {
    IncomingExact(b.edges, v);
    var e := Incoming(b.edges, v)[0];
    assert e in Incoming(b.edges, v);
    if e.from in keep {
      c := [e];
      assert Joined(b, keep, c, 0);
    } else {
      var d := OnSomeWalk(b, keep, e.from);
      WalkOn(b, keep, d, e);
      c := d + [e];
    }
  }

  /** A station is hidden exactly when it is not kept and its whole chain is long enough and not asked for in full. */
  lemma HiddenExact(b: Base, keep: set<Oid>, o: Options, f: Folded, v: Oid)
    requires BaseOk(b) && KeepOk(b, keep) && FoldedOk(b, keep, o, f) && v in b.nodes
    ensures v in Hidden(f.ranges) <==>
            v !in keep && exists c :: Chain(b, keep, c) && v in Members(c) && |Members(c)| >= MIN_MEMBERS && !RangeOf(o, c).expanded
  {
    if v in Hidden(f.ranges) {
      var r :| r in f.ranges && !r.expanded && v in r.members;
      var k :| 0 <= k < |f.ranges| && f.ranges[k] == r;
      assert RangeOk(b, keep, o, f.ranges[k]);
      var i := MemberEdge(b, keep, o, r, v);
      assert v in Members(r.chain);
    }
    if v !in keep {
      if c :| Chain(b, keep, c) && v in Members(c) && |Members(c)| >= MIN_MEMBERS && !RangeOf(o, c).expanded {
        LongChainIsRange(b, keep, o, f, c);
        assert RangeOf(o, c) in f.ranges && v in RangeOf(o, c).members;
      }
    }
  }

  lemma LongChainIsRange(b: Base, keep: set<Oid>, o: Options, f: Folded, c: seq<Edge>)
    requires BaseOk(b) && KeepOk(b, keep) && FoldedOk(b, keep, o, f) && Chain(b, keep, c) && |c| > MIN_MEMBERS
    ensures RangeOf(o, c) in f.ranges
  {
    StartIsKept(b, keep, c, 0);
    assert Followed(b, keep, f.ranges, c[0]);
    FollowedLong(b, keep, o, f.ranges, c);
  }

  lemma FollowedLong(b: Base, keep: set<Oid>, o: Options, ranges: seq<Range>, c: seq<Edge>)
    requires BaseOk(b) && KeepOk(b, keep) && RangesOk(b, keep, o, ranges) && Chain(b, keep, c) && |c| > MIN_MEMBERS
    requires Followed(b, keep, ranges, c[0])
    ensures RangeOf(o, c) in ranges
  {
    var d :| Chain(b, keep, d) && d[0] == c[0] && (|d| <= MIN_MEMBERS || exists r :: r in ranges && r.chain == d);
    ChainDetermined(b, keep, c, d);
    var r :| r in ranges && r.chain == d;
    var k :| 0 <= k < |ranges| && ranges[k] == r;
    assert RangeOk(b, keep, o, ranges[k]);
  }
}
