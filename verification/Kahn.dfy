/**
 * Kahn's ordering, as the map's validator uses it to find cycles and as its layout uses it to rank
 * endpoints (assets/metro-core.js). The source fixes which ready node comes next; here any ready node may.
 */
module Kahn {
  import opened Prelude
  import opened Topology

  /** The children of `u`, once per arc. */
  function Targets(arcs: Arcs, u: Oid): seq<Oid> {
    if arcs == [] then []
    else
      var n := |arcs| - 1;
      if arcs[n].0 == u then Targets(arcs[..n], u) + [arcs[n].1] else Targets(arcs[..n], u)
  }

  /** How many arcs into `v` start outside `done`. */
  ghost function Waiting(arcs: Arcs, done: set<Oid>, v: Oid): nat {
    if arcs == [] then 0
    else
      var n := |arcs| - 1;
      Waiting(arcs[..n], done, v) + if arcs[n].1 == v && arcs[n].0 !in done then 1 else 0
  }

  ghost function Count(s: seq<Oid>, v: Oid): nat {
    if s == [] then 0 else Count(s[..|s| - 1], v) + if s[|s| - 1] == v then 1 else 0
  }

  lemma CountSnoc(s: seq<Oid>, x: Oid, v: Oid)
    ensures Count(s + [x], v) == Count(s, v) + if x == v then 1 else 0
  {
    assert (s + [x])[..|s|] == s;
  }

  lemma {:induction false} TargetsExact(arcs: Arcs, u: Oid, v: Oid)
    ensures v in Targets(arcs, u) <==> (u, v) in arcs
  {
    if arcs != [] {
      var n := |arcs| - 1;
      TargetsExact(arcs[..n], u, v);
      assert arcs == arcs[..n] + [arcs[n]];
    }
  }

  lemma {:induction false} WaitingZero(arcs: Arcs, done: set<Oid>, v: Oid)
    ensures Waiting(arcs, done, v) == 0 <==> forall u :: (u, v) in arcs ==> u in done
  {
    if arcs != [] {
      var n := |arcs| - 1;
      WaitingZero(arcs[..n], done, v);
      assert arcs == arcs[..n] + [arcs[n]];
      assert (arcs[n].0, arcs[n].1) in arcs;
    }
  }

  /** Finishing `u` releases exactly the arcs from `u`. */
  lemma {:induction false} WaitingAfter(arcs: Arcs, done: set<Oid>, u: Oid, v: Oid)
    requires u !in done
    ensures Waiting(arcs, done, v) == Waiting(arcs, done + {u}, v) + Count(Targets(arcs, u), v)
  {
    if arcs != [] {
      var n := |arcs| - 1;
      WaitingAfter(arcs[..n], done, u, v);
      if arcs[n].0 == u {
        CountSnoc(Targets(arcs[..n], u), arcs[n].1, v);
      }
    }
  }

  ghost predicate ParentsFirst(arcs: Arcs, nodes: set<Oid>, order: seq<Oid>) {
    && Distinct(order) && (forall v :: v in order ==> v in nodes)
    && (forall i, u :: 0 <= i < |order| && (u, order[i]) in arcs ==> u in order[..i])
  }

  lemma ParentsFirstSnoc(arcs: Arcs, nodes: set<Oid>, order: seq<Oid>, id: Oid)
    requires ParentsFirst(arcs, nodes, order) && id in nodes && id !in order && forall u :: (u, id) in arcs ==> u in order
    ensures ParentsFirst(arcs, nodes, order + [id]) && Elements(order + [id]) == Elements(order) + {id}
  {
    var more := order + [id];
    forall i, u | 0 <= i < |more| && (u, more[i]) in arcs
      ensures u in more[..i]
    {
      assert more[..i] == order[..i];
      assert i < |order| ==> more[i] == order[i];
    }
  }

  /** `order` lists nodes once, parents first, and a node it leaves out has a parent it leaves out. */
  ghost predicate Ordering(arcs: Arcs, nodes: set<Oid>, order: seq<Oid>) {
    && ParentsFirst(arcs, nodes, order)
    && Stuck(arcs, nodes - Elements(order))
  }

  /** The rank of an ordered node: one more than its highest parent, zero without parents. */
  ghost predicate RankAt(arcs: Arcs, ranks: map<Oid, nat>, v: Oid) {
    && v in ranks
    && (forall u :: (u, v) in arcs ==> u in ranks && ranks[u] < ranks[v])
    && (ranks[v] > 0 ==> exists u :: (u, v) in arcs && u in ranks && ranks[u] == ranks[v] - 1)
  }

  /** Counts the arcs into every node and lists the arcs out of it. */
  /** How many arcs end at each node, and where those that begin there lead. */
  ghost predicate CountsOf(arcs: Arcs, nodes: set<Oid>, indegree: map<Oid, nat>, children: map<Oid, seq<Oid>>)
    requires indegree.Keys == nodes && children.Keys == nodes
  {
    forall v :: v in nodes ==> indegree[v] == Waiting(arcs, {}, v) && children[v] == Targets(arcs, v)
  }

  lemma CountOneMore(arcs: Arcs, a: (Oid, Oid), nodes: set<Oid>, indegree: map<Oid, nat>, children: map<Oid, seq<Oid>>)
    requires indegree.Keys == nodes && children.Keys == nodes && a.0 in nodes && a.1 in nodes
    requires CountsOf(arcs, nodes, indegree, children)
    ensures CountsOf(arcs + [a], nodes, indegree[a.1 := indegree[a.1] + 1], children[a.0 := children[a.0] + [a.1]])
  {
    assert (arcs + [a])[..|arcs|] == arcs;
  }

  method CountArcs(nodes: set<Oid>, arcs: Arcs) returns (indegree: map<Oid, nat>, children: map<Oid, seq<Oid>>)
    requires Within(arcs, nodes)
    ensures indegree.Keys == nodes && children.Keys == nodes
    ensures CountsOf(arcs, nodes, indegree, children)
  {
    indegree := map v | v in nodes :: 0;
    children := map v | v in nodes :: [];
    for i := 0 to |arcs|
      invariant indegree.Keys == nodes && children.Keys == nodes
      invariant CountsOf(arcs[..i], nodes, indegree, children)
    {
      var (u, v) := arcs[i];
      assert arcs[i] in arcs;
      TakeMore(arcs, i);
      CountOneMore(arcs[..i], arcs[i], nodes, indegree, children);
      children := children[u := children[u] + [v]];
      indegree := indegree[v := indegree[v] + 1];
    }
    assert arcs[..|arcs|] == arcs;
  }

  /**
   * What holds while the children of the last ordered node are released: `seen` of them have been
   * counted off already.
   */
  ghost predicate Counted(arcs: Arcs, nodes: set<Oid>, done: set<Oid>, seen: seq<Oid>,
                          pending: set<Oid>, indegree: map<Oid, nat>, order: seq<Oid>)
  {
    && indegree.Keys == nodes && pending <= nodes
    && (forall v :: v in nodes ==> indegree[v] + Count(seen, v) == Waiting(arcs, done, v))
    && (forall v :: v in nodes ==> (indegree[v] == 0 <==> v in order || v in pending))
    && (forall v :: v in pending ==> v !in order)
  }

  /** Ranks so far: as high as the ordered parents demand, and no higher. */
  ghost predicate Ranked(arcs: Arcs, nodes: set<Oid>, done: set<Oid>, ranks: map<Oid, nat>) {
    && ranks.Keys == nodes
    && (forall u, v :: (u, v) in arcs && u in done && u in nodes && v in nodes ==> ranks[u] < ranks[v])
    && (forall v :: v in nodes && ranks[v] > 0 ==> Supported(arcs, nodes, done, ranks, v))
  }

  ghost predicate Supported(arcs: Arcs, nodes: set<Oid>, done: set<Oid>, ranks: map<Oid, nat>, v: Oid)
    requires v in ranks && ranks.Keys == nodes
  {
    exists u :: (u, v) in arcs && u in done && u in nodes && ranks[u] + 1 == ranks[v]
  }

  lemma {:induction false} CountPrefix(s: seq<Oid>, j: nat, v: Oid)
    requires j <= |s|
    ensures Count(s[..j], v) <= Count(s, v)
    decreases |s|
  {
    if j < |s| {
      assert s[..|s| - 1][..j] == s[..j];
      CountPrefix(s[..|s| - 1], j, v);
    } else {
      assert s[..j] == s;
    }
  }

  /** The next child still waits, so it is neither ordered nor ready. */
  lemma ChildWaits(arcs: Arcs, nodes: set<Oid>, done: set<Oid>, id: Oid, j: nat,
                   pending: set<Oid>, indegree: map<Oid, nat>, order: seq<Oid>)
    requires Within(arcs, nodes) && id !in done && j < |Targets(arcs, id)|
    requires Counted(arcs, nodes, done, Targets(arcs, id)[..j], pending, indegree, order)
    ensures var child := Targets(arcs, id)[j];
            child in nodes && indegree[child] > 0 && child !in order && child !in pending && (id, child) in arcs
  {
    var cs := Targets(arcs, id);
    var child := cs[j];
    TargetsExact(arcs, id, child);
    WaitingAfter(arcs, done, id, child);
    CountPrefix(cs, j + 1, child);
    assert cs[..j + 1] == cs[..j] + [child];
    CountSnoc(cs[..j], child, child);
  }

  lemma CountOff(arcs: Arcs, nodes: set<Oid>, done: set<Oid>, seen: seq<Oid>, child: Oid,
                 pending: set<Oid>, indegree: map<Oid, nat>, order: seq<Oid>)
    requires Counted(arcs, nodes, done, seen, pending, indegree, order)
    requires child in nodes && indegree[child] > 0
    ensures var less := indegree[child := indegree[child] - 1];
            Counted(arcs, nodes, done, seen + [child], if less[child] == 0 then pending + {child} else pending, less, order)
  {
    forall v
      ensures Count(seen + [child], v) == Count(seen, v) + if child == v then 1 else 0
    {
      CountSnoc(seen, child, v);
    }
  }

  /** Ranks while the children of `id` are being raised: `done` is settled, `id` already lends support. */
  ghost predicate Raising(arcs: Arcs, nodes: set<Oid>, done: set<Oid>, id: Oid, ranks: map<Oid, nat>) {
    && ranks.Keys == nodes
    && (forall u, v :: (u, v) in arcs && u in done && u in nodes && v in nodes ==> ranks[u] < ranks[v])
    && (forall v :: v in nodes && ranks[v] > 0 ==> Supported(arcs, nodes, done + {id}, ranks, v))
  }

  function Raise(ranks: map<Oid, nat>, id: Oid, child: Oid): map<Oid, nat>
    requires id in ranks && child in ranks
  {
    ranks[child := if ranks[child] > ranks[id] + 1 then ranks[child] else ranks[id] + 1]
  }

  lemma RaiseChild(arcs: Arcs, nodes: set<Oid>, done: set<Oid>, ranks: map<Oid, nat>, id: Oid, child: Oid)
    requires Within(arcs, nodes) && id in nodes && child in nodes && (id, child) in arcs
    requires Raising(arcs, nodes, done, id, ranks)
    requires child !in done && child != id
    ensures Raising(arcs, nodes, done, id, Raise(ranks, id, child))
  {
    var raised := Raise(ranks, id, child);
    forall v | v in nodes && raised[v] > 0
      ensures Supported(arcs, nodes, done + {id}, raised, v)
    {
      if v == child && raised[v] == ranks[id] + 1 {
        assert (id, v) in arcs && raised[id] + 1 == raised[v];
      } else {
        assert Supported(arcs, nodes, done + {id}, ranks, v);
        var u :| (u, v) in arcs && u in done + {id} && u in nodes && ranks[u] + 1 == ranks[v];
        assert raised[u] + 1 == raised[v];
      }
    }
  }

  ghost predicate AllHigher(ranks: map<Oid, nat>, id: Oid, seen: seq<Oid>) {
    id in ranks && forall v :: v in seen ==> v in ranks && ranks[v] > ranks[id]
  }

  lemma OneHigher(ranks: map<Oid, nat>, id: Oid, seen: seq<Oid>, child: Oid)
    requires AllHigher(ranks, id, seen) && child in ranks && child != id
    ensures AllHigher(Raise(ranks, id, child), id, seen + [child])
  {
  }

  /** Counts the arcs out of `id` off its children, raises their ranks and makes the free ones ready. */
  method Release(arcs: Arcs, nodes: set<Oid>, ghost done: set<Oid>, ghost order: seq<Oid>, id: Oid, children: seq<Oid>,
                 pending0: set<Oid>, indegree0: map<Oid, nat>, ranks0: map<Oid, nat>)
    returns (pending: set<Oid>, indegree: map<Oid, nat>, ranks: map<Oid, nat>)
    requires Within(arcs, nodes) && id in nodes && id !in done && id in order && children == Targets(arcs, id)
    requires forall v :: v in done ==> v in order
    requires Counted(arcs, nodes, done, [], pending0, indegree0, order) && Ranked(arcs, nodes, done, ranks0)
    ensures Counted(arcs, nodes, done + {id}, [], pending, indegree, order)
    ensures Ranked(arcs, nodes, done + {id}, ranks)
  {
    pending, indegree, ranks := pending0, indegree0, ranks0;
    SupportWider(arcs, nodes, done, id, ranks);
    for j := 0 to |children|
      invariant Counted(arcs, nodes, done, children[..j], pending, indegree, order)
      invariant Raising(arcs, nodes, done, id, ranks)
      invariant AllHigher(ranks, id, children[..j])
    {
      var child := children[j];
      TakeMore(children, j);
      ChildWaits(arcs, nodes, done, id, j, pending, indegree, order);
      RaiseChild(arcs, nodes, done, ranks, id, child);
      OneHigher(ranks, id, children[..j], child);
      CountOff(arcs, nodes, done, children[..j], child, pending, indegree, order);
      ranks := Raise(ranks, id, child);
      indegree := indegree[child := indegree[child] - 1];
      if indegree[child] == 0 {
        pending := pending + {child};
      }
    }
    assert children[..|children|] == children;
    Released(arcs, nodes, done, id, pending, indegree, order);
    RaisedAll(arcs, nodes, done, id, ranks);
  }

  lemma RaisedAll(arcs: Arcs, nodes: set<Oid>, done: set<Oid>, id: Oid, ranks: map<Oid, nat>)
    requires Within(arcs, nodes) && id in nodes && Raising(arcs, nodes, done, id, ranks)
    requires AllHigher(ranks, id, Targets(arcs, id))
    ensures Ranked(arcs, nodes, done + {id}, ranks)
  {
    forall v | (id, v) in arcs
      ensures v in nodes && ranks[id] < ranks[v]
    {
      TargetsExact(arcs, id, v);
    }
  }

  lemma SupportWider(arcs: Arcs, nodes: set<Oid>, done: set<Oid>, id: Oid, ranks: map<Oid, nat>)
    requires Ranked(arcs, nodes, done, ranks)
    ensures Raising(arcs, nodes, done, id, ranks)
  {
    forall v | v in nodes && ranks[v] > 0
      ensures Supported(arcs, nodes, done + {id}, ranks, v)
    {
      assert Supported(arcs, nodes, done, ranks, v);
    }
  }

  lemma Released(arcs: Arcs, nodes: set<Oid>, done: set<Oid>, id: Oid,
                 pending: set<Oid>, indegree: map<Oid, nat>, order: seq<Oid>)
    requires id !in done && Counted(arcs, nodes, done, Targets(arcs, id), pending, indegree, order)
    ensures Counted(arcs, nodes, done + {id}, [], pending, indegree, order)
  {
    forall v | v in nodes
      ensures indegree[v] + Count([], v) == Waiting(arcs, done + {id}, v)
    {
      WaitingAfter(arcs, done, id, v);
    }
  }

  /** The ordering loop. */
  method Order(nodes: set<Oid>, arcs: Arcs) returns (order: seq<Oid>, ranks: map<Oid, nat>)
    requires Within(arcs, nodes)
    ensures Ordering(arcs, nodes, order)
    ensures ranks.Keys == nodes && forall v :: v in order ==> RankAt(arcs, ranks, v)
  {
    var indegree, children := CountArcs(nodes, arcs);
    ranks := map v | v in nodes :: 0;
    var pending := set v | v in nodes && indegree[v] == 0;
    order := [];
    NothingOrdered(arcs, nodes, pending, indegree, ranks);
    while pending != {}
      invariant Counted(arcs, nodes, Elements(order), [], pending, indegree, order)
      invariant Ranked(arcs, nodes, Elements(order), ranks)
      invariant ParentsFirst(arcs, nodes, order)
      decreases nodes - Elements(order)
    {
      var id :| id in pending;
      ghost var done := Elements(order);
      Ready(arcs, nodes, order, id, pending, indegree);
      ParentsFirstSnoc(arcs, nodes, order, id);
      pending := pending - {id};
      order := order + [id];
      pending, indegree, ranks := Release(arcs, nodes, done, order, id, children[id], pending, indegree, ranks);
    }
    LeftWaiting(arcs, nodes, order, indegree);
    forall v | v in order
      ensures RankAt(arcs, ranks, v)
    {
      RankSettled(arcs, nodes, order, ranks, v);
    }
  }

  lemma NothingOrdered(arcs: Arcs, nodes: set<Oid>, pending: set<Oid>, indegree: map<Oid, nat>, ranks: map<Oid, nat>)
    requires indegree.Keys == nodes && forall v :: v in nodes ==> indegree[v] == Waiting(arcs, {}, v)
    requires pending == (set v | v in nodes && indegree[v] == 0) && ranks.Keys == nodes && forall v :: v in nodes ==> ranks[v] == 0
    ensures Counted(arcs, nodes, Elements([]), [], pending, indegree, []) && Ranked(arcs, nodes, Elements([]), ranks)
    ensures ParentsFirst(arcs, nodes, [])
  {
    assert Elements<Oid>([]) == {};
  }

  lemma Ready(arcs: Arcs, nodes: set<Oid>, order: seq<Oid>, id: Oid, pending: set<Oid>, indegree: map<Oid, nat>)
    requires Counted(arcs, nodes, Elements(order), [], pending, indegree, order) && id in pending
    ensures id in nodes && id !in order && forall u :: (u, id) in arcs ==> u in order
  {
    WaitingZero(arcs, Elements(order), id);
    assert Count([], id) == 0;
  }

  lemma LeftWaiting(arcs: Arcs, nodes: set<Oid>, order: seq<Oid>, indegree: map<Oid, nat>)
    requires Within(arcs, nodes) && Counted(arcs, nodes, Elements(order), [], {}, indegree, order)
    ensures Stuck(arcs, nodes - Elements(order))
  {
    forall v | v in nodes - Elements(order)
      ensures HasParentIn(arcs, nodes - Elements(order), v)
    {
      WaitingZero(arcs, Elements(order), v);
      assert Count([], v) == 0;
      var u :| (u, v) in arcs && u !in Elements(order);
      assert (u, v).0 in nodes;
    }
  }

  lemma RankSettled(arcs: Arcs, nodes: set<Oid>, order: seq<Oid>, ranks: map<Oid, nat>, v: Oid)
    requires Within(arcs, nodes) && Ranked(arcs, nodes, Elements(order), ranks) && v in order && v in nodes
    requires ParentsFirst(arcs, nodes, order)
    ensures RankAt(arcs, ranks, v)
  {
    var i :| 0 <= i < |order| && order[i] == v;
    forall u | (u, v) in arcs
      ensures u in ranks && ranks[u] < ranks[v]
    {
      assert u in order[..i] && (u, v).0 in nodes;
      assert u in Elements(order);
    }
    if ranks[v] > 0 {
      assert Supported(arcs, nodes, Elements(order), ranks, v);
      var u :| (u, v) in arcs && u in Elements(order) && u in nodes && ranks[u] + 1 == ranks[v];
      assert u in ranks && ranks[u] == ranks[v] - 1;
    }
  }

  // ----- what the ordering means -----

  /** Positions grow along every path whose end is ordered. */
  lemma {:induction false} PathGoesForward(arcs: Arcs, nodes: set<Oid>, order: seq<Oid>, p: seq<Oid>, j: nat)
    returns (i: nat)
    requires ParentsFirst(arcs, nodes, order) && IsPath(arcs, p)
    requires j < |order| && order[j] == p[|p| - 1]
    ensures i <= j && order[i] == p[0] && (|p| > 1 ==> i < j)
    decreases |p|
  {
    if |p| == 1 {
      i := j;
    } else {
      var n := |p| - 1;
      assert (p[n - 1], p[n - 1 + 1]) in arcs;
      assert p[n - 1] in order[..j];
      var k :| 0 <= k < j && order[..j][k] == p[n - 1];
      PathSlice(arcs, p, 0, n);
      i := PathGoesForward(arcs, nodes, order, p[..n], k);
    }
  }

  /** The ordering is complete exactly when the arcs have no cycle. */
  lemma CompleteIffAcyclic(arcs: Arcs, nodes: set<Oid>, order: seq<Oid>)
    requires Within(arcs, nodes) && Ordering(arcs, nodes, order)
    ensures |order| == |nodes| <==> !HasCycle(arcs)
    ensures |order| == |nodes| <==> forall v :: v in nodes ==> v in order
  {
    var left := nodes - Elements(order);
    if left == {} {
      AllOrdered(nodes, order);
      CycleIsOrdered(arcs, nodes, order);
    } else {
      SomeLeft(arcs, nodes, order, left);
    }
  }

  lemma SomeLeft(arcs: Arcs, nodes: set<Oid>, order: seq<Oid>, left: set<Oid>)
    requires Ordering(arcs, nodes, order) && left == nodes - Elements(order) && left != {}
    ensures |order| != |nodes| && HasCycle(arcs) && exists v :: v in nodes && v !in order
  {
    StuckMeansCycle(arcs, left);
    DistinctSize(order);
    assert nodes == Elements(order) + left;
    var v :| v in left;
    assert v in nodes && v !in order;
  }

  lemma AllOrdered(nodes: set<Oid>, order: seq<Oid>)
    requires Distinct(order) && nodes - Elements(order) == {} && forall v :: v in order ==> v in nodes
    ensures |order| == |nodes| && forall v :: v in nodes ==> v in order
  {
    forall v | v in nodes
      ensures v in Elements(order)
    {
      assert v !in nodes - Elements(order);
    }
    DistinctSize(order);
    assert Elements(order) == nodes;
  }

  lemma CycleIsOrdered(arcs: Arcs, nodes: set<Oid>, order: seq<Oid>)
    requires Within(arcs, nodes) && ParentsFirst(arcs, nodes, order) && forall v :: v in nodes ==> v in order
    ensures !HasCycle(arcs)
  {
    forall p | IsPath(arcs, p) && |p| > 1
      ensures p[0] != p[|p| - 1]
    {
      var n := |p| - 1;
      assert (p[n - 1], p[n - 1 + 1]) in arcs;
      assert (p[n - 1], p[n]).1 in nodes;
      var j :| 0 <= j < |order| && order[j] == p[n];
      var i := PathGoesForward(arcs, nodes, order, p, j);
    }
  }

  /** Every node is ranked. */
  ghost predicate AllRanked(arcs: Arcs, nodes: set<Oid>, ranks: map<Oid, nat>) {
    ranks.Keys == nodes && forall v :: v in nodes ==> RankAt(arcs, ranks, v)
  }

  /** No path into a node is longer than its rank. */
  lemma {:induction false} RankBoundsPaths(arcs: Arcs, nodes: set<Oid>, ranks: map<Oid, nat>, p: seq<Oid>)
    requires Within(arcs, nodes) && AllRanked(arcs, nodes, ranks) && IsPath(arcs, p) && p[|p| - 1] in nodes
    ensures |p| <= ranks[p[|p| - 1]] + 1
    decreases |p|
  {
    if |p| > 1 {
      var n := |p| - 1;
      assert (p[n - 1], p[n - 1 + 1]) in arcs;
      assert (p[n - 1], p[n]).0 in nodes;
      assert RankAt(arcs, ranks, p[n]);
      PathSlice(arcs, p, 0, n);
      RankBoundsPaths(arcs, nodes, ranks, p[..n]);
    }
  }

  /** Some path into a node is as long as its rank, and it starts where no arc ends. */
  lemma {:induction false} RankIsAttained(arcs: Arcs, nodes: set<Oid>, ranks: map<Oid, nat>, v: Oid) returns (p: seq<Oid>)
    requires Within(arcs, nodes) && AllRanked(arcs, nodes, ranks) && v in nodes
    ensures IsPath(arcs, p) && p[|p| - 1] == v && |p| == ranks[v] + 1
    ensures forall u :: (u, p[0]) !in arcs
    decreases ranks[v]
  {
    assert RankAt(arcs, ranks, v);
    if ranks[v] == 0 {
      p := [v];
    } else {
      var u :| (u, v) in arcs && u in ranks && ranks[u] == ranks[v] - 1;
      var q := RankIsAttained(arcs, nodes, ranks, u);
      PathConcat(arcs, q, [v]);
      p := q + [v];
    }
  }

  /** The rank of a node is the length of the longest path that ends there. */
  lemma RankIsLongestPath(arcs: Arcs, nodes: set<Oid>, ranks: map<Oid, nat>, v: Oid)
    requires Within(arcs, nodes) && AllRanked(arcs, nodes, ranks) && v in nodes
    ensures exists p :: IsPath(arcs, p) && p[|p| - 1] == v && |p| - 1 == ranks[v]
    ensures forall p :: IsPath(arcs, p) && p[|p| - 1] == v ==> |p| - 1 <= ranks[v]
  {
    var p := RankIsAttained(arcs, nodes, ranks, v);
    forall q | IsPath(arcs, q) && q[|q| - 1] == v
      ensures |q| - 1 <= ranks[v]
    {
      RankBoundsPaths(arcs, nodes, ranks, q);
    }
  }

  /** The ordering loop ranks every endpoint of an acyclic graph. */
  method RankAll(nodes: set<Oid>, arcs: Arcs) returns (order: seq<Oid>, ranks: map<Oid, nat>)
    requires Within(arcs, nodes) && !HasCycle(arcs)
    ensures ParentsFirst(arcs, nodes, order) && Elements(order) == nodes
    ensures AllRanked(arcs, nodes, ranks)
  {
    order, ranks := Order(nodes, arcs);
    CompleteIffAcyclic(arcs, nodes, order);
  }
}
