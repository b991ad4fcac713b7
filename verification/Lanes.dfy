/** First-parent lanes: every endpoint lies on exactly one, and a lane follows first parents (assets/metro-core.js). */
module Lanes {
  import opened Prelude
  import opened Topology

  type Firsts = map<Oid, Oid>

  ghost predicate Closed(nodes: set<Oid>, firsts: Firsts) {
    forall v :: v in firsts ==> v in nodes && firsts[v] in nodes
  }

  /** Each node of a lane is the first parent of the next. */
  ghost predicate FollowsFirsts(firsts: Firsts, lane: seq<Oid>) {
    forall i :: 0 < i < |lane| ==> lane[i] in firsts && firsts[lane[i]] == lane[i - 1]
  }

  ghost predicate OneLane(laneOf: map<Oid, nat>, lanes: seq<seq<Oid>>, k: nat)
    requires k < |lanes|
  {
    && lanes[k] != [] && Distinct(lanes[k])
    && forall i :: 0 <= i < |lanes[k]| ==> lanes[k][i] in laneOf && laneOf[lanes[k][i]] == k
  }

  ghost predicate OnItsLane(laneOf: map<Oid, nat>, lanes: seq<seq<Oid>>, v: Oid)
    requires v in laneOf
  {
    laneOf[v] < |lanes| && v in lanes[laneOf[v]]
  }

  /** Lanes so far: they partition the assigned nodes, follow first parents, and stop only at an assigned node. */
  ghost predicate LanesOk(nodes: set<Oid>, firsts: Firsts, lanes: seq<seq<Oid>>, laneOf: map<Oid, nat>) {
    && laneOf.Keys <= nodes
    && (forall v :: v in laneOf ==> OnItsLane(laneOf, lanes, v))
    && (forall k :: 0 <= k < |lanes| ==> OneLane(laneOf, lanes, k))
    && (forall k :: 0 <= k < |lanes| ==> FollowsFirsts(firsts, lanes[k]))
    && (forall k :: 0 <= k < |lanes| ==> StopsAtAssigned(firsts, laneOf, lanes, k))
  }

  ghost predicate StopsAtAssigned(firsts: Firsts, laneOf: map<Oid, nat>, lanes: seq<seq<Oid>>, k: nat)
    requires k < |lanes|
  {
    lanes[k] != [] && (lanes[k][0] in firsts ==> firsts[lanes[k][0]] in laneOf && laneOf[firsts[lanes[k][0]]] <= k)
  }

  /** While a lane is being walked back from its tip. */
  ghost predicate Walking(nodes: set<Oid>, firsts: Firsts, before: map<Oid, nat>, laneOf: map<Oid, nat>,
                          lane: seq<Oid>, next: Option<Oid>, k: nat)
  {
    && laneOf.Keys <= nodes && laneOf.Keys == before.Keys + Elements(lane)
    && (forall v :: v in before ==> laneOf[v] == before[v])
    && (forall v :: v in lane ==> v !in before && laneOf[v] == k)
    && Distinct(lane) && FollowsFirsts(firsts, lane)
    && (next.Some? ==> next.value in nodes)
    && (lane != [] ==> next == if lane[0] in firsts then Some(firsts[lane[0]]) else None)
  }

  method AssignChain(nodes: set<Oid>, firsts: Firsts, before: map<Oid, nat>, tip: Oid, k: nat)
    returns (laneOf: map<Oid, nat>, lane: seq<Oid>)
    requires Closed(nodes, firsts) && before.Keys <= nodes && tip in nodes && tip !in before
    ensures Walking(nodes, firsts, before, laneOf, lane, if lane != [] && lane[0] in firsts then Some(firsts[lane[0]]) else None, k)
    ensures lane != [] && lane[|lane| - 1] == tip
    ensures lane[0] in firsts ==> firsts[lane[0]] in laneOf
  {
    laneOf, lane := before, [];
    var next := Some(tip);
    assert Elements(lane) == {};
    while next.Some? && next.value !in laneOf
      invariant Walking(nodes, firsts, before, laneOf, lane, next, k)
      invariant lane == [] ==> next == Some(tip)
      invariant lane != [] ==> lane[|lane| - 1] == tip
      decreases nodes - laneOf.Keys
    {
      var v := next.value;
      WalkBackOne(nodes, firsts, before, laneOf, lane, v, k);
      laneOf := laneOf[v := k];
      lane := [v] + lane;
      next := if v in firsts then Some(firsts[v]) else None;
    }
  }

  lemma WalkBackOne(nodes: set<Oid>, firsts: Firsts, before: map<Oid, nat>, laneOf: map<Oid, nat>,
                    lane: seq<Oid>, v: Oid, k: nat)
    requires Closed(nodes, firsts) && Walking(nodes, firsts, before, laneOf, lane, Some(v), k) && v !in laneOf
    ensures Walking(nodes, firsts, before, laneOf[v := k], [v] + lane, if v in firsts then Some(firsts[v]) else None, k)
  {
    var longer := [v] + lane;
    assert Elements(longer) == Elements(lane) + {v};
    assert forall i :: 0 < i < |longer| ==> longer[i] == lane[i - 1];
    forall i | 0 < i < |longer|
      ensures longer[i] in firsts && firsts[longer[i]] == longer[i - 1]
    {
      assert i > 1 ==> longer[i - 1] == lane[i - 2];
    }
    forall x | x in lane
      ensures x != v
    {
      assert x in Elements(lane);
    }
  }

  /** `assignChain` over all tips: references first, then the endpoints from last to first. */
  method AssignLanes(nodes: set<Oid>, firsts: Firsts, tips: seq<Oid>) returns (lanes: seq<seq<Oid>>, laneOf: map<Oid, nat>)
    requires Closed(nodes, firsts) && Elements(tips) == nodes
    ensures LanesOk(nodes, firsts, lanes, laneOf) && laneOf.Keys == nodes
  {
    lanes, laneOf := [], map[];
    for t := 0 to |tips|
      invariant LanesOk(nodes, firsts, lanes, laneOf)
      invariant forall i :: 0 <= i < t ==> tips[i] in laneOf
    {
      assert tips[t] in Elements(tips);
      if tips[t] !in laneOf {
        var more, lane := AssignChain(nodes, firsts, laneOf, tips[t], |lanes|);
        AddLane(nodes, firsts, lanes, laneOf, more, lane);
        laneOf := more;
        lanes := lanes + [lane];
      }
    }
    assert forall v :: v in nodes ==> v in Elements(tips);
  }

  lemma AddLane(nodes: set<Oid>, firsts: Firsts, lanes: seq<seq<Oid>>, laneOf: map<Oid, nat>, more: map<Oid, nat>, lane: seq<Oid>)
    requires LanesOk(nodes, firsts, lanes, laneOf) && lane != []
    requires Walking(nodes, firsts, laneOf, more, lane, if lane[0] in firsts then Some(firsts[lane[0]]) else None, |lanes|)
    requires lane[0] in firsts ==> firsts[lane[0]] in more
    ensures LanesOk(nodes, firsts, lanes + [lane], more)
    ensures forall v :: v in laneOf ==> v in more
    ensures lane[|lane| - 1] in more
  {
    var all := lanes + [lane];
    forall v | v in more
      ensures OnItsLane(more, all, v)
    {
      if v in laneOf {
        assert OnItsLane(laneOf, lanes, v) && all[laneOf[v]] == lanes[laneOf[v]];
      } else {
        assert v in Elements(lane);
      }
    }
    forall k | 0 <= k < |all|
      ensures OneLane(more, all, k) && FollowsFirsts(firsts, all[k]) && StopsAtAssigned(firsts, more, all, k)
    {
      if k < |lanes| {
        OldLane(nodes, firsts, lanes, laneOf, more, lane, k);
      } else {
        NewLane(nodes, firsts, lanes, laneOf, more, lane);
      }
    }
  }

  lemma OldLane(nodes: set<Oid>, firsts: Firsts, lanes: seq<seq<Oid>>, laneOf: map<Oid, nat>, more: map<Oid, nat>,
                lane: seq<Oid>, k: nat)
    requires LanesOk(nodes, firsts, lanes, laneOf) && k < |lanes|
    requires forall v :: v in laneOf ==> v in more && more[v] == laneOf[v]
    ensures OneLane(more, lanes + [lane], k) && FollowsFirsts(firsts, (lanes + [lane])[k])
    ensures StopsAtAssigned(firsts, more, lanes + [lane], k)
  {
    assert (lanes + [lane])[k] == lanes[k];
    assert OneLane(laneOf, lanes, k) && FollowsFirsts(firsts, lanes[k]) && StopsAtAssigned(firsts, laneOf, lanes, k);
  }

  lemma NewLane(nodes: set<Oid>, firsts: Firsts, lanes: seq<seq<Oid>>, laneOf: map<Oid, nat>, more: map<Oid, nat>, lane: seq<Oid>)
    requires LanesOk(nodes, firsts, lanes, laneOf) && lane != []
    requires Walking(nodes, firsts, laneOf, more, lane, if lane[0] in firsts then Some(firsts[lane[0]]) else None, |lanes|)
    requires lane[0] in firsts ==> firsts[lane[0]] in more
    ensures OneLane(more, lanes + [lane], |lanes|) && FollowsFirsts(firsts, (lanes + [lane])[|lanes|])
    ensures StopsAtAssigned(firsts, more, lanes + [lane], |lanes|)
  {
    assert (lanes + [lane])[|lanes|] == lane;
    forall i | 0 <= i < |lane|
      ensures lane[i] in more && more[lane[i]] == |lanes|
    {
      assert lane[i] in lane && lane[i] in Elements(lane);
    }
    if lane[0] in firsts {
      var p := firsts[lane[0]];
      if p in laneOf {
        assert OnItsLane(laneOf, lanes, p);
      } else {
        assert p in Elements(lane);
      }
    }
  }

  // ----- lanes and ranks -----

  ghost predicate FirstsRise(firsts: Firsts, ranks: map<Oid, nat>) {
    forall v :: v in firsts ==> v in ranks && firsts[v] in ranks && ranks[firsts[v]] < ranks[v]
  }

  /** Along a lane ranks rise strictly. */
  lemma {:induction false} LaneRises(firsts: Firsts, ranks: map<Oid, nat>, lane: seq<Oid>, i: nat, j: nat)
    requires FirstsRise(firsts, ranks) && FollowsFirsts(firsts, lane) && i < j < |lane|
    ensures lane[i] in ranks && lane[j] in ranks && ranks[lane[i]] < ranks[lane[j]]
    decreases j
  {
    assert lane[j] in firsts && firsts[lane[j]] == lane[j - 1];
    if i < j - 1 {
      LaneRises(firsts, ranks, lane, i, j - 1);
    }
  }

  /** Two endpoints of one lane never share a rank. */
  lemma SameLaneSameRank(nodes: set<Oid>, firsts: Firsts, ranks: map<Oid, nat>, lanes: seq<seq<Oid>>, laneOf: map<Oid, nat>,
                         u: Oid, v: Oid)
    requires LanesOk(nodes, firsts, lanes, laneOf) && FirstsRise(firsts, ranks) && ranks.Keys == nodes
    requires u in laneOf && v in laneOf && laneOf[u] == laneOf[v] && u in ranks && v in ranks && ranks[u] == ranks[v]
    ensures u == v
  {
    assert OnItsLane(laneOf, lanes, u) && OnItsLane(laneOf, lanes, v);
    var lane := lanes[laneOf[u]];
    var i :| 0 <= i < |lane| && lane[i] == u;
    var j :| 0 <= j < |lane| && lane[j] == v;
    assert FollowsFirsts(firsts, lane);
    if i < j { LaneRises(firsts, ranks, lane, i, j); }
    if j < i { LaneRises(firsts, ranks, lane, j, i); }
  }

  /** A node has at most one child that follows it on its own lane as its first parent. */
  lemma LaneSuccessorUnique(nodes: set<Oid>, firsts: Firsts, ranks: map<Oid, nat>, lanes: seq<seq<Oid>>, laneOf: map<Oid, nat>,
                            u: Oid, v: Oid, w: Oid)
    requires LanesOk(nodes, firsts, lanes, laneOf) && FirstsRise(firsts, ranks) && ranks.Keys == nodes
    requires u in laneOf && v in laneOf && w in laneOf && laneOf[u] == laneOf[v] == laneOf[w]
    requires v in firsts && firsts[v] == u && w in firsts && firsts[w] == u
    ensures v == w
  {
    var i := FollowsOnLane(nodes, firsts, ranks, lanes, laneOf, u, v);
    var j := FollowsOnLane(nodes, firsts, ranks, lanes, laneOf, u, w);
    assert OneLane(laneOf, lanes, laneOf[u]);
  }

  lemma FollowsOnLane(nodes: set<Oid>, firsts: Firsts, ranks: map<Oid, nat>, lanes: seq<seq<Oid>>, laneOf: map<Oid, nat>,
                      u: Oid, v: Oid) returns (i: nat)
    requires LanesOk(nodes, firsts, lanes, laneOf) && FirstsRise(firsts, ranks) && ranks.Keys == nodes
    requires u in laneOf && v in laneOf && laneOf[u] == laneOf[v] && v in firsts && firsts[v] == u
    ensures laneOf[u] < |lanes| && i + 1 < |lanes[laneOf[u]]| && lanes[laneOf[u]][i] == u && lanes[laneOf[u]][i + 1] == v
  {
    assert OnItsLane(laneOf, lanes, u) && OnItsLane(laneOf, lanes, v);
    var lane := lanes[laneOf[u]];
    var j :| 0 <= j < |lane| && lane[j] == v;
    assert FollowsFirsts(firsts, lane);
    var k :| 0 <= k < |lane| && lane[k] == u;
    if j == 0 && k > 0 {
      LaneRises(firsts, ranks, lane, j, k);
    }
    assert j > 0;
    i := j - 1;
  }
}
