/**
 * The two worklist searches over the commit graph: the components that mark unrelated histories
 * (src/git_topology.rs) and the search for a head among the ancestors of a ref (src/dock.rs).
 */
module GraphSearch {
  import opened Prelude
  import opened Topology
  import Kahn

  // ----- is the head an ancestor of the ref? -----

  type ParentMap = map<Oid, seq<Oid>>

  /** Built in order, so a later commit replaces an earlier one of the same OID. */
  function ParentsOf(commits: seq<Commit>): ParentMap {
    if commits == [] then map[]
    else
      var n := |commits| - 1;
      ParentsOf(commits[..n])[commits[n].oid := commits[n].parents]
  }

  ghost predicate Step(m: ParentMap, p: seq<Oid>, i: nat)
    requires i + 1 < |p|
  {
    p[i] in m && p[i + 1] in m[p[i]]
  }

  /** Each OID is followed by one of its parents. */
  ghost predicate ParentPath(m: ParentMap, p: seq<Oid>) {
    p != [] && forall i :: 0 <= i < |p| - 1 ==> Step(m, p, i)
  }

  ghost predicate HasAncestor(m: ParentMap, u: Oid, v: Oid) {
    exists p :: ParentPath(m, p) && p[0] == u && p[|p| - 1] == v
  }

  lemma AncestorStep(m: ParentMap, u: Oid, v: Oid, w: Oid)
    requires HasAncestor(m, u, v) && v in m && w in m[v]
    ensures HasAncestor(m, u, w)
  {
    var p :| ParentPath(m, p) && p[0] == u && p[|p| - 1] == v;
    var q := p + [w];
    forall i | 0 <= i < |q| - 1
      ensures Step(m, q, i)
    {
      if i < |p| - 1 { assert Step(m, p, i); }
    }
    assert ParentPath(m, q);
  }

  /** Whatever is not left out of a set closed under parents cannot be reached from inside it. */
  lemma {:induction false} StaysInside(m: ParentMap, inside: set<Oid>, p: seq<Oid>, i: nat)
    requires forall v, w :: v in inside && v in m && w in m[v] ==> w in inside
    requires ParentPath(m, p) && p[0] in inside && i < |p|
    ensures p[i] in inside
  {
    if i > 0 {
      StaysInside(m, inside, p, i - 1);
      assert Step(m, p, i - 1);
    }
  }

  /** Every OID the search can meet. */
  ghost function Known(m: ParentMap, start: Oid): set<Oid> {
    {start} + set v, w | v in m && w in m[v] :: w
  }

  ghost predicate Searching(m: ParentMap, start: Oid, head: Oid, visited: set<Oid>, pending: seq<Oid>) {
    && (start in visited || start in pending) && head !in visited
    && visited <= Known(m, start)
    && (forall v :: v in pending ==> v in Known(m, start))
    && (forall v :: v in pending ==> HasAncestor(m, start, v))
    && (forall v, w :: v in visited && v in m && w in m[v] ==> w in visited || w in pending)
  }

  lemma PushParents(m: ParentMap, start: Oid, head: Oid, visited: set<Oid>, pending: seq<Oid>, oid: Oid)
    requires pending != [] && oid == pending[|pending| - 1] && oid != head && Searching(m, start, head, visited, pending)
    ensures Searching(m, start, head, visited + {oid}, pending[..|pending| - 1] + if oid in m then m[oid] else [])
  {
    var rest := pending[..|pending| - 1];
    var next := rest + if oid in m then m[oid] else [];
    assert pending == rest + [oid];
    forall v | v in next
      ensures v in Known(m, start) && HasAncestor(m, start, v)
    {
      if v !in rest { AncestorStep(m, start, oid, v); }
    }
  }

  predicate ZeroOrEmpty(oid: Oid) {
    forall i :: 0 <= i < |oid| ==> oid[i] == '0'
  }

  /** `ref_reaches_head`: a depth-first search with an explicit stack. */
  method RefReachesHead(commits: seq<Commit>, refOid: Oid, headOid: Oid) returns (found: bool)
    ensures found <==> !ZeroOrEmpty(headOid) && HasAncestor(ParentsOf(commits), refOid, headOid)
  {
    if ZeroOrEmpty(headOid) {
      return false;
    }
    var m := BuildParents(commits);
    var pending, visited := [refOid], {};
    assert ParentPath(m, [refOid]);
    while pending != []
      invariant Searching(m, refOid, headOid, visited, pending)
      decreases Known(m, refOid) - visited, |pending|
    {
      var oid := pending[|pending| - 1];
      if oid == headOid {
        return true;
      }
      PushParents(m, refOid, headOid, visited, pending, oid);
      ghost var before := pending;
      pending := pending[..|pending| - 1];
      if oid !in visited {
        visited := visited + {oid};
        if oid in m {
          pending := pending + m[oid];
        }
      } else {
        SkipVisited(m, refOid, headOid, visited, before, oid);
      }
    }
    if HasAncestor(m, refOid, headOid) {
      var p :| ParentPath(m, p) && p[0] == refOid && p[|p| - 1] == headOid;
      StaysInside(m, visited, p, |p| - 1);
    }
    found := false;
  }

  lemma SkipVisited(m: ParentMap, start: Oid, head: Oid, visited: set<Oid>, pending: seq<Oid>, oid: Oid)
    requires pending != [] && oid == pending[|pending| - 1] && oid in visited && Searching(m, start, head, visited, pending)
    ensures Searching(m, start, head, visited, pending[..|pending| - 1])
  {
    assert pending == pending[..|pending| - 1] + [oid];
  }

  method BuildParents(commits: seq<Commit>) returns (m: ParentMap)
    ensures m == ParentsOf(commits)
  {
    m := map[];
    for i := 0 to |commits|
      invariant m == ParentsOf(commits[..i])
    {
      TakeMore(commits, i);
      assert commits[..i + 1][..i] == commits[..i];
      m := m[commits[i].oid := commits[i].parents];
    }
    assert commits[..|commits|] == commits;
  }

  // ----- connected components -----

  /** Retained links, both ways. */
  function BothWays(edges: seq<Edge>, oids: set<Oid>): Arcs {
    if edges == [] then []
    else
      var n := |edges| - 1;
      if edges[n].from in oids && edges[n].to in oids
      then BothWays(edges[..n], oids) + [(edges[n].from, edges[n].to)] + [(edges[n].to, edges[n].from)]
      else BothWays(edges[..n], oids)
  }

  lemma {:induction false} BothWaysExact(edges: seq<Edge>, oids: set<Oid>, u: Oid, v: Oid)
    ensures (u, v) in BothWays(edges, oids) <==>
            u in oids && v in oids && exists e :: e in edges && ((e.from == u && e.to == v) || (e.from == v && e.to == u))
  {
    if edges != [] {
      var n := |edges| - 1;
      BothWaysExact(edges[..n], oids, u, v);
      assert edges == edges[..n] + [edges[n]];
    }
  }

  ghost predicate Symmetric(arcs: Arcs) {
    forall a :: a in arcs ==> (a.1, a.0) in arcs
  }

  lemma BothWaysSymmetric(edges: seq<Edge>, oids: set<Oid>)
    ensures Symmetric(BothWays(edges, oids)) && Within(BothWays(edges, oids), oids)
  {
    forall a | a in BothWays(edges, oids)
      ensures (a.1, a.0) in BothWays(edges, oids) && a.0 in oids && a.1 in oids
    {
      BothWaysExact(edges, oids, a.0, a.1);
      BothWaysExact(edges, oids, a.1, a.0);
    }
  }

  lemma {:induction false} ReachesBack(arcs: Arcs, p: seq<Oid>)
    requires Symmetric(arcs) && IsPath(arcs, p)
    ensures Reaches(arcs, p[|p| - 1], p[0])
    decreases |p|
  {
    if |p| == 1 {
      assert IsPath(arcs, [p[0]]);
    } else {
      assert (p[0], p[0 + 1]) in arcs;
      PathSlice(arcs, p, 1, |p|);
      ReachesBack(arcs, p[1..]);
      assert ((p[0], p[1]).1, (p[0], p[1]).0) in arcs;
      ReachesStep(arcs, p[|p| - 1], p[1], p[0]);
    }
  }

  /** No arc leaves the set. */
  ghost predicate ClosedIn(arcs: Arcs, s: set<Oid>) {
    forall a :: a in arcs && a.0 in s ==> a.1 in s
  }

  lemma {:induction false} StaysIn(arcs: Arcs, s: set<Oid>, p: seq<Oid>, i: nat)
    requires ClosedIn(arcs, s) && IsPath(arcs, p) && p[0] in s && i < |p|
    ensures p[i] in s
  {
    if i > 0 {
      StaysIn(arcs, s, p, i - 1);
      assert (p[i - 1], p[i - 1 + 1]) in arcs;
      assert (p[i - 1], p[i]).0 in s;
    }
  }

  /** A component: closed, and any two of its commits are linked. */
  ghost predicate Component(arcs: Arcs, oids: set<Oid>, c: set<Oid>) {
    && c != {} && c <= oids && ClosedIn(arcs, c)
    && forall u, v :: u in c && v in c ==> Reaches(arcs, u, v)
  }

  /** The breadth-first search from `start` so far. */
  ghost predicate Exploring(arcs: Arcs, oids: set<Oid>, before: set<Oid>, start: Oid, component: set<Oid>, queue: seq<Oid>) {
    && component <= oids && component !! before && (start in component || start in queue)
    && (forall v :: v in queue ==> v in oids && v !in before && Reaches(arcs, start, v))
    && (forall v :: v in component ==> Reaches(arcs, start, v))
    && (forall a :: a in arcs && a.0 in component ==> a.1 in component || a.1 in queue)
  }

  lemma Enqueue(arcs: Arcs, oids: set<Oid>, before: set<Oid>, start: Oid, component: set<Oid>, queue: seq<Oid>)
    requires Symmetric(arcs) && Within(arcs, oids) && ClosedIn(arcs, before) && queue != []
    requires Exploring(arcs, oids, before, start, component, queue)
    ensures Exploring(arcs, oids, before, start, component + {queue[0]}, queue[1..] + Kahn.Targets(arcs, queue[0]))
  {
    var v := queue[0];
    var next := queue[1..] + Kahn.Targets(arcs, v);
    assert queue == [v] + queue[1..];
    forall t | t in Kahn.Targets(arcs, v)
      ensures t in oids && t !in before && Reaches(arcs, start, t)
    {
      Kahn.TargetsExact(arcs, v, t);
      assert (v, t).1 in oids && ((v, t).1, (v, t).0) in arcs;
      assert (t, v).0 in before ==> (t, v).1 in before;
      ReachesStep(arcs, start, v, t);
    }
    forall a | a in arcs && a.0 in component + {v}
      ensures a.1 in component + {v} || a.1 in next
    {
      if a.0 == v { Kahn.TargetsExact(arcs, v, a.1); }
    }
  }

  lemma SkipSeen(arcs: Arcs, oids: set<Oid>, before: set<Oid>, start: Oid, component: set<Oid>, queue: seq<Oid>)
    requires queue != [] && queue[0] in component && Exploring(arcs, oids, before, start, component, queue)
    ensures Exploring(arcs, oids, before, start, component, queue[1..])
  {
    assert queue == [queue[0]] + queue[1..];
  }

  lemma Explored(arcs: Arcs, oids: set<Oid>, before: set<Oid>, start: Oid, component: set<Oid>)
    requires Symmetric(arcs) && ClosedIn(arcs, before) && Exploring(arcs, oids, before, start, component, [])
    ensures Component(arcs, oids, component) && ClosedIn(arcs, before + component) && start in component
  {
    forall u, v | u in component && v in component
      ensures Reaches(arcs, u, v)
    {
      var p :| IsPath(arcs, p) && p[0] == start && p[|p| - 1] == u;
      ReachesBack(arcs, p);
      ReachesTransitive(arcs, u, start, v);
    }
  }

  method Explore(ghost arcs: Arcs, oids: set<Oid>, adjacency: map<Oid, seq<Oid>>, before: set<Oid>, start: Oid)
    returns (component: set<Oid>, visited: set<Oid>)
    requires Symmetric(arcs) && Within(arcs, oids) && ClosedIn(arcs, before) && before <= oids && start in oids && start !in before
    requires adjacency.Keys == oids && forall v :: v in oids ==> adjacency[v] == Kahn.Targets(arcs, v)
    ensures Component(arcs, oids, component) && component !! before && start in component
    ensures visited == before + component && ClosedIn(arcs, visited)
  {
    component, visited := {}, before;
    var queue := [start];
    assert IsPath(arcs, [start]);
    while queue != []
      invariant Exploring(arcs, oids, before, start, component, queue) && visited == before + component
      decreases oids - visited, |queue|
    {
      var oid := queue[0];
      if oid in visited {
        SkipSeen(arcs, oids, before, start, component, queue);
        queue := queue[1..];
      } else {
        Enqueue(arcs, oids, before, start, component, queue);
        visited := visited + {oid};
        component := component + {oid};
        queue := queue[1..] + adjacency[oid];
      }
    }
    Explored(arcs, oids, before, start, component);
  }

  ghost predicate ComponentsOk(arcs: Arcs, oids: set<Oid>, components: seq<set<Oid>>) {
    && (forall k :: 0 <= k < |components| ==> Component(arcs, oids, components[k]))
    && (forall j, k :: 0 <= j < k < |components| ==> components[j] !! components[k])
  }

  ghost predicate InSome(components: seq<set<Oid>>, v: Oid) {
    exists k :: 0 <= k < |components| && v in components[k]
  }

  /** The components found so far are exactly what was visited. */
  ghost predicate Visited(components: seq<set<Oid>>, visited: set<Oid>) {
    forall v :: v in visited <==> InSome(components, v)
  }

  lemma AddComponent(arcs: Arcs, oids: set<Oid>, components: seq<set<Oid>>, visited: set<Oid>, c: set<Oid>)
    requires ComponentsOk(arcs, oids, components) && Visited(components, visited) && Component(arcs, oids, c) && c !! visited
    ensures ComponentsOk(arcs, oids, components + [c]) && Visited(components + [c], visited + c)
  {
    var more := components + [c];
    forall v
      ensures v in visited + c <==> InSome(more, v)
    {
      assert v in c ==> v in more[|components|];
      if InSome(components, v) {
        var k :| 0 <= k < |components| && v in components[k];
        assert v in more[k];
      }
    }
    forall j | 0 <= j < |components|
      ensures components[j] !! c
    {
      assert forall v :: v in components[j] ==> InSome(components, v);
    }
    forall k | 0 <= k < |more|
      ensures Component(arcs, oids, more[k])
    {
      if k < |components| { assert Component(arcs, oids, components[k]); }
    }
  }

  method FindComponents(ghost arcs: Arcs, oids: set<Oid>, adjacency: map<Oid, seq<Oid>>) returns (components: seq<set<Oid>>)
    requires Symmetric(arcs) && Within(arcs, oids)
    requires adjacency.Keys == oids && forall v :: v in oids ==> adjacency[v] == Kahn.Targets(arcs, v)
    ensures ComponentsOk(arcs, oids, components) && Visited(components, oids)
  {
    components := [];
    var visited, left := {}, oids;
    while left != {}
      invariant left <= oids && visited <= oids && ClosedIn(arcs, visited) && ComponentsOk(arcs, oids, components)
      invariant Visited(components, visited)
      invariant forall v :: v in oids ==> v in left || v in visited
      decreases |left|
    {
      var start :| start in left;
      left := left - {start};
      if start !in visited {
        var component, more := Explore(arcs, oids, adjacency, visited, start);
        AddComponent(arcs, oids, components, visited, component);
        components := components + [component];
        visited := more;
      }
    }
    assert visited == oids;
  }

  ghost predicate Adjacent(arcs: Arcs, oids: set<Oid>, adjacency: map<Oid, seq<Oid>>) {
    adjacency.Keys == oids && forall v :: v in oids ==> adjacency[v] == Kahn.Targets(arcs, v)
  }

  method Adjacency(edges: seq<Edge>, oids: set<Oid>) returns (adjacency: map<Oid, seq<Oid>>)
    ensures Adjacent(BothWays(edges, oids), oids, adjacency)
  {
    adjacency := map v | v in oids :: [];
    for i := 0 to |edges|
      invariant Adjacent(BothWays(edges[..i], oids), oids, adjacency)
    {
      var e := edges[i];
      TakeMore(edges, i);
      assert edges[..i + 1][..i] == edges[..i];
      if e.from in oids && e.to in oids {
        LinkMore(BothWays(edges[..i], oids), oids, adjacency, e.from, e.to);
        adjacency := adjacency[e.from := adjacency[e.from] + [e.to]];
        LinkMore(BothWays(edges[..i], oids) + [(e.from, e.to)], oids, adjacency, e.to, e.from);
        adjacency := adjacency[e.to := adjacency[e.to] + [e.from]];
      }
    }
    assert edges[..|edges|] == edges;
  }

  lemma LinkMore(arcs: Arcs, oids: set<Oid>, adjacency: map<Oid, seq<Oid>>, u: Oid, v: Oid)
    requires Adjacent(arcs, oids, adjacency) && u in oids
    ensures Adjacent(arcs + [(u, v)], oids, adjacency[u := adjacency[u] + [v]])
  {
    assert (arcs + [(u, v)])[..|arcs|] == arcs;
  }

  // ----- unrelated histories -----

  ghost predicate NoRetainedParent(c: Commit, oids: set<Oid>) {
    forall p :: p in c.parents ==> p !in oids
  }

  ghost predicate HasEdge(edges: seq<Edge>, u: Oid, v: Oid) {
    exists e :: e in edges && e.from == u && e.to == v
  }

  ghost predicate HasLink(commits: seq<Commit>, u: Oid, v: Oid) {
    exists c :: c in commits && c.oid == v && u in c.parents
  }

  /** The edges are the links between the commits. */
  ghost predicate EdgesAreLinks(commits: seq<Commit>, edges: seq<Edge>) {
    && (forall c, p {:trigger HasEdge(edges, p, c.oid)} :: c in commits && p in c.parents ==> HasEdge(edges, p, c.oid))
    && (forall e {:trigger HasLink(commits, e.from, e.to)} :: e in edges ==> HasLink(commits, e.from, e.to))
  }

  ghost predicate Unlinked(arcs: Arcs, oids: set<Oid>) {
    exists u, v :: u in oids && v in oids && !Reaches(arcs, u, v)
  }

  lemma ApartInComponents(arcs: Arcs, oids: set<Oid>, components: seq<set<Oid>>)
    requires ComponentsOk(arcs, oids, components) && |components| >= 2
    ensures Unlinked(arcs, oids)
  {
    assert Component(arcs, oids, components[0]) && Component(arcs, oids, components[1]);
    var u :| u in components[0];
    var v :| v in components[1];
    if Reaches(arcs, u, v) {
      var p :| IsPath(arcs, p) && p[0] == u && p[|p| - 1] == v;
      StaysIn(arcs, components[0], p, |p| - 1);
    }
  }

  /** Two components mean two commits that nothing links, and the other way round. */
  lemma CountSeparates(arcs: Arcs, oids: set<Oid>, components: seq<set<Oid>>)
    requires ComponentsOk(arcs, oids, components) && Visited(components, oids)
    ensures |components| >= 2 <==> Unlinked(arcs, oids)
  {
    if |components| >= 2 {
      ApartInComponents(arcs, oids, components);
    } else if |components| == 1 {
      assert Component(arcs, oids, components[0]);
      forall u | u in oids
        ensures u in components[0]
      {
        assert InSome(components, u);
      }
    } else {
      assert forall u :: u in oids ==> InSome(components, u);
    }
  }

  /** Inside its component a commit has no parent exactly when none of its parents is retained. */
  lemma ParentsInComponent(commits: seq<Commit>, edges: seq<Edge>, oids: set<Oid>, component: set<Oid>, c: Commit)
    requires EdgesAreLinks(commits, edges) && Component(BothWays(edges, oids), oids, component)
    requires c in commits && c.oid in component
    ensures (forall p :: p in c.parents ==> p !in component) <==> NoRetainedParent(c, oids)
  {
    forall p | p in c.parents && p in oids
      ensures p in component
    {
      assert HasEdge(edges, p, c.oid);
      BothWaysExact(edges, oids, c.oid, p);
      assert (c.oid, p).0 in component;
    }
  }

  lemma ParentInside(commits: seq<Commit>, edges: seq<Edge>, oids: set<Oid>, component: set<Oid>, v: Oid)
    requires EdgesAreLinks(commits, edges) && Component(BothWays(edges, oids), oids, component) && v in component
    requires exists k :: 0 <= k < |commits| && commits[k].oid == v
    requires forall c :: c in commits && c.oid in component ==> !NoRetainedParent(c, oids)
    ensures HasParentIn(ArcsOf(commits, oids), component, v)
  {
    var k :| 0 <= k < |commits| && commits[k].oid == v;
    assert commits[k] in commits;
    ParentsInComponent(commits, edges, oids, component, commits[k]);
    var p :| p in commits[k].parents && p in component;
    ArcsOfExact(commits, oids, p, v);
  }

  /** In an acyclic graph every component has a commit without a retained parent. */
  lemma ComponentHasRoot(commits: seq<Commit>, edges: seq<Edge>, oids: set<Oid>, component: set<Oid>) returns (c: Commit)
    requires EdgesAreLinks(commits, edges) && Component(BothWays(edges, oids), oids, component)
    requires forall v :: v in oids ==> exists k :: 0 <= k < |commits| && commits[k].oid == v
    requires !HasCycle(ArcsOf(commits, oids))
    ensures c in commits && c.oid in component && NoRetainedParent(c, oids)
  {
    if forall d :: d in commits && d.oid in component ==> !NoRetainedParent(d, oids) {
      forall v | v in component
        ensures HasParentIn(ArcsOf(commits, oids), component, v)
      {
        ParentInside(commits, edges, oids, component, v);
      }
      StuckMeansCycle(ArcsOf(commits, oids), component);
    }
    c :| c in commits && c.oid in component && NoRetainedParent(c, oids);
  }
}
