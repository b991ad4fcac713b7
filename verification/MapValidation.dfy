/** `validateTopology`: the map's own check of a graph, loop by loop (assets/metro-core.js). */
module MapValidation {
  import opened Prelude
  import opened Topology
  import Kahn

  const MAX_COMMITS := 2048
  const MAX_REFS := 256
  const MAX_EDGES := 8192
  const MAX_BOUNDARIES := 4096

  ghost predicate WithinCounts(g: Graph) {
    && |g.commits| <= MAX_COMMITS && |g.refs| <= MAX_REFS && |g.edges| <= MAX_EDGES && |g.boundaries| <= MAX_BOUNDARIES
    && forall c :: c in g.commits ==> |c.parents| <= MAX_EDGES
  }

  method AllDistinct<T(==)>(s: seq<T>) returns (b: bool)
    ensures b <==> Distinct(s)
  {
    var seen: set<T> := {};
    for i := 0 to |s|
      invariant Distinct(s[..i]) && forall x :: x in seen <==> x in s[..i]
    {
      if s[i] in seen {
        assert !Distinct(s) by {
          var j :| 0 <= j < i && s[..i][j] == s[i];
          assert s[j] == s[i];
        }
        return false;
      }
      TakeMore(s, i);
      seen := seen + {s[i]};
    }
    assert s[..|s|] == s;
    return true;
  }

  method CheckCommits(g: Graph) returns (ok: bool, oids: set<Oid>)
    ensures oids == CommitOids(g)
    ensures ok <==> CommitsOk(g) && forall c :: c in g.commits ==> |c.parents| <= MAX_EDGES
  {
    var parentsOk := true;
    oids := {};
    for i := 0 to |g.commits|
      invariant forall x :: x in oids <==> exists k :: 0 <= k < i && g.commits[k].oid == x
      invariant parentsOk <==> forall k :: 0 <= k < i ==> Distinct(g.commits[k].parents) && |g.commits[k].parents| <= MAX_EDGES
    {
      oids := oids + {g.commits[i].oid};
      var distinct := AllDistinct(g.commits[i].parents);
      parentsOk := parentsOk && distinct && |g.commits[i].parents| <= MAX_EDGES;
    }
    assert oids == CommitOids(g);
    var distinctOids := AllDistinct(OidSeq(g.commits));
    ok := distinctOids && parentsOk;
  }

  method CheckRefs(g: Graph, endpoints: set<Oid>) returns (ok: bool)
    requires endpoints == Endpoints(g)
    ensures ok <==> RefsOk(g)
  {
    var present := true;
    for i := 0 to |g.refs|
      invariant present <==> forall k :: 0 <= k < i ==> g.refs[k].oid in endpoints
    {
      present := present && g.refs[i].oid in endpoints;
    }
    var distinct := AllDistinct(seq(|g.refs|, i requires 0 <= i < |g.refs| => g.refs[i].name));
    ok := distinct && present;
  }

  ghost predicate EdgeEndsOk(g: Graph) {
    && (forall e :: e in g.edges ==> e.from in Endpoints(g) && e.to in CommitOids(g))
    && (forall e, c :: e in g.edges && c in g.commits && c.oid == e.to ==> e.from in c.parents)
  }

  method CheckEdges(g: Graph, endpoints: set<Oid>, oids: set<Oid>) returns (ok: bool)
    requires endpoints == Endpoints(g) && oids == CommitOids(g)
    ensures ok <==> EdgesOk(g)
  {
    var idsOk := AllDistinct(seq(|g.edges|, i requires 0 <= i < |g.edges| => g.edges[i].id));
    var pairsOk := AllDistinct(Pairs(g.edges));
    var endsOk := CheckEdgeEnds(g, endpoints, oids);
    var parentsOk := CheckParentEdges(g);
    ok := idsOk && pairsOk && endsOk && parentsOk;
  }

  method CheckEdgeEnds(g: Graph, endpoints: set<Oid>, oids: set<Oid>) returns (ok: bool)
    requires endpoints == Endpoints(g) && oids == CommitOids(g)
    ensures ok <==> EdgeEndsOk(g)
  {
    ok := true;
    for i := 0 to |g.edges|
      invariant ok <==> forall k :: 0 <= k < i ==> EdgeOk(g, g.edges[k])
    {
      var e := g.edges[i];
      var isParent := true;
      for j := 0 to |g.commits|
        invariant isParent <==> forall k :: 0 <= k < j ==> g.commits[k].oid == e.to ==> e.from in g.commits[k].parents
      {
        isParent := isParent && (g.commits[j].oid == e.to ==> e.from in g.commits[j].parents);
      }
      ok := ok && e.from in endpoints && e.to in oids && isParent;
    }
    assert ok <==> forall e :: e in g.edges ==> EdgeOk(g, e);
  }

  ghost predicate EdgeOk(g: Graph, e: Edge) {
    && e.from in Endpoints(g) && e.to in CommitOids(g)
    && forall k :: 0 <= k < |g.commits| && g.commits[k].oid == e.to ==> e.from in g.commits[k].parents
  }

  method CheckParentEdges(g: Graph) returns (ok: bool)
    ensures ok <==> forall c, p :: c in g.commits && p in c.parents ==> (p, c.oid) in Pairs(g.edges)
  {
    var pairs := set a | a in Pairs(g.edges);
    ok := true;
    for i := 0 to |g.commits|
      invariant ok <==> forall k :: 0 <= k < i ==> ParentsHaveEdges(g, g.commits[k], |g.commits[k].parents|)
    {
      var c := g.commits[i];
      for j := 0 to |c.parents|
        invariant ok <==> ParentsHaveEdges(g, c, j) &&
                          forall k :: 0 <= k < i ==> ParentsHaveEdges(g, g.commits[k], |g.commits[k].parents|)
      {
        ok := ok && (c.parents[j], c.oid) in pairs;
      }
    }
    ParentsCovered(g);
  }

  ghost predicate ParentsHaveEdges(g: Graph, c: Commit, n: nat)
    requires n <= |c.parents|
  {
    forall j :: 0 <= j < n ==> (c.parents[j], c.oid) in Pairs(g.edges)
  }

  lemma ParentsCovered(g: Graph)
    ensures (forall k :: 0 <= k < |g.commits| ==> ParentsHaveEdges(g, g.commits[k], |g.commits[k].parents|))
       <==> forall c, p :: c in g.commits && p in c.parents ==> (p, c.oid) in Pairs(g.edges)
  {
    if forall c, p :: c in g.commits && p in c.parents ==> (p, c.oid) in Pairs(g.edges) {
      forall k | 0 <= k < |g.commits|
        ensures ParentsHaveEdges(g, g.commits[k], |g.commits[k].parents|)
      {
        assert g.commits[k] in g.commits;
      }
    }
  }

  /** The cycle check: Kahn's ordering of the retained commits leaves one out exactly when there is a cycle. */
  method FindsCycle(g: Graph, oids: set<Oid>) returns (cycle: bool)
    requires oids == CommitOids(g)
    ensures cycle <==> HasCycle(ArcsOf(g.commits, oids))
  {
    var arcs := ArcsOf(g.commits, oids);
    ParentArcsWithin(g);
    var visited, _ := Kahn.Order(oids, arcs);
    Kahn.CompleteIffAcyclic(arcs, oids, visited);
    cycle := |visited| != |oids|;
  }

  lemma ParentArcsWithin(g: Graph)
    ensures Within(ArcsOf(g.commits, CommitOids(g)), CommitOids(g))
  {
    forall a | a in ArcsOf(g.commits, CommitOids(g))
      ensures a.0 in CommitOids(g) && a.1 in CommitOids(g)
    {
      ArcsOfExact(g.commits, CommitOids(g), a.0, a.1);
    }
  }

  /** The validator accepts exactly the well-formed graphs within its size limits. */
  method ValidateTopology(g: Graph) returns (valid: bool)
    ensures valid <==> WellFormed(g) && WithinCounts(g)
  {
    var countsOk := |g.commits| <= MAX_COMMITS && |g.refs| <= MAX_REFS && |g.edges| <= MAX_EDGES && |g.boundaries| <= MAX_BOUNDARIES;
    var commitsOk, oids := CheckCommits(g);
    var boundaryOids := set i | 0 <= i < |g.boundaries| :: g.boundaries[i].oid;
    var endpoints := oids + boundaryOids;
    var refsOk := CheckRefs(g, endpoints);
    var boundariesOk := AllDistinct(BoundaryIds(g.boundaries));
    var edgesOk := CheckEdges(g, endpoints, oids);
    var cycle := FindsCycle(g, oids);
    valid := countsOk && commitsOk && refsOk && boundariesOk && edgesOk && !cycle;
  }
}
