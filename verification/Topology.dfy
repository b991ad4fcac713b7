/** The commit graph shared by the collector, the dock and the map, and paths in it. */
module Topology {
  import opened Prelude

  type Oid = string

  /** An object identifier of either of Git's hash algorithms. */
  predicate IsOid(oid: Oid) {
    (|oid| == 40 || |oid| == 64) && AllHex(oid)
  }

  datatype Commit = Commit(oid: Oid, parents: seq<Oid>, authoredAt: Option<string>, subject: Option<string>)
  datatype Edge = Edge(id: string, from: Oid, to: Oid)
  datatype Ref = Ref(name: string, display: string, oid: Oid, kind: string)
  datatype Boundary = Boundary(id: string, oid: Oid, reason: string)
  datatype Graph = Graph(
    commits: seq<Commit>, refs: seq<Ref>, edges: seq<Edge>, boundaries: seq<Boundary>, complete: bool)

  ghost function CommitOids(g: Graph): set<Oid> {
    set i | 0 <= i < |g.commits| :: g.commits[i].oid
  }

  ghost function BoundaryOids(g: Graph): set<Oid> {
    set i | 0 <= i < |g.boundaries| :: g.boundaries[i].oid
  }

  ghost function Endpoints(g: Graph): set<Oid> {
    CommitOids(g) + BoundaryOids(g)
  }

  /** `(u, v)` in `arcs` reads: u is a parent of v. */
  type Arcs = seq<(Oid, Oid)>

  ghost predicate IsPath(arcs: Arcs, p: seq<Oid>) {
    p != [] && forall i :: 0 <= i < |p| - 1 ==> (p[i], p[i + 1]) in arcs
  }

  ghost predicate Reaches(arcs: Arcs, u: Oid, v: Oid) {
    exists p :: IsPath(arcs, p) && p[0] == u && p[|p| - 1] == v
  }

  ghost predicate HasCycle(arcs: Arcs) {
    exists p :: IsPath(arcs, p) && |p| > 1 && p[0] == p[|p| - 1]
  }

  ghost predicate Within(arcs: Arcs, nodes: set<Oid>) {
    forall a :: a in arcs ==> a.0 in nodes && a.1 in nodes
  }

  lemma PathSlice(arcs: Arcs, p: seq<Oid>, i: nat, j: nat)
    requires IsPath(arcs, p) && i < j <= |p|
    ensures IsPath(arcs, p[i..j])
  {
  }

  lemma PathConcat(arcs: Arcs, p: seq<Oid>, q: seq<Oid>)
    requires IsPath(arcs, p) && IsPath(arcs, q) && (p[|p| - 1], q[0]) in arcs
    ensures IsPath(arcs, p + q)
  {
  }

  lemma ReachesStep(arcs: Arcs, u: Oid, v: Oid, w: Oid)
    requires Reaches(arcs, u, v) && (v, w) in arcs
    ensures Reaches(arcs, u, w)
  {
    var p :| IsPath(arcs, p) && p[0] == u && p[|p| - 1] == v;
    assert IsPath(arcs, [w]);
    PathConcat(arcs, p, [w]);
    assert (p + [w])[|p|] == w;
  }

  lemma ReachesTransitive(arcs: Arcs, u: Oid, v: Oid, w: Oid)
    requires Reaches(arcs, u, v) && Reaches(arcs, v, w)
    ensures Reaches(arcs, u, w)
  {
    var p :| IsPath(arcs, p) && p[0] == u && p[|p| - 1] == v;
    var q :| IsPath(arcs, q) && q[0] == v && q[|q| - 1] == w;
    if |q| > 1 {
      PathSlice(arcs, q, 1, |q|);
      PathConcat(arcs, p, q[1..]);
      var r := p + q[1..];
      assert r[|r| - 1] == w;
    }
  }

  lemma StepReaches(arcs: Arcs, u: Oid, v: Oid, w: Oid)
    requires (u, v) in arcs && Reaches(arcs, v, w)
    ensures Reaches(arcs, u, w)
  {
    var p :| IsPath(arcs, p) && p[0] == v && p[|p| - 1] == w;
    assert IsPath(arcs, [u]);
    PathConcat(arcs, [u], p);
    assert ([u] + p)[|p|] == w;
  }

  // ----- pigeonhole -----

  lemma {:induction false} DistinctFits<T>(s: seq<T>, t: set<T>)
    requires Distinct(s) && forall x :: x in s ==> x in t
    ensures |s| <= |t|
    decreases |s|
  {
    if s != [] {
      var n := |s| - 1;
      assert forall x :: x in s[..n] ==> x in t - {s[n]};
      DistinctFits(s[..n], t - {s[n]});
    }
  }

  ghost predicate HasParentIn(arcs: Arcs, stuck: set<Oid>, v: Oid) {
    exists u :: u in stuck && (u, v) in arcs
  }

  ghost predicate Stuck(arcs: Arcs, stuck: set<Oid>) {
    forall v {:trigger HasParentIn(arcs, stuck, v)} :: v in stuck ==> HasParentIn(arcs, stuck, v)
  }

  /** If every node of a non-empty set has a parent in the set, walking back must revisit a node. */
  lemma StuckMeansCycle(arcs: Arcs, stuck: set<Oid>)
    requires stuck != {} && Stuck(arcs, stuck)
    ensures HasCycle(arcs)
  {
    var v :| v in stuck;
    var p := WalkBack(arcs, stuck, v, |stuck|);
    if Distinct(p) {
      DistinctFits(p, stuck);
    }
    RepeatMeansCycle(arcs, p);
  }

  lemma RepeatMeansCycle(arcs: Arcs, p: seq<Oid>)
    requires IsPath(arcs, p) && !Distinct(p)
    ensures HasCycle(arcs)
  {
    var i, j :| 0 <= i < j < |p| && p[i] == p[j];
    PathSlice(arcs, p, i, j + 1);
    var q := p[i..j + 1];
    assert q[0] == q[|q| - 1];
  }

  lemma {:induction false} WalkBack(arcs: Arcs, stuck: set<Oid>, v: Oid, n: nat) returns (p: seq<Oid>)
    requires Stuck(arcs, stuck) && v in stuck
    ensures IsPath(arcs, p) && |p| == n + 1 && p[n] == v && forall x :: x in p ==> x in stuck
    decreases n
  {
    if n == 0 {
      p := [v];
    } else {
      assert HasParentIn(arcs, stuck, v);
      var u :| u in stuck && (u, v) in arcs;
      var q := WalkBack(arcs, stuck, u, n - 1);
      PathConcat(arcs, q, [v]);
      p := q + [v];
    }
  }

  // ----- well-formed graphs -----

  /** The links among retained commits that a commit contributes. */
  function LinksOf(c: Commit, oids: set<Oid>, n: nat): Arcs
    requires n <= |c.parents|
  {
    if n == 0 then []
    else LinksOf(c, oids, n - 1) + if c.parents[n - 1] in oids then [(c.parents[n - 1], c.oid)] else []
  }

  function ArcsOf(commits: seq<Commit>, oids: set<Oid>): Arcs {
    if commits == [] then []
    else
      var last := commits[|commits| - 1];
      ArcsOf(commits[..|commits| - 1], oids) + LinksOf(last, oids, |last.parents|)
  }

  lemma {:induction false} LinksOfExact(c: Commit, oids: set<Oid>, n: nat, u: Oid, v: Oid)
    requires n <= |c.parents|
    ensures (u, v) in LinksOf(c, oids, n) <==> v == c.oid && u in oids && u in c.parents[..n]
  {
    if n > 0 {
      LinksOfExact(c, oids, n - 1, u, v);
      TakeMore(c.parents, n - 1);
    }
  }

  /** `ArcsOf` is the parent relation restricted to retained commits. */
  lemma {:induction false} ArcsOfExact(commits: seq<Commit>, oids: set<Oid>, u: Oid, v: Oid)
    ensures (u, v) in ArcsOf(commits, oids) <==>
            exists k :: 0 <= k < |commits| && commits[k].oid == v && u in oids && u in commits[k].parents
  {
    if commits != [] {
      var n := |commits| - 1;
      ArcsOfExact(commits[..n], oids, u, v);
      LinksOfExact(commits[n], oids, |commits[n].parents|, u, v);
      assert commits[n].parents[..|commits[n].parents|] == commits[n].parents;
      assert forall k :: 0 <= k < n ==> commits[..n][k] == commits[k];
    }
  }

  function OidSeq(commits: seq<Commit>): (s: seq<Oid>)
    ensures |s| == |commits| && forall i :: 0 <= i < |s| ==> s[i] == commits[i].oid
  {
    seq(|commits|, i requires 0 <= i < |commits| => commits[i].oid)
  }

  function BoundaryIds(boundaries: seq<Boundary>): (s: seq<string>)
    ensures |s| == |boundaries| && forall i :: 0 <= i < |s| ==> s[i] == boundaries[i].id
  {
    seq(|boundaries|, i requires 0 <= i < |boundaries| => boundaries[i].id)
  }

  function Pairs(edges: seq<Edge>): (s: Arcs)
    ensures |s| == |edges| && forall i :: 0 <= i < |s| ==> s[i] == (edges[i].from, edges[i].to)
  {
    seq(|edges|, i requires 0 <= i < |edges| => (edges[i].from, edges[i].to))
  }

  lemma InPairs(edges: seq<Edge>, e: Edge)
    requires e in edges
    ensures (e.from, e.to) in Pairs(edges)
  {
    var i :| 0 <= i < |edges| && edges[i] == e;
    assert Pairs(edges)[i] == (e.from, e.to);
  }

  lemma OfPair(edges: seq<Edge>, u: Oid, v: Oid) returns (e: Edge)
    requires (u, v) in Pairs(edges)
    ensures e in edges && e.from == u && e.to == v
  {
    var i :| 0 <= i < |edges| && Pairs(edges)[i] == (u, v);
    e := edges[i];
  }

  ghost predicate CommitsOk(g: Graph) {
    Distinct(OidSeq(g.commits)) && forall c :: c in g.commits ==> Distinct(c.parents)
  }

  ghost predicate RefsOk(g: Graph) {
    Distinct(seq(|g.refs|, i requires 0 <= i < |g.refs| => g.refs[i].name)) && forall r :: r in g.refs ==> r.oid in Endpoints(g)
  }

  ghost predicate EdgesOk(g: Graph) {
    && Distinct(seq(|g.edges|, i requires 0 <= i < |g.edges| => g.edges[i].id)) && Distinct(Pairs(g.edges))
    && (forall e :: e in g.edges ==> e.from in Endpoints(g) && e.to in CommitOids(g))
    && (forall e, c :: e in g.edges && c in g.commits && c.oid == e.to ==> e.from in c.parents)
    && (forall c, p :: c in g.commits && p in c.parents ==> (p, c.oid) in Pairs(g.edges))
  }

  /** What the map's validator demands of a graph, beyond the shape of single fields. */
  ghost predicate WellFormed(g: Graph) {
    && CommitsOk(g) && RefsOk(g) && Distinct(BoundaryIds(g.boundaries)) && EdgesOk(g)
    && !HasCycle(ArcsOf(g.commits, CommitOids(g)))
  }
}
