/** Building the topology graph from Git's rows, boundaries included (src/git_topology.rs). */
module Collector {
  import opened Prelude
  import opened Topology
  import opened GraphSearch
  import Kahn

  const MAX_COMMITS := 2048

  datatype Row = Row(oid: Oid, parents: seq<Oid>)
  datatype Details = Details(authoredAt: string, subject: string)

  // ----- boundaries -----

  type Key = (string, Oid)
  type Boundaries = map<Key, Boundary>

  function BoundaryId(reason: string, oid: Oid): string {
    "boundary:" + reason + ":" + oid
  }

  function NewBoundary(oid: Oid, reason: string): Boundary {
    Boundary(BoundaryId(reason, oid), oid, reason)
  }

  /** `insert_boundary`: an entry already there stays. */
  function InsertBoundary(bs: Boundaries, oid: Oid, reason: string): Boundaries {
    if (reason, oid) in bs then bs else bs[(reason, oid) := NewBoundary(oid, reason)]
  }

  /** Every entry is the boundary its key stands for. */
  ghost predicate Keyed(bs: Boundaries) {
    forall k :: k in bs ==> bs[k] == NewBoundary(k.1, k.0) && NoColon(k.0)
  }

  ghost function KeysFor(reason: string, oids: set<Oid>): set<Key> {
    set o | o in oids :: (reason, o)
  }

  /** Marking these OIDs, and nothing else, turned `before` into `bs`. */
  ghost predicate Adds(before: Boundaries, bs: Boundaries, reason: string, oids: set<Oid>) {
    Keyed(bs) && bs.Keys == before.Keys + KeysFor(reason, oids)
  }

  lemma AddsMore(before: Boundaries, mid: Boundaries, bs: Boundaries, reason: string, some: set<Oid>, more: set<Oid>)
    requires Adds(before, mid, reason, some) && Adds(mid, bs, reason, more)
    ensures Adds(before, bs, reason, some + more)
  {
    assert KeysFor(reason, some + more) == KeysFor(reason, some) + KeysFor(reason, more);
  }

  lemma AddsOne(bs: Boundaries, reason: string, oid: Oid)
    requires Keyed(bs) && NoColon(reason)
    ensures Adds(bs, InsertBoundary(bs, oid, reason), reason, {oid})
  {
  }

  method MarkAll(before: Boundaries, oids: set<Oid>, reason: string) returns (bs: Boundaries)
    requires Keyed(before) && NoColon(reason)
    ensures Adds(before, bs, reason, oids)
  {
    bs := before;
    var left := oids;
    assert Adds(before, bs, reason, {});
    while left != {}
      invariant left <= oids && Adds(before, bs, reason, oids - left)
      decreases |left|
    {
      var oid :| oid in left;
      AddsOne(bs, reason, oid);
      AddsMore(before, bs, InsertBoundary(bs, oid, reason), reason, oids - left, {oid});
      bs := InsertBoundary(bs, oid, reason);
      assert oids - (left - {oid}) == (oids - left) + {oid};
      left := left - {oid};
    }
    assert oids - left == oids;
  }

  lemma BoundaryIdInjective(reason: string, oid: Oid, reason': string, oid': Oid)
    requires NoColon(reason) && NoColon(reason') && BoundaryId(reason, oid) == BoundaryId(reason', oid')
    ensures reason == reason' && oid == oid'
  {
    var n := |"boundary:"|;
    assert BoundaryId(reason, oid)[n..] == reason + ":" + oid && BoundaryId(reason', oid')[n..] == reason' + ":" + oid';
    ColonJoinInjective(reason, oid, reason', oid');
  }

  /** The list shows exactly the entries, each once and each with an identifier of its own. */
  ghost predicate Lists(bs: Boundaries, s: seq<Boundary>) {
    && Distinct(BoundaryIds(s))
    && (forall b :: b in s ==> (b.reason, b.oid) in bs && b == bs[(b.reason, b.oid)])
    && (forall k :: k in bs ==> bs[k] in s)
  }

  method Values(bs: Boundaries) returns (s: seq<Boundary>)
    requires Keyed(bs)
    ensures Lists(bs, s)
  {
    s := [];
    var left := bs.Keys;
    while left != {}
      invariant left <= bs.Keys && Distinct(BoundaryIds(s))
      invariant forall b :: b in s ==> (b.reason, b.oid) in bs.Keys - left && b == bs[(b.reason, b.oid)]
      invariant forall k :: k in bs.Keys - left ==> bs[k] in s
      decreases |left|
    {
      var k :| k in left;
      NewId(bs, s, left, k);
      s := s + [bs[k]];
      left := left - {k};
    }
  }

  lemma NewId(bs: Boundaries, s: seq<Boundary>, left: set<Key>, k: Key)
    requires Keyed(bs) && left <= bs.Keys && k in left && Distinct(BoundaryIds(s))
    requires forall b :: b in s ==> (b.reason, b.oid) in bs.Keys - left && b == bs[(b.reason, b.oid)]
    ensures Distinct(BoundaryIds(s + [bs[k]]))
  {
    forall i | 0 <= i < |s|
      ensures s[i].id != bs[k].id
    {
      assert s[i] in s;
      if s[i].id == bs[k].id {
        BoundaryIdInjective(s[i].reason, s[i].oid, k.0, k.1);
      }
    }
  }

  // ----- edges -----

  function EdgeId(parent: Oid, child: Oid): string {
    "edge:" + parent + ":" + child
  }

  function NewEdge(parent: Oid, child: Oid): Edge {
    Edge(EdgeId(parent, child), parent, child)
  }

  function EdgesInto(row: Row, n: nat): seq<Edge>
    requires n <= |row.parents|
  {
    if n == 0 then [] else EdgesInto(row, n - 1) + [NewEdge(row.parents[n - 1], row.oid)]
  }

  function EdgesOf(rows: seq<Row>): seq<Edge> {
    if rows == [] then []
    else
      var n := |rows| - 1;
      EdgesOf(rows[..n]) + EdgesInto(rows[n], |rows[n].parents|)
  }

  ghost predicate RowLink(rows: seq<Row>, u: Oid, v: Oid) {
    exists r :: r in rows && r.oid == v && u in r.parents
  }

  lemma {:induction false} EdgesIntoExact(row: Row, n: nat)
    requires n <= |row.parents|
    ensures forall e :: e in EdgesInto(row, n) <==> e.to == row.oid && e.from in row.parents[..n] && e == NewEdge(e.from, e.to)
    ensures Distinct(row.parents) ==> Distinct(EdgesInto(row, n))
  {
    if n > 0 {
      EdgesIntoExact(row, n - 1);
      TakeMore(row.parents, n - 1);
      if Distinct(row.parents) {
        assert row.parents[n - 1] !in row.parents[..n - 1];
        JoinDistinct(EdgesInto(row, n - 1), [NewEdge(row.parents[n - 1], row.oid)]);
      }
    }
  }

  lemma {:induction false} EdgesExact(rows: seq<Row>, e: Edge)
    ensures e in EdgesOf(rows) <==> RowLink(rows, e.from, e.to) && e == NewEdge(e.from, e.to)
    decreases |rows|
  {
    if rows != [] {
      var n := |rows| - 1;
      EdgesExact(rows[..n], e);
      EdgesIntoExact(rows[n], |rows[n].parents|);
      assert rows[n].parents[..|rows[n].parents|] == rows[n].parents;
      assert rows == rows[..n] + [rows[n]];
      assert rows[n] in rows;
    }
  }

  function RowOids(rows: seq<Row>): (s: seq<Oid>)
    ensures |s| == |rows| && forall i :: 0 <= i < |s| ==> s[i] == rows[i].oid
  {
    seq(|rows|, i requires 0 <= i < |rows| => rows[i].oid)
  }

  ghost predicate RowsOk(rows: seq<Row>) {
    && Distinct(RowOids(rows)) && (forall r :: r in rows ==> Distinct(r.parents) && IsOid(r.oid))
    && (forall r, p :: r in rows && p in r.parents ==> IsOid(p))
  }

  lemma {:induction false} EdgesDistinct(rows: seq<Row>)
    requires RowsOk(rows)
    ensures Distinct(EdgesOf(rows))
    decreases |rows|
  {
    if rows != [] {
      var n := |rows| - 1;
      RowsTake(rows, n);
      EdgesDistinct(rows[..n]);
      EdgesIntoExact(rows[n], |rows[n].parents|);
      forall e | e in EdgesInto(rows[n], |rows[n].parents|)
        ensures e !in EdgesOf(rows[..n])
      {
        EdgesExact(rows[..n], e);
        assert RowOids(rows)[n] == rows[n].oid;
        assert forall i :: 0 <= i < n ==> RowOids(rows)[i] == rows[i].oid;
      }
      assert rows[n] in rows;
      JoinDistinct(EdgesOf(rows[..n]), EdgesInto(rows[n], |rows[n].parents|));
    }
  }

  lemma RowsTake(rows: seq<Row>, n: nat)
    requires RowsOk(rows) && n <= |rows|
    ensures RowsOk(rows[..n])
  {
    assert forall i :: 0 <= i < n ==> RowOids(rows[..n])[i] == RowOids(rows)[i];
  }

  ghost predicate EdgeNamed(e: Edge) {
    e == NewEdge(e.from, e.to) && IsOid(e.from) && IsOid(e.to)
  }

  lemma EdgesNamed(rows: seq<Row>, e: Edge)
    requires RowsOk(rows) && e in EdgesOf(rows)
    ensures EdgeNamed(e)
  {
    EdgesExact(rows, e);
    var r :| r in rows && r.oid == e.to && e.from in r.parents;
  }

  /** Edges have identifiers of their own, and no two join the same pair. */
  lemma EdgesSeparate(rows: seq<Row>)
    requires RowsOk(rows)
    ensures Distinct(Pairs(EdgesOf(rows)))
    ensures Distinct(seq(|EdgesOf(rows)|, i requires 0 <= i < |EdgesOf(rows)| => EdgesOf(rows)[i].id))
  {
    var edges := EdgesOf(rows);
    EdgesDistinct(rows);
    forall i, j | 0 <= i < j < |edges|
      ensures edges[i].id != edges[j].id && Pairs(edges)[i] != Pairs(edges)[j]
    {
      EdgesExact(rows, edges[i]);
      EdgesExact(rows, edges[j]);
      if edges[i].id == edges[j].id {
        EdgesNamed(rows, edges[i]);
        EdgesNamed(rows, edges[j]);
        HexHasNoColon(edges[i].from);
        HexHasNoColon(edges[j].from);
        EdgeIdInjective(edges[i].from, edges[i].to, edges[j].from, edges[j].to);
      }
    }
  }

  lemma EdgeIdInjective(a: Oid, b: Oid, c: Oid, d: Oid)
    requires NoColon(a) && NoColon(c) && EdgeId(a, b) == EdgeId(c, d)
    ensures a == c && b == d
  {
    var n := |"edge:"|;
    assert EdgeId(a, b)[n..] == a + ":" + b && EdgeId(c, d)[n..] == c + ":" + d;
    ColonJoinInjective(a, b, c, d);
  }

  ghost function LooseParents(rows: seq<Row>, retained: set<Oid>): set<Oid> {
    set r, p | r in rows && p in r.parents && p !in retained :: p
  }

  /** One edge per parent link; a parent that is not retained becomes a boundary. */
  method BuildEdges(rows: seq<Row>, retained: set<Oid>, reason: string, before: Boundaries)
    returns (edges: seq<Edge>, bs: Boundaries)
    requires Keyed(before) && NoColon(reason)
    ensures edges == EdgesOf(rows)
    ensures Adds(before, bs, reason, LooseParents(rows, retained))
  {
    edges, bs := [], before;
    assert Adds(before, bs, reason, LooseParents([], retained));
    for i := 0 to |rows|
      invariant edges == EdgesOf(rows[..i])
      invariant Adds(before, bs, reason, LooseParents(rows[..i], retained))
    {
      var into, more := EdgesOfRow(rows[i], retained, reason, bs);
      TakeMore(rows, i);
      assert rows[..i + 1][..i] == rows[..i];
      LooseMore(rows[..i], rows[i], retained);
      AddsMore(before, bs, more, reason, LooseParents(rows[..i], retained), LooseParents([rows[i]], retained));
      edges, bs := edges + into, more;
    }
    assert rows[..|rows|] == rows;
  }

  lemma LooseMore(rows: seq<Row>, row: Row, retained: set<Oid>)
    ensures LooseParents(rows + [row], retained) == LooseParents(rows, retained) + LooseParents([row], retained)
  {
  }

  ghost function Loose(parents: seq<Oid>, retained: set<Oid>): set<Oid> {
    set p | p in parents && p !in retained
  }

  method EdgesOfRow(row: Row, retained: set<Oid>, reason: string, before: Boundaries)
    returns (edges: seq<Edge>, bs: Boundaries)
    requires Keyed(before) && NoColon(reason)
    ensures edges == EdgesInto(row, |row.parents|)
    ensures Adds(before, bs, reason, LooseParents([row], retained))
  {
    edges, bs := [], before;
    assert Adds(before, bs, reason, Loose([], retained));
    for j := 0 to |row.parents|
      invariant edges == EdgesInto(row, j)
      invariant Adds(before, bs, reason, Loose(row.parents[..j], retained))
    {
      var parent := row.parents[j];
      TakeMore(row.parents, j);
      LooseOne(row.parents[..j], parent, retained);
      edges := edges + [NewEdge(parent, row.oid)];
      if parent !in retained {
        AddsOne(bs, reason, parent);
        AddsMore(before, bs, InsertBoundary(bs, parent, reason), reason, Loose(row.parents[..j], retained), {parent});
        bs := InsertBoundary(bs, parent, reason);
      }
    }
    assert row.parents[..|row.parents|] == row.parents;
    assert LooseParents([row], retained) == Loose(row.parents, retained);
  }

  lemma LooseOne(parents: seq<Oid>, parent: Oid, retained: set<Oid>)
    ensures Loose(parents + [parent], retained) == Loose(parents, retained) + if parent in retained then {} else {parent}
  {
  }

  // ----- unrelated histories -----

  function OidSet(commits: seq<Commit>): set<Oid> {
    set c | c in commits :: c.oid
  }

  /** The commits that begin an unrelated history: with two or more components, those without a retained parent. */
  ghost function Unrelated(commits: seq<Commit>, edges: seq<Edge>): set<Oid> {
    var oids := OidSet(commits);
    if Unlinked(BothWays(edges, oids), oids) then Unparented(commits, oids) else {}
  }

  ghost function RootsIn(commits: seq<Commit>, component: set<Oid>): set<Oid> {
    set c | c in commits && c.oid in component && (forall p :: p in c.parents ==> p !in component) :: c.oid
  }

  ghost function RootsOf(commits: seq<Commit>, components: seq<set<Oid>>): set<Oid> {
    set k, v | 0 <= k < |components| && v in RootsIn(commits, components[k]) :: v
  }

  method MarkRoots(commits: seq<Commit>, component: set<Oid>, before: Boundaries) returns (bs: Boundaries)
    requires Keyed(before)
    ensures Adds(before, bs, "unrelated", RootsIn(commits, component))
  {
    bs := before;
    assert Adds(before, bs, "unrelated", RootsIn([], component));
    for i := 0 to |commits|
      invariant Adds(before, bs, "unrelated", RootsIn(commits[..i], component))
    {
      var c := commits[i];
      TakeMore(commits, i);
      RootsMore(commits[..i], c, component);
      if c.oid in component && forall p :: p in c.parents ==> p !in component {
        AddsOne(bs, "unrelated", c.oid);
        AddsMore(before, bs, InsertBoundary(bs, c.oid, "unrelated"), "unrelated", RootsIn(commits[..i], component), {c.oid});
        bs := InsertBoundary(bs, c.oid, "unrelated");
      }
    }
    assert commits[..|commits|] == commits;
  }

  lemma RootsMore(commits: seq<Commit>, c: Commit, component: set<Oid>)
    ensures RootsIn(commits + [c], component) ==
            RootsIn(commits, component) +
            if c.oid in component && (forall p :: p in c.parents ==> p !in component) then {c.oid} else {}
  {
  }

  lemma RootsOfMore(commits: seq<Commit>, components: seq<set<Oid>>, component: set<Oid>)
    ensures RootsOf(commits, components + [component]) == RootsOf(commits, components) + RootsIn(commits, component)
  {
    var more := components + [component];
    forall v | v in RootsOf(commits, components) + RootsIn(commits, component)
      ensures v in RootsOf(commits, more)
    {
      if v in RootsOf(commits, components) {
        var k :| 0 <= k < |components| && v in RootsIn(commits, components[k]);
        assert more[k] == components[k];
      } else {
        assert more[|components|] == component;
      }
    }
  }

  ghost function Unparented(commits: seq<Commit>, oids: set<Oid>): set<Oid> {
    set c | c in commits && NoRetainedParent(c, oids) :: c.oid
  }

  /** The roots of the components are the commits without a retained parent. */
  lemma RootsAreUnparented(commits: seq<Commit>, edges: seq<Edge>, components: seq<set<Oid>>)
    requires EdgesAreLinks(commits, edges)
    requires ComponentsOk(BothWays(edges, OidSet(commits)), OidSet(commits), components) && Visited(components, OidSet(commits))
    ensures RootsOf(commits, components) == Unparented(commits, OidSet(commits))
  {
    var oids := OidSet(commits);
    forall v | v in RootsOf(commits, components)
      ensures v in Unparented(commits, oids)
    {
      var k :| 0 <= k < |components| && v in RootsIn(commits, components[k]);
      RootIsUnparented(commits, edges, components[k], v);
    }
    forall v | v in Unparented(commits, oids)
      ensures v in RootsOf(commits, components)
    {
      var c :| c in commits && NoRetainedParent(c, oids) && c.oid == v;
      assert v in oids && InSome(components, v);
      var k :| 0 <= k < |components| && v in components[k];
      assert Component(BothWays(edges, oids), oids, components[k]);
      assert v in RootsIn(commits, components[k]);
    }
  }

  lemma RootIsUnparented(commits: seq<Commit>, edges: seq<Edge>, component: set<Oid>, v: Oid)
    requires EdgesAreLinks(commits, edges) && Component(BothWays(edges, OidSet(commits)), OidSet(commits), component)
    requires v in RootsIn(commits, component)
    ensures v in Unparented(commits, OidSet(commits))
  {
    var c :| c in commits && c.oid in component && (forall p :: p in c.parents ==> p !in component) && c.oid == v;
    ParentsInComponent(commits, edges, OidSet(commits), component, c);
  }

  method MarkComponents(commits: seq<Commit>, components: seq<set<Oid>>, before: Boundaries) returns (bs: Boundaries)
    requires Keyed(before)
    ensures Adds(before, bs, "unrelated", RootsOf(commits, components))
  {
    bs := before;
    assert Adds(before, bs, "unrelated", RootsOf(commits, []));
    for k := 0 to |components|
      invariant Adds(before, bs, "unrelated", RootsOf(commits, components[..k]))
    {
      var more := MarkRoots(commits, components[k], bs);
      TakeMore(components, k);
      RootsOfMore(commits, components[..k], components[k]);
      AddsMore(before, bs, more, "unrelated", RootsOf(commits, components[..k]), RootsIn(commits, components[k]));
      bs := more;
    }
    assert components[..|components|] == components;
  }

  /** `mark_unrelated_components`. */
  method MarkUnrelated(commits: seq<Commit>, edges: seq<Edge>, before: Boundaries) returns (bs: Boundaries)
    requires Keyed(before) && EdgesAreLinks(commits, edges)
    ensures Adds(before, bs, "unrelated", Unrelated(commits, edges))
  {
    var oids := OidSet(commits);
    BothWaysSymmetric(edges, oids);
    var adjacency := Adjacency(edges, oids);
    var components := FindComponents(BothWays(edges, oids), oids, adjacency);
    CountSeparates(BothWays(edges, oids), oids, components);
    if |components| < 2 {
      return before;
    }
    RootsAreUnparented(commits, edges, components);
    bs := MarkComponents(commits, components, before);
  }

  // ----- the scan -----

  /** What Git reported. */
  datatype Input = Input(
    refs: seq<Ref>, omitted: seq<Oid>, unsupported: seq<Oid>, heads: seq<Oid>, shallow: seq<Oid>,
    rows: seq<Row>, enriched: map<Oid, Details>)
  {
    function Tips(): set<Oid> {
      (set r | r in refs && !ZeroOrEmpty(r.oid) :: r.oid) + (set h | h in heads && !ZeroOrEmpty(h))
    }

    predicate Truncated() {
      |rows| > MAX_COMMITS
    }

    function Retained(): seq<Row> {
      if Truncated() then rows[..MAX_COMMITS] else rows
    }

    function RetainedOids(): set<Oid> {
      set r | r in Retained() :: r.oid
    }
  }

  function Each(oids: seq<Oid>): set<Oid> {
    set o | o in oids
  }

  function CommitOf(row: Row, enriched: map<Oid, Details>): Commit {
    if row.oid in enriched
    then Commit(row.oid, row.parents, Some(enriched[row.oid].authoredAt), Some(enriched[row.oid].subject))
    else Commit(row.oid, row.parents, None, None)
  }

  function CommitsOf(rows: seq<Row>, enriched: map<Oid, Details>): (s: seq<Commit>)
    ensures |s| == |rows| && forall i :: 0 <= i < |s| ==> s[i] == CommitOf(rows[i], enriched)
  {
    seq(|rows|, i requires 0 <= i < |rows| => CommitOf(rows[i], enriched))
  }

  ghost function LimitMarks(i: Input): set<Oid> {
    Each(i.omitted) +
    if i.Truncated() then (i.Tips() - i.RetainedOids()) + LooseParents(i.Retained(), i.RetainedOids()) else {}
  }

  ghost function MissingMarks(i: Input): set<Oid> {
    Each(i.unsupported) + (i.RetainedOids() - i.enriched.Keys) +
    if i.Truncated() then {} else LooseParents(i.Retained(), i.RetainedOids())
  }

  ghost function ShallowMarks(i: Input): set<Oid> {
    set o | o in i.shallow && o in i.RetainedOids()
  }

  ghost predicate Whole(i: Input) {
    !i.Truncated() && i.omitted == [] && i.shallow == [] && MissingMarks(i) == {}
  }

  ghost function UnrelatedMarks(i: Input): set<Oid> {
    if Whole(i) then Unrelated(CommitsOf(i.Retained(), i.enriched), EdgesOf(i.Retained())) else {}
  }

  ghost function Marks(i: Input): set<Key> {
    KeysFor("history_limit", LimitMarks(i)) + KeysFor("missing", MissingMarks(i)) +
    KeysFor("shallow", ShallowMarks(i)) + KeysFor("unrelated", UnrelatedMarks(i))
  }

  /** The marks every scan makes before it looks at history. */
  ghost function RefMarks(i: Input): set<Key> {
    KeysFor("history_limit", Each(i.omitted)) + KeysFor("missing", Each(i.unsupported))
  }

  ghost predicate Shows(s: seq<Boundary>, keys: set<Key>) {
    && Distinct(BoundaryIds(s))
    && (forall b :: b in s ==> (b.reason, b.oid) in keys && b == NewBoundary(b.oid, b.reason) && NoColon(b.reason))
    && (forall k :: k in keys ==> NewBoundary(k.1, k.0) in s)
  }

  /** The graph that was built. */
  ghost predicate Scanned(i: Input, g: Graph) {
    g.refs == i.refs &&
    if i.Tips() == {} then
      && g.commits == [] && g.edges == []
      && Shows(g.boundaries, RefMarks(i))
      && (g.complete <==> i.omitted == [] && i.unsupported == [])
    else
      && g.commits == CommitsOf(i.Retained(), i.enriched) && g.edges == EdgesOf(i.Retained())
      && Shows(g.boundaries, Marks(i)) && (g.complete <==> Whole(i))
  }

  lemma KeysForJoin(reason: string, a: set<Oid>, b: set<Oid>)
    ensures KeysFor(reason, a + b) == KeysFor(reason, a) + KeysFor(reason, b)
  {
  }

  lemma ListsShow(bs: Boundaries, s: seq<Boundary>)
    requires Keyed(bs) && Lists(bs, s)
    ensures Shows(s, bs.Keys)
  {
    forall b | b in s
      ensures b == NewBoundary(b.oid, b.reason) && NoColon(b.reason)
    {
      assert (b.reason, b.oid) in bs;
    }
    forall k | k in bs.Keys
      ensures NewBoundary(k.1, k.0) in s
    {
      assert bs[k] in s;
    }
  }

  method MarkRefs(i: Input) returns (bs: Boundaries)
    ensures Keyed(bs) && bs.Keys == RefMarks(i)
  {
    bs := MarkAll(map[], Each(i.omitted), "history_limit");
    bs := MarkAll(bs, Each(i.unsupported), "missing");
  }

  /** The marks of the retained history and its edges. */
  method MarkHistory(i: Input, before: Boundaries) returns (edges: seq<Edge>, bs: Boundaries)
    requires Keyed(before)
    requires before.Keys == RefMarks(i)
    ensures edges == EdgesOf(i.Retained()) && Keyed(bs)
    ensures bs.Keys == KeysFor("history_limit", LimitMarks(i)) + KeysFor("missing", MissingMarks(i)) + KeysFor("shallow", ShallowMarks(i))
  {
    var retained := i.RetainedOids();
    var tips := if i.Truncated() then i.Tips() - retained else {};
    var bs1 := MarkAll(before, tips, "history_limit");
    var bs2 := MarkAll(bs1, set o | o in i.shallow && o in retained, "shallow");
    var reason := if i.Truncated() then "history_limit" else "missing";
    var bs3;
    edges, bs3 := BuildEdges(i.Retained(), retained, reason, bs2);
    bs := MarkAll(bs3, retained - i.enriched.Keys, "missing");
    HistoryMarks(i, tips, bs.Keys);
  }

  lemma HistoryMarks(i: Input, tips: set<Oid>, keys: set<Key>)
    requires tips == if i.Truncated() then i.Tips() - i.RetainedOids() else {}
    requires keys ==
             RefMarks(i) + KeysFor("history_limit", tips)
             + KeysFor("shallow", ShallowMarks(i))
             + KeysFor(if i.Truncated() then "history_limit" else "missing", LooseParents(i.Retained(), i.RetainedOids()))
             + KeysFor("missing", i.RetainedOids() - i.enriched.Keys)
    ensures keys == KeysFor("history_limit", LimitMarks(i)) + KeysFor("missing", MissingMarks(i)) + KeysFor("shallow", ShallowMarks(i))
  {
    var loose := LooseParents(i.Retained(), i.RetainedOids());
    var limits, gone := Each(i.omitted), Each(i.unsupported) + (i.RetainedOids() - i.enriched.Keys);
    KeysForJoin("missing", Each(i.unsupported), i.RetainedOids() - i.enriched.Keys);
    if i.Truncated() {
      assert LimitMarks(i) == limits + tips + loose && MissingMarks(i) == gone;
      KeysForJoin("history_limit", limits, tips);
      KeysForJoin("history_limit", limits + tips, loose);
    } else {
      assert LimitMarks(i) == limits && MissingMarks(i) == gone + loose;
      KeysForJoin("missing", gone, loose);
    }
  }

  lemma NoRefMarks(i: Input)
    ensures RefMarks(i) == {} <==> i.omitted == [] && i.unsupported == []
  {
    if i.omitted != [] {
      assert i.omitted[0] in Each(i.omitted) && ("history_limit", i.omitted[0]) in KeysFor("history_limit", Each(i.omitted));
    }
    if i.unsupported != [] {
      assert i.unsupported[0] in Each(i.unsupported) && ("missing", i.unsupported[0]) in KeysFor("missing", Each(i.unsupported));
    }
  }

  /** `GitTopologyCollector::scan`, from the rows Git reported. */
  method Scan(i: Input) returns (g: Graph)
    requires RowsOk(i.rows)
    ensures Scanned(i, g)
  {
    var refMarks := MarkRefs(i);
    if i.Tips() == {} {
      var early := Values(refMarks);
      ListsShow(refMarks, early);
      NoRefMarks(i);
      return Graph([], i.refs, [], early, refMarks.Keys == {});
    }
    var edges, marks := MarkHistory(i, refMarks);
    var commits := CommitsOf(i.Retained(), i.enriched);
    var missing := exists k :: k in marks && k.0 == "missing";
    MissingSeen(i, marks.Keys);
    var incomplete := i.Truncated() || i.omitted != [] || i.shallow != [] || missing;
    if !incomplete {
      RetainedLinks(i);
      marks := MarkUnrelated(commits, edges, marks);
    }
    var boundaries := Values(marks);
    ListsShow(marks, boundaries);
    g := Graph(commits, i.refs, edges, boundaries, !incomplete);
  }

  lemma MissingSeen(i: Input, keys: set<Key>)
    requires keys == KeysFor("history_limit", LimitMarks(i)) + KeysFor("missing", MissingMarks(i)) + KeysFor("shallow", ShallowMarks(i))
    ensures (exists k :: k in keys && k.0 == "missing") <==> MissingMarks(i) != {}
  {
    if o :| o in MissingMarks(i) {
      assert ("missing", o) in keys && ("missing", o).0 == "missing";
    }
  }

  lemma RetainedLinks(i: Input)
    requires RowsOk(i.rows)
    ensures EdgesAreLinks(CommitsOf(i.Retained(), i.enriched), EdgesOf(i.Retained()))
  {
    var rows, commits := i.Retained(), CommitsOf(i.Retained(), i.enriched);
    forall c, p | c in commits && p in c.parents
      ensures HasEdge(EdgesOf(rows), p, c.oid)
    {
      var k :| 0 <= k < |commits| && commits[k] == c;
      assert rows[k] in rows;
      EdgesExact(rows, NewEdge(p, c.oid));
    }
    forall e | e in EdgesOf(rows)
      ensures HasLink(commits, e.from, e.to)
    {
      EdgesExact(rows, e);
      var r :| r in rows && r.oid == e.to && e.from in r.parents;
      var k :| 0 <= k < |rows| && rows[k] == r;
      assert commits[k] in commits;
    }
  }

  // ----- what the map may rely on -----

  predicate AllOids(oids: seq<Oid>) {
    forall o :: o in oids ==> IsOid(o)
  }

  /**
   * What Git promises of its output: an acyclic history, refs to commits, and every tip among the rows unless cut off;
   * and only object identifiers where they belong, but for workspaces without a head.
   */
  ghost predicate GitContract(i: Input) {
    && AllOids(i.omitted) && AllOids(i.unsupported) && (forall r :: r in i.refs ==> IsOid(r.oid))
    && (forall h :: h in i.heads && !ZeroOrEmpty(h) ==> IsOid(h))
    && RowsOk(i.rows) && !HasCycle(Pairs(EdgesOf(i.rows)))
    && Distinct(seq(|i.refs|, k requires 0 <= k < |i.refs| => i.refs[k].name))
    && (forall r :: r in i.refs ==> !ZeroOrEmpty(r.oid))
    && (!i.Truncated() ==> i.Tips() <= i.RetainedOids())
  }

  /** Boundary identifiers are made from reason and OID. */
  ghost predicate BoundariesNamed(g: Graph) {
    forall b :: b in g.boundaries ==> b == NewBoundary(b.oid, b.reason) && NoColon(b.reason)
  }

  lemma RetainedOk(i: Input)
    requires GitContract(i)
    ensures RowsOk(i.Retained()) && !HasCycle(Pairs(EdgesOf(i.Retained())))
  {
    RowsTake(i.rows, |i.Retained()|);
    var some, all := Pairs(EdgesOf(i.Retained())), Pairs(EdgesOf(i.rows));
    forall a | a in some
      ensures a in all
    {
      var k :| 0 <= k < |some| && some[k] == a;
      var e := EdgesOf(i.Retained())[k];
      EdgesExact(i.Retained(), e);
      EdgesExact(i.rows, e);
      var n :| 0 <= n < |EdgesOf(i.rows)| && EdgesOf(i.rows)[n] == e;
      assert all[n] == a;
    }
    FewerArcs(some, all);
  }

  lemma FewerArcs(some: Arcs, all: Arcs)
    requires (forall a :: a in some ==> a in all) && !HasCycle(all)
    ensures !HasCycle(some)
  {
  }

  lemma MarkIsEndpoint(g: Graph, keys: set<Key>, reason: string, oid: Oid)
    requires Shows(g.boundaries, keys) && (reason, oid) in keys
    ensures oid in BoundaryOids(g)
  {
    assert NewBoundary((reason, oid).1, (reason, oid).0) in g.boundaries;
    var k :| 0 <= k < |g.boundaries| && g.boundaries[k] == NewBoundary(oid, reason);
    assert g.boundaries[k].oid == oid;
  }

  lemma RetainedIsCommit(i: Input, g: Graph)
    requires g.commits == CommitsOf(i.Retained(), i.enriched)
    ensures CommitOids(g) == i.RetainedOids()
  {
    forall oid | oid in i.RetainedOids()
      ensures oid in CommitOids(g)
    {
      var r :| r in i.Retained() && r.oid == oid;
      var k :| 0 <= k < |i.Retained()| && i.Retained()[k] == r;
      assert g.commits[k].oid == oid;
    }
    forall k | 0 <= k < |g.commits|
      ensures g.commits[k].oid in i.RetainedOids()
    {
      assert i.Retained()[k] in i.Retained();
    }
  }

  /** A tip is a retained commit or marks the history limit. */
  lemma TipIsEndpoint(i: Input, g: Graph, oid: Oid)
    requires Scanned(i, g) && GitContract(i) && oid in i.Tips()
    ensures oid in Endpoints(g)
  {
    RetainedIsCommit(i, g);
    if oid !in i.RetainedOids() {
      assert oid in LimitMarks(i) && ("history_limit", oid) in KeysFor("history_limit", LimitMarks(i));
      MarkIsEndpoint(g, Marks(i), "history_limit", oid);
    }
  }

  lemma ParentIsEndpoint(i: Input, g: Graph, e: Edge)
    requires Scanned(i, g) && i.Tips() != {} && e in g.edges
    ensures e.from in Endpoints(g) && e.to in CommitOids(g)
  {
    RetainedIsCommit(i, g);
    EdgesExact(i.Retained(), e);
    var r :| r in i.Retained() && r.oid == e.to && e.from in r.parents;
    if e.from !in i.RetainedOids() {
      assert e.from in LooseParents(i.Retained(), i.RetainedOids());
      if i.Truncated() {
        assert e.from in LimitMarks(i) && ("history_limit", e.from) in KeysFor("history_limit", LimitMarks(i));
        MarkIsEndpoint(g, Marks(i), "history_limit", e.from);
      } else {
        assert e.from in MissingMarks(i) && ("missing", e.from) in KeysFor("missing", MissingMarks(i));
        MarkIsEndpoint(g, Marks(i), "missing", e.from);
      }
    }
  }

  lemma ScannedCommits(i: Input, g: Graph)
    requires Scanned(i, g) && i.Tips() != {} && RowsOk(i.Retained())
    ensures CommitsOk(g)
    ensures forall e, c :: e in g.edges && c in g.commits && c.oid == e.to ==> e.from in c.parents
    ensures forall c, p :: c in g.commits && p in c.parents ==> (p, c.oid) in Pairs(g.edges)
  {
    var rows := i.Retained();
    assert OidSeq(g.commits) == RowOids(rows);
    forall c | c in g.commits
      ensures Distinct(c.parents) && exists k :: 0 <= k < |rows| && rows[k] in rows && c == CommitOf(rows[k], i.enriched)
    {
      var k :| 0 <= k < |g.commits| && g.commits[k] == c;
      assert rows[k] in rows;
    }
    forall e, c | e in g.edges && c in g.commits && c.oid == e.to
      ensures e.from in c.parents
    {
      EdgesExact(rows, e);
      var r :| r in rows && r.oid == e.to && e.from in r.parents;
      SameRow(i, rows, c, r);
    }
    forall c, p | c in g.commits && p in c.parents
      ensures (p, c.oid) in Pairs(g.edges)
    {
      EdgesExact(rows, NewEdge(p, c.oid));
      var n :| 0 <= n < |g.edges| && g.edges[n] == NewEdge(p, c.oid);
      assert Pairs(g.edges)[n] == (p, c.oid);
    }
  }

  lemma SameRow(i: Input, rows: seq<Row>, c: Commit, r: Row)
    requires RowsOk(rows) && r in rows && r.oid == c.oid
    requires exists k :: 0 <= k < |rows| && rows[k] in rows && c == CommitOf(rows[k], i.enriched)
    ensures c == CommitOf(r, i.enriched)
  {
    var k :| 0 <= k < |rows| && rows[k] in rows && c == CommitOf(rows[k], i.enriched);
    var n :| 0 <= n < |rows| && rows[n] == r;
    assert RowOids(rows)[k] == RowOids(rows)[n];
  }

  lemma ScannedAcyclic(i: Input, g: Graph)
    requires Scanned(i, g) && i.Tips() != {} && RowsOk(i.Retained()) && !HasCycle(Pairs(EdgesOf(i.Retained())))
    ensures !HasCycle(ArcsOf(g.commits, CommitOids(g)))
  {
    ScannedCommits(i, g);
    forall a | a in ArcsOf(g.commits, CommitOids(g))
      ensures a in Pairs(g.edges)
    {
      ArcsOfExact(g.commits, CommitOids(g), a.0, a.1);
      var k :| 0 <= k < |g.commits| && g.commits[k].oid == a.1 && a.0 in g.commits[k].parents;
      assert g.commits[k] in g.commits;
    }
    FewerArcs(ArcsOf(g.commits, CommitOids(g)), Pairs(g.edges));
  }

  /** Whatever Git reports within its contract, the map's validator has nothing to object to in the graph's structure. */
  lemma ScanWellFormed(i: Input, g: Graph)
    requires Scanned(i, g) && GitContract(i)
    ensures WellFormed(g) && BoundariesNamed(g)
    ensures forall h :: h in i.heads && !ZeroOrEmpty(h) ==> h in Endpoints(g)
  {
    forall r | r in g.refs
      ensures r.oid in Endpoints(g)
    {
      TipIsEndpoint(i, g, r.oid);
    }
    forall h | h in i.heads && !ZeroOrEmpty(h)
      ensures h in Endpoints(g)
    {
      TipIsEndpoint(i, g, h);
    }
    if i.Tips() == {} {
      EmptyAcyclic(g);
    } else {
      RetainedOk(i);
      EdgesSeparate(i.Retained());
      ScannedCommits(i, g);
      ScannedAcyclic(i, g);
      forall e | e in g.edges
        ensures e.from in Endpoints(g) && e.to in CommitOids(g)
      {
        ParentIsEndpoint(i, g, e);
      }
    }
  }

  lemma EmptyAcyclic(g: Graph)
    requires g.commits == []
    ensures !HasCycle(ArcsOf(g.commits, CommitOids(g)))
  {
    var arcs := ArcsOf(g.commits, CommitOids(g));
    if HasCycle(arcs) {
      var p :| IsPath(arcs, p) && |p| > 1 && p[0] == p[|p| - 1];
      FirstArc(arcs, p);
    }
  }

  lemma FirstArc(arcs: Arcs, p: seq<Oid>)
    requires IsPath(arcs, p) && |p| > 1
    ensures (p[0], p[1]) in arcs
  {
    assert (p[0], p[0 + 1]) in arcs;
  }

  /** In a whole history with unlinked parts, every part has a commit marked unrelated. */
  lemma EveryPartIsMarked(i: Input, g: Graph, v: Oid) returns (b: Boundary)
    requires Scanned(i, g) && GitContract(i) && i.Tips() != {} && Whole(i) && v in CommitOids(g)
    requires Unlinked(BothWays(g.edges, OidSet(g.commits)), OidSet(g.commits))
    ensures b in g.boundaries && b.reason == "unrelated" && Reaches(BothWays(g.edges, OidSet(g.commits)), v, b.oid)
  {
    var c := RootOf(i, g, v);
    assert c.oid in UnrelatedMarks(i) && ("unrelated", c.oid) in KeysFor("unrelated", UnrelatedMarks(i));
    b := NewBoundary(("unrelated", c.oid).1, ("unrelated", c.oid).0);
  }

  lemma RootOf(i: Input, g: Graph, v: Oid) returns (c: Commit)
    requires Scanned(i, g) && GitContract(i) && i.Tips() != {} && v in CommitOids(g)
    ensures c in g.commits && NoRetainedParent(c, OidSet(g.commits))
    ensures Reaches(BothWays(g.edges, OidSet(g.commits)), v, c.oid)
  {
    RetainedOk(i);
    RetainedLinks(i);
    RetainedIsCommit(i, g);
    ScannedAcyclic(i, g);
    OidSetIsCommitOids(g);
    var part := ReachSet(g.edges, OidSet(g.commits), v);
    c := ComponentHasRoot(g.commits, g.edges, OidSet(g.commits), part);
  }

  lemma OidSetIsCommitOids(g: Graph)
    ensures OidSet(g.commits) == CommitOids(g)
  {
    forall k | 0 <= k < |g.commits|
      ensures g.commits[k].oid in OidSet(g.commits)
    {
      assert g.commits[k] in g.commits;
    }
  }

  lemma ReachSet(edges: seq<Edge>, oids: set<Oid>, v: Oid) returns (part: set<Oid>)
    requires v in oids
    ensures Component(BothWays(edges, oids), oids, part) && forall u :: u in part ==> Reaches(BothWays(edges, oids), v, u)
  {
    var arcs := BothWays(edges, oids);
    BothWaysSymmetric(edges, oids);
    part := set u | u in oids && Reaches(arcs, v, u);
    assert IsPath(arcs, [v]);
    assert v in part;
    forall a | a in arcs && a.0 in part
      ensures a.1 in part
    {
      ReachesStep(arcs, v, a.0, a.1);
    }
    forall u, w | u in part && w in part
      ensures Reaches(arcs, u, w)
    {
      var p :| IsPath(arcs, p) && p[0] == v && p[|p| - 1] == u;
      ReachesBack(arcs, p);
      ReachesTransitive(arcs, u, v, w);
    }
  }

  // ----- object identifiers -----

  /** The reasons a graph can end for. */
  const REASONS: set<string> := {"history_limit", "missing", "shallow", "unrelated"}

  ghost predicate BoundaryNamed(b: Boundary) {
    b == NewBoundary(b.oid, b.reason) && IsOid(b.oid) && b.reason in REASONS
  }

  /** Only object identifiers where they belong, and identifiers of edges and boundaries made from them. */
  ghost predicate Named(g: Graph) {
    && (forall c :: c in g.commits ==> IsOid(c.oid)) && (forall r :: r in g.refs ==> IsOid(r.oid))
    && (forall e :: e in g.edges ==> EdgeNamed(e)) && (forall b :: b in g.boundaries ==> BoundaryNamed(b))
  }

  ghost predicate OidSetOk(oids: set<Oid>) {
    forall o :: o in oids ==> IsOid(o)
  }

  lemma RowsAreOids(rows: seq<Row>, retained: set<Oid>)
    requires RowsOk(rows)
    ensures OidSetOk(set r | r in rows :: r.oid) && OidSetOk(LooseParents(rows, retained))
  {
  }

  lemma UnrelatedAreOids(i: Input)
    requires RowsOk(i.Retained())
    ensures OidSetOk(UnrelatedMarks(i))
  {
    CommitsNamed(i.Retained(), i.enriched);
  }

  lemma TipsAreOids(i: Input)
    requires GitContract(i)
    ensures OidSetOk(i.Tips()) && OidSetOk(Each(i.omitted)) && OidSetOk(Each(i.unsupported))
  {
  }

  lemma MarksAreOids(i: Input)
    requires GitContract(i)
    ensures OidSetOk(LimitMarks(i)) && OidSetOk(MissingMarks(i)) && OidSetOk(ShallowMarks(i)) && OidSetOk(UnrelatedMarks(i))
  {
    RetainedOk(i);
    RowsAreOids(i.Retained(), i.RetainedOids());
    UnrelatedAreOids(i);
    TipsAreOids(i);
  }

  lemma KeysNamed(reason: string, oids: set<Oid>)
    requires OidSetOk(oids) && reason in REASONS
    ensures forall k :: k in KeysFor(reason, oids) ==> BoundaryNamed(NewBoundary(k.1, k.0))
  {
  }

  lemma ShownNamed(i: Input, s: seq<Boundary>)
    requires GitContract(i) && Shows(s, if i.Tips() == {} then RefMarks(i) else Marks(i))
    ensures forall b :: b in s ==> BoundaryNamed(b)
  {
    MarksAreOids(i);
    TipsAreOids(i);
    KeysNamed("history_limit", Each(i.omitted));
    KeysNamed("missing", Each(i.unsupported));
    KeysNamed("history_limit", LimitMarks(i));
    KeysNamed("missing", MissingMarks(i));
    KeysNamed("shallow", ShallowMarks(i));
    KeysNamed("unrelated", UnrelatedMarks(i));
  }

  lemma CommitsNamed(rows: seq<Row>, enriched: map<Oid, Details>)
    requires RowsOk(rows)
    ensures forall c :: c in CommitsOf(rows, enriched) ==> IsOid(c.oid)
  {
    var commits := CommitsOf(rows, enriched);
    forall c | c in commits
      ensures IsOid(c.oid)
    {
      var k :| 0 <= k < |commits| && commits[k] == c;
      assert rows[k] in rows;
    }
  }

  /** A scanned graph has object identifiers where they belong. */
  lemma ScanNamed(i: Input, g: Graph)
    requires Scanned(i, g) && GitContract(i)
    ensures Named(g)
  {
    ShownNamed(i, g.boundaries);
    if i.Tips() != {} {
      RetainedOk(i);
      forall e | e in g.edges
        ensures EdgeNamed(e)
      {
        EdgesNamed(i.Retained(), e);
      }
      CommitsNamed(i.Retained(), i.enriched);
    }
  }
}
