/** A graph that passes through the dock's byte budget and is then refused by the map, with sizes as JSON has them. */
module DockExample {
  import opened Prelude
  import opened Topology
  import opened Collector
  import opened DockBudget
  import GraphSearch
  import MapValidation

  // ----- lengths of JSON -----

  function Sum<T>(size: T -> nat, s: seq<T>): nat {
    if s == [] then 0 else Sum(size, s[..|s| - 1]) + size(s[|s| - 1])
  }

  lemma {:induction false} SumLeast<T>(size: T -> nat, s: seq<T>, k: nat)
    requires forall x :: x in s ==> size(x) >= k
    ensures Sum(size, s) >= k * |s|
    decreases |s|
  {
    if s != [] {
      assert s[|s| - 1] in s;
      SumLeast(size, s[..|s| - 1], k);
      assert k * |s| == k * (|s| - 1) + k;
    }
  }

  lemma {:induction false} SumMost<T>(size: T -> nat, s: seq<T>, k: nat)
    requires forall x :: x in s ==> size(x) <= k
    ensures Sum(size, s) <= k * |s|
    decreases |s|
  {
    if s != [] {
      assert s[|s| - 1] in s;
      SumMost(size, s[..|s| - 1], k);
      assert k * |s| == k * (|s| - 1) + k;
    }
  }

  lemma SumOne<T>(size: T -> nat, x: T)
    ensures Sum(size, [x]) == size(x)
  {
    assert [x][..|[x]| - 1] == [];
  }

  lemma {:induction false} SumLess<T>(size: T -> nat, s: seq<T>, t: seq<T>)
    requires |s| == |t| && forall i :: 0 <= i < |s| ==> size(s[i]) <= size(t[i])
    ensures Sum(size, s) <= Sum(size, t)
    decreases |s|
  {
    if s != [] {
      var n := |s| - 1;
      assert s[..n][..] == s[..n];
      SumLess(size, s[..n], t[..n]);
    }
  }

  function OptionSize(s: Option<string>): nat {
    if s.None? then 4 else |s.value| + 2
  }

  // Entries with the comma after them.

  function CommitSize(c: Commit): nat {
    50 + OptionSize(c.authoredAt) + |c.oid| + Sum((p: Oid) => |p| + 3, c.parents) + OptionSize(c.subject)
  }

  function EdgeSize(e: Edge): nat {
    36 + |e.from| + |e.id| + |e.to|
  }

  function BoundarySize(b: Boundary): nat {
    31 + |b.id| + |b.oid| + |b.reason|
  }

  function RefSize(r: Ref): nat {
    53 + |r.display| + |r.kind| + |r.oid| + |r.name|
  }

  function GraphSize(g: Graph): nat {
    68 + Sum(CommitSize, g.commits) + Sum(EdgeSize, g.edges) + Sum(BoundarySize, g.boundaries) + Sum(RefSize, g.refs)
  }

  function ChatSize(c: Chat): nat {
    100
  }

  function LaneSize(l: Lane): nat {
    300 + |l.worktree| + |l.head| + Sum(ChatSize, l.chats)
  }

  function FactsSize(f: Facts): nat {
    300 + |f.worktree| + |f.head| + 80 * |f.bindings|
  }

  /** What stands beside the graph. */
  function FrameSize(lanes: seq<Lane>, facts: seq<Facts>, plans: nat, duplicates: nat, warnings: nat): nat {
    600 + Sum(LaneSize, lanes) + Sum(FactsSize, facts) + 2000 * plans + 100 * duplicates + 100 * warnings
  }

  function ModelSize(m: Model): nat {
    GraphSize(m.topology) + FrameSize(m.lanes, m.facts, |m.routePlans|, |m.duplicates|, |m.warnings|)
  }

  function Sizes(): Env {
    Env(ModelSize, GraphSize, ChatSize, s => None)
  }

  lemma LeastSize(g: Graph)
    requires Named(g)
    ensures LeastBytes(g) <= GraphSize(g)
  {
    forall c | c in g.commits
      ensures CommitSize(c) >= COMMIT_BYTES
    {
      assert IsOid(c.oid);
    }
    SumLeast(CommitSize, g.commits, COMMIT_BYTES);
    forall e | e in g.edges
      ensures EdgeSize(e) >= EDGE_BYTES
    {
      assert EdgeNamed(e);
    }
    SumLeast(EdgeSize, g.edges, EDGE_BYTES);
    forall b | b in g.boundaries
      ensures BoundarySize(b) >= BOUNDARY_BYTES
    {
      assert BoundaryNamed(b);
    }
    SumLeast(BoundarySize, g.boundaries, BOUNDARY_BYTES);
  }

  lemma ShorterSize(g: Graph, commits: seq<Commit>)
    requires ShortSubjects(g.commits, commits)
    ensures GraphSize(g.(commits := commits)) <= GraphSize(g)
  {
    forall i | 0 <= i < |commits|
      ensures CommitSize(commits[i]) <= CommitSize(g.commits[i])
    {
      assert ShortSubject(g.commits[i], commits[i]);
    }
    SumLess(CommitSize, commits, g.commits);
  }

  /** What the budget assumes of lengths can be met. */
  lemma SizesLawful()
    ensures Lawful(Sizes())
  {
    forall g | Named(g)
      ensures LeastBytes(g) <= Sizes().topology(g)
    {
      LeastSize(g);
    }
    forall g: Graph, commits | ShortSubjects(g.commits, commits)
      ensures Sizes().topology(g.(commits := commits)) <= Sizes().topology(g)
    {
      ShorterSize(g, commits);
    }
  }

  // ----- a merge of many parents that the repository does not have -----

  const MANY: nat := 4097
  const NOT_TOO_MANY: nat := 5000

  /** Identifiers of a merge and its parents, few enough that their boundaries fit the budget. */
  ghost predicate Wide(head: Oid, parents: seq<Oid>) {
    && IsOid(head) && |head| == 40 && !GraphSearch.ZeroOrEmpty(head) && head !in parents
    && MANY <= |parents| <= NOT_TOO_MANY && Distinct(parents) && forall p :: p in parents ==> IsOid(p) && |p| == 40
  }

  function WideInput(head: Oid, parents: seq<Oid>): Input {
    Input([], [], [], [head], [], [Row(head, parents)], map[head := Details("", "")])
  }

  /** One workspace, at the merge. */
  function WideModel(g: Graph, head: Oid): Model {
    Model(g, [Lane("w", head, true, false, [])],
          [Facts("w", head, "unknown", [], true, Passengers(0, "unknown", false, false))],
          Observation(None, false), "", [], [], [], false)
  }

  function Missing(parents: seq<Oid>): (s: seq<Boundary>)
    ensures |s| == |parents| && forall k :: 0 <= k < |s| ==> s[k] == NewBoundary(parents[k], "missing")
  {
    seq(|parents|, k requires 0 <= k < |parents| => NewBoundary(parents[k], "missing"))
  }

  lemma WideHead(g: Graph, head: Oid, parents: seq<Oid>)
    requires Wide(head, parents)
    ensures WideInput(head, parents).Tips() == {head} && HeadsOf(WideModel(g, head).facts) == {head}
  {
    assert head in WideInput(head, parents).heads;
  }

  lemma WideRows(head: Oid, parents: seq<Oid>)
    requires Wide(head, parents)
    ensures RowsOk(WideInput(head, parents).rows) && WideInput(head, parents).RetainedOids() == {head}
    ensures LooseParents(WideInput(head, parents).Retained(), {head}) == Elements(parents)
  {
    var i := WideInput(head, parents);
    assert RowOids(i.rows) == [head];
    assert i.Retained() == [Row(head, parents)];
    assert i.Retained()[0] in i.Retained();
    assert LooseParents([Row(head, parents)], {head}) == Loose(parents, {head});
  }

  lemma WideAcyclic(head: Oid, parents: seq<Oid>)
    requires Wide(head, parents)
    ensures !HasCycle(Pairs(EdgesOf(WideInput(head, parents).rows)))
  {
    var rows := WideInput(head, parents).rows;
    var arcs := Pairs(EdgesOf(rows));
    forall a | a in arcs
      ensures a.1 == head && a.0 != head
    {
      var k :| 0 <= k < |arcs| && arcs[k] == a;
      EdgesExact(rows, EdgesOf(rows)[k]);
      var r :| r in rows && r.oid == a.1 && a.0 in r.parents;
    }
    forall p | IsPath(arcs, p) && |p| > 1
      ensures p[0] != p[|p| - 1]
    {
      assert (p[0], p[0 + 1]) in arcs && (p[|p| - 2], p[|p| - 2 + 1]) in arcs;
    }
  }

  lemma WideContract(head: Oid, parents: seq<Oid>)
    requires Wide(head, parents)
    ensures GitContract(WideInput(head, parents))
  {
    WideRows(head, parents);
    WideAcyclic(head, parents);
    WideHead(Graph([], [], [], [], true), head, parents);
  }

  lemma WideMarks(head: Oid, parents: seq<Oid>)
    requires Wide(head, parents)
    ensures Marks(WideInput(head, parents)) == KeysFor("missing", Elements(parents))
  {
    var i := WideInput(head, parents);
    WideRows(head, parents);
    assert LimitMarks(i) == {} && ShallowMarks(i) == {};
    assert MissingMarks(i) == Elements(parents);
    assert parents[0] in Elements(parents);
    assert UnrelatedMarks(i) == {};
  }

  /** What the scan shows: the merge, and a boundary for each parent. */
  ghost predicate WideGraph(g: Graph, parents: seq<Oid>) {
    |g.commits| == 1 && g.refs == [] && forall b :: b in g.boundaries <==> b in Missing(parents)
  }

  lemma WideScanned(g: Graph, head: Oid, parents: seq<Oid>)
    requires Wide(head, parents) && Scanned(WideInput(head, parents), g)
    ensures WideGraph(g, parents)
  {
    WideHead(g, head, parents);
    WideMarks(head, parents);
    WideShown(g.boundaries, parents);
    WideRows(head, parents);
  }

  lemma WideShown(s: seq<Boundary>, parents: seq<Oid>)
    requires Shows(s, KeysFor("missing", Elements(parents)))
    ensures forall b :: b in s <==> b in Missing(parents)
  {
    var keys := KeysFor("missing", Elements(parents));
    forall k | 0 <= k < |parents|
      ensures Missing(parents)[k] in s
    {
      assert parents[k] in Elements(parents) && ("missing", parents[k]) in keys;
      assert NewBoundary(("missing", parents[k]).1, ("missing", parents[k]).0) in s;
    }
    forall b | b in s
      ensures b in Missing(parents)
    {
      assert (b.reason, b.oid) in keys;
      var k :| 0 <= k < |parents| && parents[k] == b.oid;
      assert Missing(parents)[k] == b;
    }
  }

  lemma OwnIds(s: seq<Boundary>)
    requires Distinct(BoundaryIds(s))
    ensures Distinct(s)
  {
    forall i, j | 0 <= i < j < |s|
      ensures s[i] != s[j]
    {
      assert BoundaryIds(s)[i] != BoundaryIds(s)[j];
    }
  }

  lemma MissingDistinct(parents: seq<Oid>)
    requires Distinct(parents)
    ensures Distinct(Missing(parents))
  {
    forall i, j | 0 <= i < j < |parents|
      ensures Missing(parents)[i] != Missing(parents)[j]
    {
      assert parents[i] != parents[j];
    }
  }

  /** A cut of that graph adds at most a boundary for the head. */
  lemma OnlyThose(g: Graph, h: Graph, head: Oid, parents: seq<Oid>)
    requires WideGraph(g, parents) && MoreBoundaries(g, h, {head}) && BoundariesNamed(h)
    ensures forall b :: b in h.boundaries ==> b in Missing(parents) || b == NewBoundary(head, "history_limit")
  {
    assert NewerOids(g) == {};
    forall b | b in h.boundaries
      ensures b in Missing(parents) || b == NewBoundary(head, "history_limit")
    {
      if b !in g.boundaries {
        assert Addable(g, {head}, b) && b == NewBoundary(b.oid, b.reason);
      }
    }
  }

  lemma CutCount(g: Graph, h: Graph, head: Oid, parents: seq<Oid>)
    requires Wide(head, parents) && WideGraph(g, parents) && MoreBoundaries(g, h, {head}) && BoundariesNamed(h)
    requires Distinct(BoundaryIds(h.boundaries))
    ensures |parents| <= |h.boundaries| <= |parents| + 1
  {
    var extra := NewBoundary(head, "history_limit");
    OnlyThose(g, h, head, parents);
    MissingDistinct(parents);
    DistinctFits(Missing(parents), Elements(h.boundaries));
    ElementsFew(h.boundaries);
    OwnIds(h.boundaries);
    DistinctFits(h.boundaries, Elements(Missing(parents)) + {extra});
    ElementsFew(Missing(parents));
  }

  lemma CutSize(g: Graph, h: Graph, head: Oid, parents: seq<Oid>)
    requires Wide(head, parents) && WideGraph(g, parents) && MoreBoundaries(g, h, {head}) && BoundariesNamed(h)
    requires Distinct(BoundaryIds(h.boundaries))
    ensures Sum(BoundarySize, h.boundaries) <= 147 * (|parents| + 1)
  {
    OnlyThose(g, h, head, parents);
    CutCount(g, h, head, parents);
    forall b | b in h.boundaries
      ensures BoundarySize(b) <= 147
    {
      if b in Missing(parents) {
        var k :| 0 <= k < |parents| && Missing(parents)[k] == b;
        assert parents[k] in parents;
      }
    }
    SumMost(BoundarySize, h.boundaries, 147);
  }

  lemma HasElement<T>(s: seq<T>)
    ensures s == [] || exists x :: x in s
  {
    if s != [] {
      assert s[0] in s;
    }
  }

  /** Without the commit the graph fits. */
  lemma BareFits(g: Graph, h: Graph, head: Oid, parents: seq<Oid>)
    requires Wide(head, parents) && WideGraph(g, parents) && CutSoFar(g, h, {head}) && h.commits == []
    ensures GraphSize(h) <= CEILING - 2048
  {
    CutSize(g, h, head, parents);
    HasElement(h.edges);
  }

  lemma FrameSmall(g: Graph, head: Oid, n: Model)
    requires |head| == 40 && LanesKept(WideModel(g, head).lanes, n.lanes) && FactsKept(WideModel(g, head).facts, n.facts)
    requires n.routePlans == [] && n.duplicates == [] && |n.warnings| <= 4
    ensures ModelSize(n) - GraphSize(n.topology) <= 2048
  {
    var lane, fact := n.lanes[0], n.facts[0];
    assert LaneKept(WideModel(g, head).lanes[0], lane) && lane.chats == [];
    assert FactKept(WideModel(g, head).facts[0], fact);
    assert n.lanes == [lane] && n.facts == [fact];
    SumOne(LaneSize, lane);
    SumOne(FactsSize, fact);
  }

  lemma WideBounded(g: Graph, head: Oid, parents: seq<Oid>, n: Model, r: Result<bool, Error>)
    requires Wide(head, parents) && WideGraph(g, parents) && HeadsOf(WideModel(g, head).facts) == {head}
    requires Outcome(Sizes(), WideModel(g, head), n, r)
    ensures r.Ok?
  {
    if r.Err? {
      if r.error == ModelTooLarge {
        NotTooLarge(g, head, n);
      } else {
        NotRefused(g, head, parents, n, r.error);
      }
    }
  }

  lemma NotTooLarge(g: Graph, head: Oid, n: Model)
    requires |head| == 40 && Kept(WideModel(g, head), n) && |n.warnings| <= 4 && GraphSize(n.topology) <= CEILING
    ensures ModelSize(n) <= MAX_MODEL_BYTES
  {
    FrameSmall(g, head, n);
  }

  lemma NotRefused(g: Graph, head: Oid, parents: seq<Oid>, n: Model, e: Error)
    requires Wide(head, parents) && WideGraph(g, parents) && CutSoFar(g, n.topology, {head})
    requires FactsKept(WideModel(g, head).facts, n.facts) && n.routePlans == [] && |n.warnings| <= 4
    ensures !Refusal(Sizes(), WideModel(g, head), n, {head}, e)
  {
    if n.topology.commits == [] {
      BareFits(g, n.topology, head, parents);
    }
    if Bare(WideModel(g, head), n) {
      BareSmall(g, head, n);
    }
  }

  lemma BareSmall(g: Graph, head: Oid, n: Model)
    requires |head| == 40 && Bare(WideModel(g, head), n)
    requires FactsKept(WideModel(g, head).facts, n.facts) && n.routePlans == [] && |n.warnings| <= 4
    ensures ModelSize(n) - GraphSize(n.topology) <= 2048
  {
    var m := WideModel(g, head);
    assert n.lanes == m.lanes;
    WholeLanesKept(m.lanes, m.warnings);
    FrameSmall(g, head, n);
  }

  /**
   * Such a graph is within Git's contract. Bounding the model that shows it succeeds, whatever it cuts, and the map then
   * refuses the graph for its boundaries.
   */
  lemma WideMergeRefused(g: Graph, head: Oid, parents: seq<Oid>, n: Model, r: Result<bool, Error>)
    requires Wide(head, parents) && Scanned(WideInput(head, parents), g)
    requires Outcome(Sizes(), WideModel(g, head), n, r)
    ensures GitContract(WideInput(head, parents)) && Lawful(Sizes())
    ensures r.Ok? && WellFormed(n.topology) && !MapValidation.WithinCounts(n.topology)
  {
    SizesLawful();
    WideContract(head, parents);
    WideHead(g, head, parents);
    WideScanned(g, head, parents);
    WideBounded(g, head, parents, n, r);
    CutCount(g, n.topology, head, parents);
  }

  // There are such merges.

  function Numbered(k: nat): (o: Oid)
    ensures IsOid(o) && |o| == 40
  {
    Hex(k + 1, 40)
  }

  function NumberedTo(n: nat): (s: seq<Oid>)
    ensures |s| == n && forall k :: 0 <= k < n ==> s[k] == Numbered(k)
  {
    seq(n, k requires 0 <= k < n => Numbered(k))
  }

  lemma NumberedDiffer(n: nat)
    requires n < 65535
    ensures Distinct(NumberedTo(n)) && Numbered(n) !in NumberedTo(n)
  {
    forall i, j | 0 <= i < j <= n
      ensures Numbered(i) != Numbered(j)
    {
      HexDiffer(i + 1, j + 1, 40);
    }
  }

  lemma NotZero(k: nat)
    requires (k + 1) % 16 != 0
    ensures !GraphSearch.ZeroOrEmpty(Numbered(k))
  {
    assert Numbered(k)[39] == Digit((k + 1) % 16);
  }

  lemma WideNumbered(n: nat)
    requires MANY <= n <= NOT_TOO_MANY && (n + 1) % 16 != 0
    ensures Wide(Numbered(n), NumberedTo(n))
  {
    NumberedDiffer(n);
    NotZero(n);
  }

  lemma WideExists()
    ensures Wide(Numbered(MANY), NumberedTo(MANY))
  {
    WideNumbered(MANY);
  }
}
