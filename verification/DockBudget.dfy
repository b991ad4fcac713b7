/** Cutting the dock's read model to its byte budget (src/dock.rs, `bound_model`). */
module DockBudget {
  import opened Prelude
  import opened Topology
  import opened Collector
  import GraphSearch
  import MapValidation

  const MAX_MODEL_BYTES: nat := 768 * 1024
  const ENVELOPE_RESERVE: nat := 2048
  const CEILING: nat := MAX_MODEL_BYTES - ENVELOPE_RESERVE
  const MAX_SUBJECT: nat := 512
  const SECOND: int := 1_000_000_000

  // ----- the model -----

  datatype Lifecycle = Present | Archived | Deleted | UnknownLifecycle
  datatype Chat = Chat(session: string, thread: Option<string>, lifecycle: Lifecycle)
  datatype Lane = Lane(worktree: string, head: Oid, statusObserved: bool, dirty: bool, chats: seq<Chat>)
  datatype Passengers = Passengers(observed: nat, state: string, unattendedWork: bool, cleanupReview: bool)
  datatype Facts = Facts(
    worktree: string, head: Oid, integration: string, bindings: seq<string>, bindingsComplete: bool, passengers: Passengers)
  datatype Observation = Observation(observedAt: Option<string>, complete: bool)
  datatype Warning = Warning(code: string, subject: Option<string>)

  /** The read model; `duplicates` stands for the lists that only repeat what the lanes say. */
  datatype Model = Model(
    topology: Graph, lanes: seq<Lane>, facts: seq<Facts>, observation: Observation, generatedAt: string,
    routePlans: seq<string>, duplicates: seq<string>, warnings: seq<Warning>, truncated: bool)

  /** Lengths of canonical JSON, and the instant a timestamp names. */
  datatype Env = Env(model: Model -> nat, topology: Graph -> nat, chat: Chat -> nat, instant: string -> Option<int>)

  // What an entry costs at the least in canonical JSON, with the comma after it and identifiers of 40 digits.
  const COMMIT_BYTES: nat := 94
  const EDGE_BYTES: nat := 202
  const BOUNDARY_BYTES: nat := 135

  function LeastBytes(g: Graph): nat {
    COMMIT_BYTES * |g.commits| + EDGE_BYTES * |g.edges| + BOUNDARY_BYTES * |g.boundaries|
  }

  /**
   * A model's JSON contains its topology's and changes in length with it, every entry of a graph costs its least, and
   * shorter subjects never make a graph longer.
   */
  ghost predicate Lawful(env: Env) {
    && (forall m: Model :: env.topology(m.topology) <= env.model(m))
    && (forall m: Model, t ::
          env.model(m.(topology := t)) == env.model(m) - env.topology(m.topology) + env.topology(t))
    && (forall g :: Named(g) ==> LeastBytes(g) <= env.topology(g))
    && (forall g: Graph, commits :: ShortSubjects(g.commits, commits) ==> env.topology(g.(commits := commits)) <= env.topology(g))
  }

  /** The model's bytes beside its topology. */
  function Rest(env: Env, m: Model): int {
    env.model(m) - env.topology(m.topology)
  }

  datatype Error = TopologyTooLarge | CoverageTooLarge | ModelTooLarge

  // ----- passengers -----

  /** The last report of each known thread. */
  function Latest(chats: seq<Chat>): map<string, Lifecycle> {
    if chats == [] then map[]
    else
      var n := |chats| - 1;
      if chats[n].thread.Some? then Latest(chats[..n])[chats[n].thread.value := chats[n].lifecycle] else Latest(chats[..n])
  }

  predicate Fresh(env: Env, o: Observation, now: string) {
    && o.complete && o.observedAt.Some?
    && env.instant(o.observedAt.value).Some? && env.instant(now).Some?
    && 0 <= env.instant(now).value - env.instant(o.observedAt.value).value <= 120 * SECOND
  }

  function PassengerState(env: Env, lane: Lane, o: Observation, now: string): string {
    var chats := Latest(lane.chats);
    if !Fresh(env, o, now) then "unknown"
    else if exists t :: t in chats && chats[t] == Present then "occupied"
    else if exists t :: t in chats && chats[t] == UnknownLifecycle then "unknown"
    else "unattended"
  }

  function PassengerSummary(env: Env, lane: Lane, o: Observation, now: string, integration: string): Passengers {
    var chats := Latest(lane.chats);
    var state := PassengerState(env, lane, o, now);
    Passengers(
      |set t | t in chats && chats[t] == Present|, state,
      state == "unattended" && ((lane.statusObserved && lane.dirty) || integration == "ahead"),
      state == "unattended" && lane.statusObserved && !lane.dirty && integration == "included")
  }

  /** Later reports of the thread than the one at `i`. */
  ghost predicate ReportedAgain(chats: seq<Chat>, i: nat)
    requires i < |chats|
  {
    exists j :: i < j < |chats| && chats[j].thread == chats[i].thread
  }

  lemma {:induction false} LatestAt(chats: seq<Chat>, i: nat)
    requires i < |chats| && chats[i].thread.Some? && !ReportedAgain(chats, i)
    ensures chats[i].thread.value in Latest(chats) && Latest(chats)[chats[i].thread.value] == chats[i].lifecycle
    decreases |chats|
  {
    var n := |chats| - 1;
    if i < n {
      assert chats[..n][i] == chats[i];
      LatestAt(chats[..n], i);
      assert chats[n].thread != chats[i].thread;
    }
  }

  lemma {:induction false} LatestFrom(chats: seq<Chat>, t: string) returns (i: nat)
    requires t in Latest(chats)
    ensures i < |chats| && chats[i].thread == Some(t)
    decreases |chats|
  {
    var n := |chats| - 1;
    if chats[n].thread == Some(t) {
      i := n;
    } else {
      i := LatestFrom(chats[..n], t);
    }
  }

  /**
   * A workspace reads "unattended" exactly when a recent and complete observation shows the last report of every known
   * thread to be archived or deleted.
   */
  lemma UnattendedExact(env: Env, lane: Lane, o: Observation, now: string)
    ensures PassengerState(env, lane, o, now) == "unattended" <==>
            Fresh(env, o, now)
            && forall i :: 0 <= i < |lane.chats| && lane.chats[i].thread.Some? && !ReportedAgain(lane.chats, i) ==>
                 lane.chats[i].lifecycle == Archived || lane.chats[i].lifecycle == Deleted
  {
    var chats := Latest(lane.chats);
    forall i | 0 <= i < |lane.chats| && lane.chats[i].thread.Some? && !ReportedAgain(lane.chats, i)
      ensures lane.chats[i].thread.value in chats && chats[lane.chats[i].thread.value] == lane.chats[i].lifecycle
    {
      LatestAt(lane.chats, i);
    }
    forall t | t in chats
      ensures exists i :: 0 <= i < |lane.chats| && lane.chats[i].thread == Some(t) && !ReportedAgain(lane.chats, i)
    {
      var i := LatestFrom(lane.chats, t);
      var k := LastReport(lane.chats, i);
    }
  }

  lemma {:induction false} LastReport(chats: seq<Chat>, i: nat) returns (k: nat)
    requires i < |chats|
    ensures i <= k < |chats| && chats[k].thread == chats[i].thread && !ReportedAgain(chats, k)
    decreases |chats| - i
  {
    if ReportedAgain(chats, i) {
      var j :| i < j < |chats| && chats[j].thread == chats[i].thread;
      k := LastReport(chats, j);
    } else {
      k := i;
    }
  }

  // ----- cutting the graph -----

  /** What the consumer relies on: a well-formed graph with named boundaries in which every head has a place. */
  ghost predicate Sound(g: Graph, heads: set<Oid>) {
    WellFormed(g) && BoundariesNamed(g) && heads <= Endpoints(g)
  }

  ghost predicate SameCommit(a: Commit, b: Commit) {
    a.oid == b.oid && a.parents == b.parents
  }

  /** The newest commits of `g`, with no more detail than before. */
  ghost predicate Trimmed(g: Graph, h: Graph) {
    && h.refs == g.refs && |h.commits| <= |g.commits|
    && forall i :: 0 <= i < |h.commits| ==> SameCommit(h.commits[i], g.commits[i])
  }

  function EdgesTo(edges: seq<Edge>, oids: set<Oid>): seq<Edge> {
    if edges == [] then []
    else
      var n := |edges| - 1;
      EdgesTo(edges[..n], oids) + if edges[n].to in oids then [edges[n]] else []
  }

  /** The commits that are not the last to be shown, and so may outlive another. */
  ghost function NewerOids(g: Graph): set<Oid> {
    set i | 0 <= i < |g.commits| - 1 :: g.commits[i].oid
  }

  /** The cut may add this boundary: for a head, a ref, or a parent of a commit that can outlive it. */
  ghost predicate Addable(g: Graph, heads: set<Oid>, b: Boundary) {
    && b.reason == "history_limit"
    && (b.oid in heads || (exists r :: r in g.refs && r.oid == b.oid)
        || (exists e :: e in g.edges && e.from == b.oid && e.to in NewerOids(g)))
  }

  /** A boundary is added only for something that lost its commit. */
  ghost predicate Justified(h: Graph, heads: set<Oid>, b: Boundary) {
    && b.reason == "history_limit" && b.oid !in CommitOids(h)
    && (b.oid in heads || (exists r :: r in h.refs && r.oid == b.oid) || (exists e :: e in h.edges && e.from == b.oid))
  }

  ghost predicate CutTo(g: Graph, h: Graph, heads: set<Oid>) {
    && Trimmed(g, h) && h.edges == EdgesTo(g.edges, CommitOids(h))
    && BoundariesNamed(h) && Distinct(BoundaryIds(h.boundaries))
    && (forall b :: b in g.boundaries ==> b in h.boundaries)
    && (forall b :: b in h.boundaries ==> b in g.boundaries || Justified(h, heads, b))
    && (forall e :: e in h.edges ==> e.from in Endpoints(h)) && (forall r :: r in h.refs ==> r.oid in Endpoints(h))
    && heads <= Endpoints(h)
  }

  lemma {:induction false} EdgesToExact(edges: seq<Edge>, oids: set<Oid>)
    ensures forall e :: e in EdgesTo(edges, oids) <==> e in edges && e.to in oids
    ensures Distinct(Pairs(edges)) ==> Distinct(Pairs(EdgesTo(edges, oids)))
    ensures Distinct(IdsOf(edges)) ==> Distinct(IdsOf(EdgesTo(edges, oids)))
    decreases |edges|
  {
    if edges != [] {
      var n := |edges| - 1;
      EdgesToExact(edges[..n], oids);
      assert edges == edges[..n] + [edges[n]];
      if edges[n].to in oids {
        AppendEdge(edges, EdgesTo(edges[..n], oids));
      } else {
        assert forall i :: 0 <= i < n ==> Pairs(edges[..n])[i] == Pairs(edges)[i] && IdsOf(edges[..n])[i] == IdsOf(edges)[i];
        assert EdgesTo(edges, oids) == EdgesTo(edges[..n], oids);
      }
    }
  }

  function IdsOf(edges: seq<Edge>): (s: seq<string>)
    ensures |s| == |edges| && forall i :: 0 <= i < |s| ==> s[i] == edges[i].id
  {
    seq(|edges|, i requires 0 <= i < |edges| => edges[i].id)
  }

  lemma AppendEdge(edges: seq<Edge>, some: seq<Edge>)
    requires edges != [] && forall e :: e in some ==> e in edges[..|edges| - 1]
    ensures Distinct(Pairs(edges)) && Distinct(Pairs(some)) ==> Distinct(Pairs(some + [edges[|edges| - 1]]))
    ensures Distinct(IdsOf(edges)) && Distinct(IdsOf(some)) ==> Distinct(IdsOf(some + [edges[|edges| - 1]]))
    ensures Distinct(Pairs(edges)) ==> Distinct(Pairs(edges[..|edges| - 1]))
    ensures Distinct(IdsOf(edges)) ==> Distinct(IdsOf(edges[..|edges| - 1]))
  {
    var n := |edges| - 1;
    assert forall i :: 0 <= i < n ==> Pairs(edges[..n])[i] == Pairs(edges)[i] && IdsOf(edges[..n])[i] == IdsOf(edges)[i];
    forall k | 0 <= k < |some|
      ensures Distinct(Pairs(edges)) ==> Pairs(some)[k] != Pairs(edges)[n]
      ensures Distinct(IdsOf(edges)) ==> some[k].id != edges[n].id
    {
      assert some[k] in some && some[k] in edges[..n];
      var i :| 0 <= i < n && edges[i] == some[k];
      assert Pairs(edges)[i] == Pairs(some)[k] && IdsOf(edges)[i] == some[k].id && IdsOf(edges)[n] == edges[n].id;
    }
  }

  /** Trimming adds no parent link among retained commits. */
  lemma TrimmedAcyclic(g: Graph, h: Graph)
    requires Trimmed(g, h) && !HasCycle(ArcsOf(g.commits, CommitOids(g)))
    ensures !HasCycle(ArcsOf(h.commits, CommitOids(h)))
  {
    TrimmedOids(g, h);
    forall a | a in ArcsOf(h.commits, CommitOids(h))
      ensures a in ArcsOf(g.commits, CommitOids(g))
    {
      ArcsOfExact(h.commits, CommitOids(h), a.0, a.1);
      ArcsOfExact(g.commits, CommitOids(g), a.0, a.1);
      var k :| 0 <= k < |h.commits| && h.commits[k].oid == a.1 && a.0 in CommitOids(h) && a.0 in h.commits[k].parents;
      assert SameCommit(h.commits[k], g.commits[k]);
    }
    FewerArcs(ArcsOf(h.commits, CommitOids(h)), ArcsOf(g.commits, CommitOids(g)));
  }

  lemma TrimmedOids(g: Graph, h: Graph)
    requires Trimmed(g, h)
    ensures CommitOids(h) <= CommitOids(g)
  {
    forall i | 0 <= i < |h.commits|
      ensures h.commits[i].oid in CommitOids(g)
    {
      assert SameCommit(h.commits[i], g.commits[i]);
    }
  }

  ghost predicate HasTwin(g: Graph, c: Commit) {
    exists d :: d in g.commits && SameCommit(c, d)
  }

  lemma TrimmedCommits(g: Graph, h: Graph)
    requires Trimmed(g, h) && CommitsOk(g)
    ensures CommitsOk(h)
    ensures forall c :: c in h.commits ==> HasTwin(g, c)
  {
    forall i | 0 <= i < |h.commits|
      ensures OidSeq(h.commits)[i] == OidSeq(g.commits)[i]
    {
      assert SameCommit(h.commits[i], g.commits[i]);
    }
    forall c | c in h.commits
      ensures Distinct(c.parents) && HasTwin(g, c)
    {
      var i :| 0 <= i < |h.commits| && h.commits[i] == c;
      assert SameCommit(h.commits[i], g.commits[i]) && g.commits[i] in g.commits;
    }
  }

  lemma CutEdgesDistinct(g: Graph, h: Graph)
    requires EdgesOk(g) && h.edges == EdgesTo(g.edges, CommitOids(h))
    ensures Distinct(Pairs(h.edges))
    ensures Distinct(seq(|h.edges|, i requires 0 <= i < |h.edges| => h.edges[i].id))
  {
    EdgesToExact(g.edges, CommitOids(h));
    assert IdsOf(g.edges) == seq(|g.edges|, i requires 0 <= i < |g.edges| => g.edges[i].id);
    assert IdsOf(h.edges) == seq(|h.edges|, i requires 0 <= i < |h.edges| => h.edges[i].id);
  }

  lemma CutLinks(g: Graph, h: Graph)
    requires EdgesOk(g) && Trimmed(g, h) && CommitsOk(g) && h.edges == EdgesTo(g.edges, CommitOids(h))
    ensures forall e, c :: e in h.edges && c in h.commits && c.oid == e.to ==> e.from in c.parents
    ensures forall c, p :: c in h.commits && p in c.parents ==> (p, c.oid) in Pairs(h.edges)
  {
    EdgesToExact(g.edges, CommitOids(h));
    TrimmedCommits(g, h);
    forall e, c | e in h.edges && c in h.commits && c.oid == e.to
      ensures e.from in c.parents
    {
      EdgeFromParent(g, c, e);
    }
    forall c, p | c in h.commits && p in c.parents
      ensures (p, c.oid) in Pairs(h.edges)
    {
      EdgeStays(g, h, c, p);
    }
  }

  lemma CutEdges(g: Graph, h: Graph, heads: set<Oid>)
    requires WellFormed(g) && CutTo(g, h, heads)
    ensures EdgesOk(h)
  {
    CutEdgesDistinct(g, h);
    CutLinks(g, h);
    EdgesEnd(g, h);
  }

  lemma EdgeFromParent(g: Graph, c: Commit, e: Edge)
    requires EdgesOk(g) && HasTwin(g, c) && e in g.edges && c.oid == e.to
    ensures e.from in c.parents
  {
    var d :| d in g.commits && SameCommit(c, d);
  }

  lemma EdgesEnd(g: Graph, h: Graph)
    requires h.edges == EdgesTo(g.edges, CommitOids(h))
    ensures forall e :: e in h.edges ==> e.to in CommitOids(h)
  {
    EdgesToExact(g.edges, CommitOids(h));
  }

  lemma TwinEdge(g: Graph, c: Commit, p: Oid) returns (e: Edge)
    requires EdgesOk(g) && HasTwin(g, c) && p in c.parents
    ensures e in g.edges && e.from == p && e.to == c.oid
  {
    var d :| d in g.commits && SameCommit(c, d);
    e := OfPair(g.edges, p, d.oid);
  }

  /** The edge of a retained parent link is retained. */
  lemma EdgeStays(g: Graph, h: Graph, c: Commit, p: Oid)
    requires EdgesOk(g) && h.edges == EdgesTo(g.edges, CommitOids(h))
    requires c in h.commits && HasTwin(g, c) && p in c.parents
    ensures (p, c.oid) in Pairs(h.edges)
  {
    var e := TwinEdge(g, c, p);
    var k :| 0 <= k < |h.commits| && h.commits[k] == c;
    assert h.commits[k].oid in CommitOids(h);
    EdgesToExact(g.edges, CommitOids(h));
    InPairs(h.edges, e);
  }

  /** A cut keeps the graph sound. */
  lemma CutKeepsSound(g: Graph, h: Graph, heads: set<Oid>)
    requires WellFormed(g) && CutTo(g, h, heads)
    ensures Sound(h, heads)
  {
    TrimmedCommits(g, h);
    TrimmedAcyclic(g, h);
    CutEdges(g, h, heads);
  }

  lemma {:induction false} EdgesToAll(edges: seq<Edge>, oids: set<Oid>)
    requires forall e :: e in edges ==> e.to in oids
    ensures EdgesTo(edges, oids) == edges
    decreases |edges|
  {
    if edges != [] {
      var n := |edges| - 1;
      assert edges[n] in edges;
      EdgesToAll(edges[..n], oids);
      assert edges == edges[..n] + [edges[n]];
    }
  }

  /** Dropping detail is a cut that drops nothing else. */
  lemma DetailIsCut(g: Graph, commits: seq<Commit>, heads: set<Oid>)
    requires EdgesOk(g) && RefsOk(g) && Distinct(BoundaryIds(g.boundaries)) && BoundariesNamed(g) && heads <= Endpoints(g)
    requires |commits| == |g.commits| && Trimmed(g, g.(commits := commits))
    ensures CutTo(g, g.(commits := commits), heads)
  {
    var h := g.(commits := commits);
    SameOids(g, h);
    AllEdgesStay(g);
  }

  lemma AllEdgesStay(g: Graph)
    requires EdgesOk(g)
    ensures EdgesTo(g.edges, CommitOids(g)) == g.edges
  {
    EdgesToAll(g.edges, CommitOids(g));
  }

  lemma SameOids(g: Graph, h: Graph)
    requires Trimmed(g, h) && |h.commits| == |g.commits|
    ensures CommitOids(h) == CommitOids(g)
  {
    forall i | 0 <= i < |h.commits|
      ensures h.commits[i].oid == g.commits[i].oid
    {
      assert SameCommit(h.commits[i], g.commits[i]);
    }
  }

  lemma DetailKeepsSound(g: Graph, commits: seq<Commit>, heads: set<Oid>)
    requires Sound(g, heads) && |commits| == |g.commits| && Trimmed(g, g.(commits := commits))
    ensures Sound(g.(commits := commits), heads)
  {
    DetailIsCut(g, commits, heads);
    CutKeepsSound(g, g.(commits := commits), heads);
  }

  // ----- rebuilding the boundaries -----

  ghost predicate Gathered(s: seq<Boundary>, bs: Boundaries) {
    && Keyed(bs) && (forall b :: b in s ==> (b.reason, b.oid) in bs && bs[(b.reason, b.oid)] == b)
    && (forall k :: k in bs ==> bs[k] in s)
  }

  method Gather(s: seq<Boundary>) returns (bs: Boundaries)
    requires forall b :: b in s ==> b == NewBoundary(b.oid, b.reason) && NoColon(b.reason)
    ensures Gathered(s, bs)
  {
    bs := map[];
    for i := 0 to |s|
      invariant Gathered(s[..i], bs)
    {
      assert s[i] in s;
      TakeMore(s, i);
      bs := bs[(s[i].reason, s[i].oid) := s[i]];
    }
    assert s[..|s|] == s;
  }

  method Retain(edges: seq<Edge>, oids: set<Oid>) returns (kept: seq<Edge>)
    ensures kept == EdgesTo(edges, oids)
  {
    kept := [];
    for i := 0 to |edges|
      invariant kept == EdgesTo(edges[..i], oids)
    {
      TakeMore(edges, i);
      assert edges[..i + 1][..i] == edges[..i];
      if edges[i].to in oids {
        kept := kept + [edges[i]];
      }
    }
    assert edges[..|edges|] == edges;
  }

  function LostParents(edges: seq<Edge>, oids: set<Oid>): set<Oid> {
    set e | e in edges && e.from !in oids :: e.from
  }

  function LostRefs(refs: seq<Ref>, oids: set<Oid>): set<Oid> {
    set r | r in refs && r.oid !in oids :: r.oid
  }

  function GraphOids(commits: seq<Commit>): set<Oid> {
    set c | c in commits :: c.oid
  }

  lemma GraphOidsExact(g: Graph)
    ensures GraphOids(g.commits) == CommitOids(g)
  {
    forall k | 0 <= k < |g.commits|
      ensures g.commits[k].oid in GraphOids(g.commits)
    {
      assert g.commits[k] in g.commits;
    }
  }

  lemma RebuiltIsCut(g: Graph, h: Graph, heads: set<Oid>, bs0: Boundaries, bs: Boundaries)
    requires Trimmed(g, h) && h.edges == EdgesTo(g.edges, CommitOids(h)) && Gathered(g.boundaries, bs0)
    requires Lists(bs, h.boundaries)
    requires Adds(bs0, bs, "history_limit",
                  LostParents(h.edges, CommitOids(h)) + LostRefs(h.refs, CommitOids(h)) + (heads - CommitOids(h)))
    ensures CutTo(g, h, heads)
  {
    var oids := CommitOids(h);
    var lost := LostParents(h.edges, oids) + LostRefs(h.refs, oids) + (heads - oids);
    forall v | v in lost
      ensures v in BoundaryOids(h)
    {
      LostIsBoundary(h, bs, v, lost, bs0);
    }
    OldBoundariesStay(g, h, bs0, bs, lost);
    forall b | b in h.boundaries
      ensures b == NewBoundary(b.oid, b.reason) && NoColon(b.reason) && (b in g.boundaries || Justified(h, heads, b))
    {
      NewBoundaryFor(g, h, heads, bs0, bs, b);
    }
  }

  lemma OldBoundariesStay(g: Graph, h: Graph, bs0: Boundaries, bs: Boundaries, lost: set<Oid>)
    requires Gathered(g.boundaries, bs0) && Lists(bs, h.boundaries) && Adds(bs0, bs, "history_limit", lost)
    ensures forall b :: b in g.boundaries ==> b in h.boundaries
  {
    forall b | b in g.boundaries
      ensures b in h.boundaries
    {
      assert bs[(b.reason, b.oid)] in h.boundaries;
    }
  }

  lemma NewBoundaryFor(g: Graph, h: Graph, heads: set<Oid>, bs0: Boundaries, bs: Boundaries, b: Boundary)
    requires Gathered(g.boundaries, bs0) && Lists(bs, h.boundaries) && b in h.boundaries
    requires Adds(bs0, bs, "history_limit",
                  LostParents(h.edges, CommitOids(h)) + LostRefs(h.refs, CommitOids(h)) + (heads - CommitOids(h)))
    ensures b == NewBoundary(b.oid, b.reason) && NoColon(b.reason) && (b in g.boundaries || Justified(h, heads, b))
  {
    var lost := LostParents(h.edges, CommitOids(h)) + LostRefs(h.refs, CommitOids(h)) + (heads - CommitOids(h));
    if (b.reason, b.oid) in bs0 {
      assert bs0[(b.reason, b.oid)] in g.boundaries;
    } else {
      assert (b.reason, b.oid) in KeysFor("history_limit", lost);
    }
  }

  lemma LostIsBoundary(h: Graph, bs: Boundaries, v: Oid, lost: set<Oid>, bs0: Boundaries)
    requires Lists(bs, h.boundaries) && Adds(bs0, bs, "history_limit", lost) && v in lost
    ensures v in BoundaryOids(h)
  {
    assert ("history_limit", v) in KeysFor("history_limit", lost);
    assert bs[("history_limit", v)] in h.boundaries;
    var k :| 0 <= k < |h.boundaries| && h.boundaries[k] == bs[("history_limit", v)];
    assert h.boundaries[k].oid == v;
  }

  // ----- the budget -----

  /** The longest cut of at most `MAX_SUBJECT` bytes that splits no character. */
  method CutPoint(s: string) returns (end: nat)
    requires |s| > MAX_SUBJECT
    ensures end <= MAX_SUBJECT && CharBoundary(s, end)
    ensures forall j :: end < j <= MAX_SUBJECT ==> !CharBoundary(s, j)
  {
    end := MAX_SUBJECT;
    while !CharBoundary(s, end)
      invariant end <= MAX_SUBJECT
      invariant forall j :: end < j <= MAX_SUBJECT ==> !CharBoundary(s, j)
      decreases end
    {
      end := end - 1;
    }
  }

  ghost predicate ShortSubject(before: Commit, after: Commit) {
    && SameCommit(before, after) && after.authoredAt == before.authoredAt
    && if before.subject.Some? && |before.subject.value| > MAX_SUBJECT
       then after.subject.Some? && |after.subject.value| <= MAX_SUBJECT && after.subject.value <= before.subject.value
       else after.subject == before.subject
  }

  ghost predicate ShortSubjects(before: seq<Commit>, after: seq<Commit>) {
    |after| == |before| && forall i :: 0 <= i < |before| ==> ShortSubject(before[i], after[i])
  }

  method TrimSubjects(commits: seq<Commit>) returns (short: seq<Commit>, truncated: bool)
    ensures ShortSubjects(commits, short)
    ensures !truncated ==> short == commits
  {
    short, truncated := [], false;
    for i := 0 to |commits|
      invariant |short| == i && forall k :: 0 <= k < i ==> ShortSubject(commits[k], short[k])
      invariant !truncated ==> short == commits[..i]
    {
      var c := commits[i];
      TakeMore(commits, i);
      if c.subject.Some? && |c.subject.value| > MAX_SUBJECT {
        var end := CutPoint(c.subject.value);
        c := c.(subject := Some(c.subject.value[..end]));
        truncated := true;
      }
      short := short + [c];
    }
  }

  function NoSubjects(commits: seq<Commit>): (s: seq<Commit>)
    ensures |s| == |commits| && forall i :: 0 <= i < |s| ==> s[i] == commits[i].(subject := None)
  {
    seq(|commits|, i requires 0 <= i < |commits| => commits[i].(subject := None))
  }

  function NoTimes(commits: seq<Commit>): (s: seq<Commit>)
    ensures |s| == |commits| && forall i :: 0 <= i < |s| ==> s[i] == commits[i].(authoredAt := None)
  {
    seq(|commits|, i requires 0 <= i < |commits| => commits[i].(authoredAt := None))
  }

  /**
   * A step of the cut: sound, no newer commit or edge, the same refs, no boundary lost and none added without need, and
   * "complete" only while every commit is there.
   */
  ghost predicate CutSoFar(g: Graph, h: Graph, heads: set<Oid>) {
    && Sound(h, heads) && Trimmed(g, h) && FewerEdges(g, h) && MoreBoundaries(g, h, heads)
    && (h.complete ==> g.complete && |h.commits| == |g.commits|)
  }

  ghost predicate FewerEdges(g: Graph, h: Graph) {
    forall e :: e in h.edges ==> e in g.edges
  }

  ghost predicate MoreBoundaries(g: Graph, h: Graph, heads: set<Oid>) {
    && (forall b :: b in g.boundaries ==> b in h.boundaries)
    && (forall b :: b in h.boundaries ==> b in g.boundaries || Addable(g, heads, b))
  }

  lemma DropDetail(g: Graph, h: Graph, commits: seq<Commit>, heads: set<Oid>)
    requires CutSoFar(g, h, heads) && |commits| == |h.commits|
    requires forall i :: 0 <= i < |commits| ==> SameCommit(h.commits[i], commits[i])
    ensures CutSoFar(g, h.(commits := commits), heads)
  {
    forall i | 0 <= i < |commits|
      ensures SameCommit(commits[i], h.commits[i]) && SameCommit(commits[i], g.commits[i])
    {
      assert SameCommit(h.commits[i], g.commits[i]) && SameCommit(h.commits[i], commits[i]);
    }
    DetailKeepsSound(h, commits, heads);
  }

  lemma CutMore(g: Graph, h: Graph, next: Graph, heads: set<Oid>)
    requires CutSoFar(g, h, heads) && CutTo(h, next, heads) && !next.complete && |next.commits| < |h.commits|
    ensures CutSoFar(g, next, heads)
  {
    CutKeepsSound(h, next, heads);
    EdgesToExact(h.edges, CommitOids(next));
    CutBoundaries(g, h, next, heads);
    forall i | 0 <= i < |next.commits|
      ensures SameCommit(next.commits[i], g.commits[i])
    {
      assert SameCommit(next.commits[i], h.commits[i]) && SameCommit(h.commits[i], g.commits[i]);
    }
  }

  lemma CutBoundaries(g: Graph, h: Graph, next: Graph, heads: set<Oid>)
    requires MoreBoundaries(g, h, heads) && FewerEdges(g, h) && CutTo(h, next, heads) && |next.commits| < |h.commits|
    requires Trimmed(g, h) && FewerEdges(h, next)
    ensures MoreBoundaries(g, next, heads)
  {
    forall b | b in next.boundaries
      ensures b in g.boundaries || Addable(g, heads, b)
    {
      if b !in h.boundaries && !(b.oid in heads || exists r :: r in next.refs && r.oid == b.oid) {
        var e :| e in next.edges && e.from == b.oid;
        EdgesToExact(h.edges, CommitOids(next));
        StaysNewer(g, h, next, e.to);
      }
    }
  }

  lemma StaysNewer(g: Graph, h: Graph, next: Graph, oid: Oid)
    requires Trimmed(g, h) && Trimmed(h, next) && |next.commits| < |h.commits| && oid in CommitOids(next)
    ensures oid in NewerOids(g)
  {
    var i :| 0 <= i < |next.commits| && next.commits[i].oid == oid;
    assert SameCommit(next.commits[i], h.commits[i]) && SameCommit(h.commits[i], g.commits[i]);
  }

  // ----- the rest of the model -----

  /** The lane is the same but for the chats that were left out. */
  ghost predicate LaneKept(before: Lane, after: Lane) {
    after == before.(chats := after.chats) && Subsequence(after.chats, before.chats)
  }

  ghost predicate LanesKept(before: seq<Lane>, after: seq<Lane>) {
    |after| == |before| && forall i :: 0 <= i < |before| ==> LaneKept(before[i], after[i])
  }

  ghost predicate Subsequence<T>(a: seq<T>, b: seq<T>) {
    a == [] ||
    (b != [] && ((a[|a| - 1] == b[|b| - 1] && Subsequence(a[..|a| - 1], b[..|b| - 1])) || Subsequence(a, b[..|b| - 1])))
  }

  lemma {:induction false} SubsequenceSelf<T>(a: seq<T>)
    ensures Subsequence(a, a)
    decreases |a|
  {
    if a != [] {
      SubsequenceSelf(a[..|a| - 1]);
    }
  }

  /** The facts are the same but for bindings and passengers. */
  ghost predicate FactsKept(before: seq<Facts>, after: seq<Facts>) {
    |after| == |before| && forall i :: 0 <= i < |before| ==> FactKept(before[i], after[i])
  }

  ghost predicate FactKept(before: Facts, after: Facts) {
    && after == before.(bindings := after.bindings, bindingsComplete := after.bindingsComplete, passengers := after.passengers)
    && (after.bindings == before.bindings || (after.bindings == [] && !after.bindingsComplete))
    && (after.bindingsComplete ==> before.bindingsComplete)
  }

  function HeadsOf(facts: seq<Facts>): set<Oid> {
    set f | f in facts && !GraphSearch.ZeroOrEmpty(f.head) :: f.head
  }

  lemma HeadsStay(before: seq<Facts>, after: seq<Facts>)
    requires FactsKept(before, after)
    ensures HeadsOf(after) == HeadsOf(before)
  {
    forall i | 0 <= i < |before|
      ensures FactKept(before[i], after[i]) && before[i] in before && after[i] in after
    {
    }
  }

  // ----- chats and warnings -----

  lemma SubsequencePush<T>(a: seq<T>, b: seq<T>, x: T)
    requires Subsequence(a, b)
    ensures Subsequence(a, b + [x]) && Subsequence(a + [x], b + [x])
  {
    assert (b + [x])[..|b|] == b && (a + [x])[..|a|] == a;
  }

  /** Keeps, in order, every chat that still fits. */
  method KeepChats(env: Env, chats: seq<Chat>, budget: nat) returns (kept: seq<Chat>, left: nat)
    ensures Subsequence(kept, chats) && (|kept| == |chats| ==> kept == chats) && left <= budget
  {
    kept, left := [], budget;
    for i := 0 to |chats|
      invariant Subsequence(kept, chats[..i]) && |kept| <= i && (|kept| == i ==> kept == chats[..i]) && left <= budget
    {
      TakeMore(chats, i);
      SubsequencePush(kept, chats[..i], chats[i]);
      var size := env.chat(chats[i]) + 1;
      if size <= left {
        left := left - size;
        kept := kept + [chats[i]];
      }
    }
    assert chats[..|chats|] == chats;
  }

  function PartialDetail(worktree: string): Warning {
    Warning("workspace_detail_partial", Some(worktree))
  }

  function Without(ws: seq<Warning>, w: Warning): seq<Warning> {
    if ws == [] then []
    else
      var n := |ws| - 1;
      Without(ws[..n], w) + if ws[n] == w then [] else [ws[n]]
  }

  lemma {:induction false} WithoutExact(ws: seq<Warning>, w: Warning)
    ensures forall v :: v in Without(ws, w) <==> v in ws && v != w
    ensures |Without(ws, w)| <= |ws|
    decreases |ws|
  {
    if ws != [] {
      var n := |ws| - 1;
      WithoutExact(ws[..n], w);
      assert ws == ws[..n] + [ws[n]];
    }
  }

  /** Sorting and removing repeats; here the order is left open. */
  method Deduplicate(ws: seq<Warning>) returns (once: seq<Warning>)
    ensures Distinct(once) && |once| <= |ws| && forall w :: w in once <==> w in ws
  {
    once := [];
    for i := 0 to |ws|
      invariant Distinct(once) && |once| <= i && forall w :: w in once <==> w in ws[..i]
    {
      TakeMore(ws, i);
      if ws[i] !in once {
        once := once + [ws[i]];
      }
    }
    assert ws[..|ws|] == ws;
  }

  function FirstLane(lanes: seq<Lane>, worktree: string): Option<Lane> {
    if lanes == [] then None
    else if lanes[0].worktree == worktree then Some(lanes[0])
    else FirstLane(lanes[1..], worktree)
  }

  function Emptied(lanes: seq<Lane>): (s: seq<Lane>)
    ensures |s| == |lanes| && forall i :: 0 <= i < |s| ==> s[i] == lanes[i].(chats := [])
  {
    seq(|lanes|, i requires 0 <= i < |lanes| => lanes[i].(chats := []))
  }

  /** Chats were given back to the first `n` lanes; the lanes that lost some carry a warning. */
  ghost predicate Refilled(before: seq<Lane>, lanes: seq<Lane>, n: nat, complete: bool, warnings: seq<Warning>) {
    && |lanes| == |before| && n <= |lanes|
    && (forall i :: 0 <= i < n ==> LaneKept(before[i], lanes[i]))
    && (forall i :: n <= i < |lanes| ==> lanes[i] == before[i].(chats := []))
    && (complete ==> forall i :: 0 <= i < n ==> lanes[i] == before[i])
    && (forall i :: 0 <= i < |lanes| && before[i].chats != [] && (i < n ==> lanes[i] != before[i]) && OwnName(before, i) ==>
          PartialDetail(before[i].worktree) in warnings)
  }

  ghost predicate OwnName(lanes: seq<Lane>, i: nat)
    requires i < |lanes|
  {
    forall j :: 0 <= j < |lanes| && j != i ==> lanes[j].worktree != lanes[i].worktree
  }

  /** Every lane that lost a chat is named in a warning. */
  ghost predicate CutWarned(before: seq<Lane>, lanes: seq<Lane>, warnings: seq<Warning>) {
    |lanes| == |before| &&
    forall i :: 0 <= i < |lanes| && lanes[i] != before[i] && OwnName(before, i) ==> PartialDetail(before[i].worktree) in warnings
  }

  /** The observation claims completeness only while no chat is missing. */
  ghost predicate Told(before: seq<Lane>, lanes: seq<Lane>, o: Observation, after: Observation) {
    after == o.(complete := after.complete) && (after.complete ==> o.complete && lanes == before)
  }

  /** What cutting down to the workspace coverage changes. */
  ghost predicate Covered(m: Model, n: Model, heads: set<Oid>) {
    && CutSoFar(m.topology, n.topology, heads) && LanesKept(m.lanes, n.lanes) && CutWarned(m.lanes, n.lanes, n.warnings)
    && Told(m.lanes, n.lanes, m.observation, n.observation)
    && n.facts == m.facts && n.generatedAt == m.generatedAt && n.routePlans == m.routePlans && n.truncated == m.truncated
    && (n.duplicates == m.duplicates || n.duplicates == [])
  }

  /** The same, and marked as truncated when anything was lost. */
  ghost predicate Fitted(m: Model, n: Model, heads: set<Oid>) {
    Covered(m, n.(truncated := m.truncated), heads) && (m.truncated ==> n.truncated) && NothingLost(m, n)
  }

  /** Bindings and route plans dropped, nothing else. */
  ghost predicate Lightened(m: Model, n: Model) {
    && n == m.(facts := n.facts, routePlans := n.routePlans, warnings := n.warnings, truncated := n.truncated)
    && FactsKept(m.facts, n.facts) && n.routePlans <= m.routePlans
    && (m.truncated ==> n.truncated) && (!n.truncated ==> n == m)
  }

  ghost predicate Recomputed(env: Env, before: Facts, after: Facts, m: Model) {
    var lane := FirstLane(m.lanes, before.worktree);
    after ==
    if lane.Some?
    then before.(passengers := PassengerSummary(env, lane.value, m.observation, m.generatedAt, before.integration))
    else before
  }

  /** Two cuts in a row are one. */
  lemma CutChain(g: Graph, h: Graph, k: Graph, heads: set<Oid>)
    requires CutSoFar(g, h, heads) && CutSoFar(h, k, heads)
    ensures CutSoFar(g, k, heads)
  {
    forall i | 0 <= i < |k.commits|
      ensures SameCommit(k.commits[i], g.commits[i])
    {
      assert SameCommit(k.commits[i], h.commits[i]) && SameCommit(h.commits[i], g.commits[i]);
    }
    BoundariesChain(g, h, k, heads);
  }

  lemma BoundariesChain(g: Graph, h: Graph, k: Graph, heads: set<Oid>)
    requires Trimmed(g, h) && FewerEdges(g, h) && MoreBoundaries(g, h, heads) && MoreBoundaries(h, k, heads)
    ensures MoreBoundaries(g, k, heads)
  {
    forall i | 0 <= i < |h.commits| - 1
      ensures h.commits[i].oid in NewerOids(g)
    {
      assert SameCommit(h.commits[i], g.commits[i]);
    }
    forall b | b in k.boundaries
      ensures b in g.boundaries || Addable(g, heads, b)
    {
    }
  }

  /** What bounding keeps: `m` is the model before, `n` after. */
  ghost predicate Kept(m: Model, n: Model) {
    && CutSoFar(m.topology, n.topology, HeadsOf(m.facts)) && LanesKept(m.lanes, n.lanes) && FactsKept(m.facts, n.facts)
    && CutWarned(m.lanes, n.lanes, n.warnings) && Told(m.lanes, n.lanes, m.observation, n.observation)
    && n.generatedAt == m.generatedAt && n.routePlans <= m.routePlans && (n.duplicates == m.duplicates || n.duplicates == [])
  }

  ghost predicate NoBindings(facts: seq<Facts>) {
    forall f :: f in facts ==> f.bindings == []
  }

  /** Every chat and every duplicate is out. */
  ghost predicate Bare(m: Model, n: Model) {
    n.lanes == Emptied(m.lanes) && n.duplicates == []
  }

  /** Why a model could not be cut to the ceiling: what was left of it, with every boundary, and what of that was too much. */
  ghost predicate Refusal(env: Env, m: Model, n: Model, heads: set<Oid>, e: Error) {
    && CutSoFar(m.topology, n.topology, heads)
    && match e
       case TopologyTooLarge =>
         n.topology.commits == [] && (env.topology(n.topology) > CEILING || (Bare(m, n) && env.model(n) > CEILING))
       case CoverageTooLarge => Bare(m, n) && Rest(env, n) > CEILING
       case ModelTooLarge => false
  }

  /** What bounding answers: the model after, or why there is none, with bindings and route plans out as well. */
  ghost predicate Outcome(env: Env, m: Model, n: Model, r: Result<bool, Error>) {
    && |n.warnings| <= |m.warnings| + |m.lanes| + 3
    && match r
       case Ok(_) => Bounded(env, m, n) && env.model(n) <= MAX_MODEL_BYTES
       case Err(ModelTooLarge) => Bounded(env, m, n) && env.topology(n.topology) <= CEILING && env.model(n) > MAX_MODEL_BYTES
       case Err(e) =>
         Refusal(env, m, n, HeadsOf(m.facts), e) && FactsKept(m.facts, n.facts) && n.routePlans == [] && NoBindings(n.facts)
         && env.model(m) > CEILING
  }

  lemma RefusalStays(env: Env, m: Model, lighter: Model, n: Model, heads: set<Oid>, e: Error)
    requires Refusal(env, lighter, n, heads, e) && lighter.topology == m.topology && lighter.lanes == m.lanes
    ensures Refusal(env, m, n, heads, e)
  {
  }

  /** Without the mark of truncation nothing is missing. */
  ghost predicate NothingLost(m: Model, n: Model) {
    !n.truncated ==> n.topology == m.topology && n.lanes == m.lanes && n.routePlans == m.routePlans && n.duplicates == m.duplicates
  }

  /** The passengers say what the lanes and the observation now show. */
  ghost predicate PassengersTold(env: Env, n: Model) {
    forall i :: 0 <= i < |n.facts| && FirstLane(n.lanes, n.facts[i].worktree).Some? ==>
      n.facts[i].passengers ==
      PassengerSummary(env, FirstLane(n.lanes, n.facts[i].worktree).value, n.observation, n.generatedAt, n.facts[i].integration)
  }

  ghost predicate Bounded(env: Env, m: Model, n: Model) {
    Kept(m, n) && NothingLost(m, n) && PassengersTold(env, n)
  }

  lemma AllKept(env: Env, m: Model, light: Model, lighter: Model, fitted: Model, n: Model)
    requires Lightened(m, light) && Lightened(light, lighter) && lighter.facts == light.facts
    requires Fitted(lighter, fitted, HeadsOf(m.facts))
    requires n == fitted.(facts := n.facts) && |n.facts| == |fitted.facts|
    requires forall i :: 0 <= i < |n.facts| ==> Recomputed(env, fitted.facts[i], n.facts[i], fitted)
    ensures Bounded(env, m, n)
  {
    forall i | 0 <= i < |n.facts|
      ensures n.facts[i] == fitted.facts[i].(passengers := n.facts[i].passengers)
    {
      assert Recomputed(env, fitted.facts[i], n.facts[i], fitted);
    }
  }

  /** Once a chat was left out, no workspace on the map reads as unattended, or as fit for cleaning up. */
  lemma CutNeverUnattended(env: Env, m: Model, n: Model, i: nat)
    requires Kept(m, n) && PassengersTold(env, n) && n.lanes != m.lanes
    requires i < |n.facts| && FirstLane(n.lanes, n.facts[i].worktree).Some?
    ensures n.facts[i].passengers.state == "unknown"
    ensures !n.facts[i].passengers.unattendedWork && !n.facts[i].passengers.cleanupReview
  {
  }

  /** The graph that was scanned meets what bounding asks of its caller, for workspaces whose heads were scanned with it. */
  lemma ScannedIsSound(i: Input, m: Model)
    requires Scanned(i, m.topology) && GitContract(i) && forall f :: f in m.facts ==> f.head in i.heads
    ensures Sound(m.topology, HeadsOf(m.facts))
  {
    ScanWellFormed(i, m.topology);
  }

  lemma CutNamed(g: Graph, h: Graph, heads: set<Oid>)
    requires CutSoFar(g, h, heads) && Named(g) && OidSetOk(heads)
    ensures Named(h)
  {
    forall c | c in h.commits
      ensures IsOid(c.oid)
    {
      var i :| 0 <= i < |h.commits| && h.commits[i] == c;
      assert SameCommit(h.commits[i], g.commits[i]) && g.commits[i] in g.commits;
    }
    forall b | b in h.boundaries
      ensures BoundaryNamed(b)
    {
      assert b == NewBoundary(b.oid, b.reason);
    }
  }

  lemma ParentsFew(g: Graph, c: Commit)
    requires WellFormed(g) && c in g.commits
    ensures |c.parents| <= |g.edges|
  {
    var links := seq(|c.parents|, k requires 0 <= k < |c.parents| => (c.parents[k], c.oid));
    forall x | x in links
      ensures x in Pairs(g.edges)
    {
      var k :| 0 <= k < |links| && links[k] == x;
      assert c.parents[k] in c.parents;
    }
    DistinctFits(links, Elements(Pairs(g.edges)));
    ElementsFew(Pairs(g.edges));
  }

  lemma CountsWithin(g: Graph)
    requires WellFormed(g) && LeastBytes(g) <= MAX_MODEL_BYTES
    requires |g.commits| <= MapValidation.MAX_COMMITS && |g.refs| <= MapValidation.MAX_REFS
    ensures MapValidation.WithinCounts(g) <==> |g.boundaries| <= MapValidation.MAX_BOUNDARIES
  {
    assert |g.edges| <= MapValidation.MAX_EDGES;
    forall c | c in g.commits
      ensures |c.parents| <= MapValidation.MAX_EDGES
    {
      ParentsFew(g, c);
    }
  }

  lemma ScannedCounts(i: Input, g: Graph)
    requires Scanned(i, g)
    ensures |g.commits| <= MapValidation.MAX_COMMITS && |g.refs| == |i.refs|
  {
  }

  lemma HeadsAreOids(i: Input, facts: seq<Facts>)
    requires GitContract(i) && forall f :: f in facts ==> f.head in i.heads
    ensures OidSetOk(HeadsOf(facts))
  {
  }

  /**
   * What comes out of bounding a scanned graph, the map's validator accepts if and only if it has at most 4096
   * boundaries: the bytes of a model leave room for no more edges than the validator admits, and bounding drops none
   * of the boundaries.
   */
  lemma BoundAccepted(env: Env, i: Input, m: Model, n: Model, r: Result<bool, Error>)
    requires Lawful(env) && Scanned(i, m.topology) && GitContract(i) && |i.refs| <= MapValidation.MAX_REFS
    requires (forall f :: f in m.facts ==> f.head in i.heads) && Outcome(env, m, n, r) && r.Ok?
    ensures WellFormed(n.topology) && (forall b :: b in m.topology.boundaries ==> b in n.topology.boundaries)
    ensures MapValidation.WithinCounts(n.topology) <==> |n.topology.boundaries| <= MapValidation.MAX_BOUNDARIES
  {
    ScanNamed(i, m.topology);
    ScannedCounts(i, m.topology);
    HeadsAreOids(i, m.facts);
    BoundNamed(env, m, n, HeadsOf(m.facts));
    CountsWithin(n.topology);
  }

  lemma BoundNamed(env: Env, m: Model, n: Model, heads: set<Oid>)
    requires Lawful(env) && Named(m.topology) && OidSetOk(heads) && CutSoFar(m.topology, n.topology, heads)
    requires env.model(n) <= MAX_MODEL_BYTES
    ensures LeastBytes(n.topology) <= MAX_MODEL_BYTES
  {
    CutNamed(m.topology, n.topology, heads);
    assert LeastBytes(n.topology) <= env.topology(n.topology) <= env.model(n);
  }

  /** No lane is dropped, and each still has its place on the map. */
  lemma LanesStayAttached(m: Model, n: Model, i: nat)
    requires Kept(m, n) && i < |m.lanes| && m.lanes[i].head in HeadsOf(m.facts)
    ensures i < |n.lanes| && n.lanes[i].worktree == m.lanes[i].worktree && n.lanes[i].head == m.lanes[i].head
    ensures n.lanes[i].head in Endpoints(n.topology)
  {
    assert LaneKept(m.lanes[i], n.lanes[i]);
  }

  /** The read model while it is being cut. */
  class DockModel {
    var model: Model

    constructor (m: Model)
      ensures model == m
    {
      model := m;
    }

    /** `rebuild_budget_boundaries`, after commits were dropped. */
    method RebuildBoundaries(ghost g: Graph, heads: set<Oid>)
      requires Trimmed(g, model.topology) && model.topology.edges == g.edges && model.topology.boundaries == g.boundaries
      requires BoundariesNamed(g)
      modifies this
      ensures model == old(model).(topology := model.topology) && CutTo(g, model.topology, heads)
      ensures model.topology.commits == old(model.topology.commits) && model.topology.complete == old(model.topology.complete)
    {
      var topology := model.topology;
      var retained := GraphOids(topology.commits);
      var edges := Retain(topology.edges, retained);
      var bs0 := Gather(topology.boundaries);
      var parents, refs, lost := LostParents(edges, retained), LostRefs(topology.refs, retained), heads - retained;
      var bs1 := MarkAll(bs0, parents, "history_limit");
      var bs2 := MarkAll(bs1, refs, "history_limit");
      var bs := MarkAll(bs2, lost, "history_limit");
      AddsMore(bs0, bs1, bs2, "history_limit", parents, refs);
      AddsMore(bs0, bs2, bs, "history_limit", parents + refs, lost);
      var boundaries := Values(bs);
      var h := topology.(edges := edges, boundaries := boundaries);
      GraphOidsExact(h);
      RebuiltIsCut(g, h, heads, bs0, bs);
      model := model.(topology := h);
    }

    /** Drops the oldest eighth of the commits until the graph fits. */
    method DropCommits(env: Env, ghost g: Graph, heads: set<Oid>, remaining: nat) returns (changed: bool)
      requires CutSoFar(g, model.topology, heads)
      modifies this
      ensures model == old(model).(topology := model.topology) && (!changed ==> model == old(model))
      ensures CutSoFar(g, model.topology, heads) && (env.topology(model.topology) <= remaining || model.topology.commits == [])
      ensures env.topology(old(model.topology)) <= remaining ==> model == old(model)
    {
      changed := false;
      while env.topology(model.topology) > remaining && model.topology.commits != []
        invariant model == old(model).(topology := model.topology) && (!changed ==> model == old(model))
        invariant CutSoFar(g, model.topology, heads)
        invariant env.topology(old(model.topology)) <= remaining ==> model == old(model)
        decreases |model.topology.commits|
      {
        ghost var before := model.topology;
        var commits := model.topology.commits;
        var remove := if |commits| / 8 > 1 then |commits| / 8 else 1;
        model := model.(topology := model.topology.(commits := commits[..|commits| - remove], complete := false));
        RebuildBoundaries(before, heads);
        CutMore(g, before, model.topology, heads);
        changed := true;
      }
    }

    /** Shortens subjects, then drops subjects, then drops times, as far as needed. */
    method DropDetails(env: Env, heads: set<Oid>, remaining: nat) returns (changed: bool)
      requires Sound(model.topology, heads) && Lawful(env)
      modifies this
      ensures model == old(model).(topology := model.topology) && (!changed ==> model == old(model))
      ensures CutSoFar(old(model.topology), model.topology, heads)
      ensures env.topology(old(model.topology)) <= remaining ==> env.topology(model.topology) <= env.topology(old(model.topology))
    {
      ghost var g := model.topology;
      var topology := model.topology;
      var commits;
      commits, changed := TrimSubjects(topology.commits);
      DropDetail(g, topology, commits, heads);
      topology := topology.(commits := commits);
      assert env.topology(g.(commits := commits)) <= env.topology(g);
      if env.topology(topology) > remaining {
        DropDetail(g, topology, NoSubjects(topology.commits), heads);
        topology, changed := topology.(commits := NoSubjects(topology.commits)), true;
      }
      if env.topology(topology) > remaining {
        DropDetail(g, topology, NoTimes(topology.commits), heads);
        topology, changed := topology.(commits := NoTimes(topology.commits)), true;
      }
      model := model.(topology := topology);
    }

    /** `retain_topology_within_budget`: detail goes first, then commits. It fails only when no commit is left to drop. */
    method RetainTopology(env: Env, heads: set<Oid>, remaining: nat) returns (changed: bool, r: Result<nat, Error>)
      requires Sound(model.topology, heads) && Lawful(env)
      modifies this
      ensures model == old(model).(topology := model.topology) && (!changed ==> model == old(model))
      ensures CutSoFar(old(model.topology), model.topology, heads)
      ensures env.topology(old(model.topology)) <= remaining ==>
                r.Ok? && env.topology(model.topology) <= env.topology(old(model.topology))
      ensures r.Ok? <==> env.topology(model.topology) <= remaining
      ensures r.Ok? ==> r.value == remaining - env.topology(model.topology)
      ensures r.Err? ==> r.error == TopologyTooLarge && model.topology.commits == []
    {
      ghost var g := model.topology;
      changed := DropDetails(env, heads, remaining);
      var dropped := DropCommits(env, g, heads, remaining);
      changed := changed || dropped;
      var size := env.topology(model.topology);
      r := if size > remaining then Err(TopologyTooLarge) else Ok(remaining - size);
    }

    method DropBindings(env: Env)
      modifies this
      ensures Lightened(old(model), model) && (NoBindings(model.facts) || env.model(model) <= CEILING)
      ensures env.model(old(model)) <= CEILING ==> model == old(model)
      ensures |model.warnings| <= |old(model).warnings| + 1
    {
      if (exists f :: f in model.facts && f.bindings != []) && env.model(model) > CEILING {
        for i := 0 to |model.facts|
          invariant model == old(model).(facts := model.facts) && FactsKept(old(model).facts, model.facts)
          invariant forall k :: 0 <= k < i ==> model.facts[k].bindings == []
        {
          if model.facts[i].bindings != [] {
            model := model.(facts := model.facts[i := model.facts[i].(bindings := [], bindingsComplete := false)]);
          }
        }
        model := model.(truncated := true, warnings := model.warnings + [Warning("task_binding_history_truncated", None)]);
      }
    }

    method DropPlans(env: Env)
      modifies this
      ensures Lightened(old(model), model) && model.facts == old(model.facts)
      ensures model.routePlans == [] || env.model(model) <= CEILING
      ensures env.model(old(model)) <= CEILING ==> model == old(model)
      ensures |model.warnings| <= |old(model).warnings| + 1
    {
      while model.routePlans != [] && env.model(model) > CEILING
        invariant Lightened(old(model), model) && model.facts == old(model.facts)
        invariant env.model(old(model)) <= CEILING ==> model == old(model)
        invariant |model.warnings| <= |old(model).warnings| + 1
        invariant model.warnings == old(model).warnings || exists w :: w in model.warnings && w.code == "route_plans_truncated"
        decreases |model.routePlans|
      {
        model := model.(routePlans := model.routePlans[..|model.routePlans| - 1], truncated := true);
        if forall w :: w in model.warnings ==> w.code != "route_plans_truncated" {
          model := model.(warnings := model.warnings + [Warning("route_plans_truncated", None)]);
        }
      }
    }

    /** Takes every chat out and warns about each lane that had some. */
    method TakeChats()
      modifies this
      ensures model == old(model).(lanes := model.lanes, warnings := model.warnings)
      ensures Refilled(old(model.lanes), model.lanes, 0, true, model.warnings) && model.lanes == Emptied(old(model.lanes))
      ensures |model.warnings| <= |old(model.warnings)| + |old(model.lanes)|
    {
      for i := 0 to |model.lanes|
        invariant model == old(model).(warnings := model.warnings) && |model.warnings| <= |old(model.warnings)| + i
        invariant forall k :: 0 <= k < i && model.lanes[k].chats != [] ==> PartialDetail(model.lanes[k].worktree) in model.warnings
      {
        if model.lanes[i].chats != [] {
          model := model.(warnings := model.warnings + [PartialDetail(model.lanes[i].worktree)]);
        }
      }
      model := model.(lanes := Emptied(model.lanes));
    }

    /** Gives chats back while the budget lasts; a lane that lost one makes the observation incomplete. */
    method GiveBack(env: Env, before: seq<Lane>, budget: nat)
      requires Refilled(before, model.lanes, 0, true, model.warnings)
      modifies this
      ensures model == old(model).(lanes := model.lanes, warnings := model.warnings, observation := model.observation)
      ensures LanesKept(before, model.lanes) && CutWarned(before, model.lanes, model.warnings)
      ensures Told(before, model.lanes, old(model.observation), model.observation)
      ensures |model.warnings| <= |old(model.warnings)|
    {
      var left := budget;
      for i := 0 to |before|
        invariant model == old(model).(lanes := model.lanes, warnings := model.warnings, observation := model.observation)
        invariant Refilled(before, model.lanes, i, model.observation.complete, model.warnings)
        invariant |model.warnings| <= |old(model.warnings)|
        invariant model.observation == old(model.observation).(complete := model.observation.complete)
        invariant model.observation.complete ==> old(model.observation.complete)
      {
        var kept;
        kept, left := KeepChats(env, before[i].chats, left);
        WithoutExact(model.warnings, PartialDetail(before[i].worktree));
        RefillOne(before, model.lanes, i, model.observation.complete, model.warnings, kept);
        model := model.(lanes := model.lanes[i := model.lanes[i].(chats := kept)]);
        if |kept| != |before[i].chats| {
          model := model.(observation := model.observation.(complete := false));
        } else {
          model := model.(warnings := Without(model.warnings, PartialDetail(before[i].worktree)));
        }
      }
    }

    /** When history alone was not enough: chats come out, history is cut to what is left, and chats go back in. */
    method CutToCoverage(env: Env, heads: set<Oid>) returns (r: Result<bool, Error>)
      requires Sound(model.topology, heads) && Lawful(env)
      modifies this
      ensures r.Ok? ==> Covered(old(model), model, heads) && env.topology(model.topology) <= CEILING
      ensures r.Err? ==> Refusal(env, old(model), model, heads, r.error)
      ensures model.facts == old(model.facts) && model.routePlans == old(model.routePlans)
      ensures |model.warnings| <= |old(model.warnings)| + |old(model.lanes)|
    {
      ghost var m := model;
      var before := model.lanes;
      model := model.(duplicates := []);
      TakeChats();
      assert env.topology(model.topology) <= env.model(model);
      var required := env.model(model) - env.topology(model.topology);
      if CEILING < required {
        CutNothing(m.topology, heads);
        return Err(CoverageTooLarge);
      }
      ghost var bare := model;
      var _, left := RetainTopology(env, heads, CEILING - required);
      if left.Err? {
        assert model == bare.(topology := model.topology);
        return Err(left.error);
      }
      GiveBack(env, before, left.value);
      r := Ok(true);
    }

    /** Cuts history, and chats if that is not enough. */
    method Fit(env: Env, heads: set<Oid>) returns (r: Result<bool, Error>)
      requires Sound(model.topology, heads) && Lawful(env)
      modifies this
      ensures r.Ok? ==> Fitted(old(model), model, heads) && env.topology(model.topology) <= CEILING
      ensures r.Err? ==> Refusal(env, old(model), model, heads, r.error)
      ensures r.Err? ==> env.model(old(model)) > CEILING
      ensures r.Err? ==> model.facts == old(model.facts) && model.routePlans == old(model.routePlans)
      ensures |model.warnings| <= |old(model.warnings)| + |old(model.lanes)| + 1
    {
      ghost var m := model;
      var changed, left := RetainTopology(env, heads, CEILING);
      assert model == m.(topology := model.topology);
      if left.Err? {
        return Err(left.error);
      }
      ghost var mid := model;
      if env.model(model) > CEILING {
        r := CutToCoverage(env, heads);
        if r.Err? {
          RefusedEitherWay(env, m, mid, model, heads, r.error);
          return;
        }
        changed := true;
      } else {
        WholeLanesKept(mid.lanes, mid.warnings);
      }
      FitsEitherWay(m, mid, model, heads);
      if changed {
        var warnings := Deduplicate(model.warnings + [Warning("dock_output_truncated", None)]);
        model := model.(truncated := true, warnings := warnings);
      }
      r := Ok(true);
    }

    method Recompute(env: Env)
      modifies this
      ensures model == old(model).(facts := model.facts) && |model.facts| == |old(model.facts)|
      ensures forall i :: 0 <= i < |model.facts| ==> Recomputed(env, old(model.facts)[i], model.facts[i], old(model))
    {
      for i := 0 to |model.facts|
        invariant model == old(model).(facts := model.facts) && |model.facts| == |old(model.facts)|
        invariant forall k :: 0 <= k < i ==> Recomputed(env, old(model.facts)[k], model.facts[k], old(model))
        invariant forall k :: i <= k < |model.facts| ==> model.facts[k] == old(model.facts)[k]
      {
        var f := model.facts[i];
        var lane := FirstLane(model.lanes, f.worktree);
        if lane.Some? {
          var told := PassengerSummary(env, lane.value, model.observation, model.generatedAt, f.integration);
          model := model.(facts := model.facts[i := f.(passengers := told)]);
        }
      }
    }

    /** `bound_model`. */
    method Bound(env: Env) returns (r: Result<bool, Error>)
      requires Sound(model.topology, HeadsOf(model.facts)) && Lawful(env)
      modifies this
      ensures Outcome(env, old(model), model, r)
    {
      ghost var m := model;
      DropBindings(env);
      ghost var light := model;
      DropPlans(env);
      ghost var lighter := model;
      HeadsStay(m.facts, lighter.facts);
      r := Fit(env, HeadsOf(model.facts));
      if r.Err? {
        RefusalStays(env, m, lighter, model, HeadsOf(m.facts), r.error);
        return;
      }
      ghost var fitted := model;
      Recompute(env);
      AllKept(env, m, light, lighter, fitted, model);
      r := if env.model(model) > MAX_MODEL_BYTES then Err(ModelTooLarge) else Ok(true);
    }
  }

  lemma RefillOne(before: seq<Lane>, lanes: seq<Lane>, i: nat, complete: bool, warnings: seq<Warning>, kept: seq<Chat>)
    requires Refilled(before, lanes, i, complete, warnings) && i < |before|
    requires Subsequence(kept, before[i].chats) && (|kept| == |before[i].chats| ==> kept == before[i].chats)
    requires forall w :: w in Without(warnings, PartialDetail(before[i].worktree)) <==> w in warnings && w != PartialDetail(before[i].worktree)
    ensures |kept| != |before[i].chats| ==> Refilled(before, lanes[i := lanes[i].(chats := kept)], i + 1, false, warnings)
    ensures |kept| == |before[i].chats| ==>
              Refilled(before, lanes[i := lanes[i].(chats := kept)], i + 1, complete, Without(warnings, PartialDetail(before[i].worktree)))
  {
    assert lanes[i].(chats := kept) == before[i].(chats := kept);
    assert LaneKept(before[i], before[i].(chats := kept));
  }

  lemma CutNothing(g: Graph, heads: set<Oid>)
    requires Sound(g, heads)
    ensures CutSoFar(g, g, heads)
  {
  }

  lemma RefusedEitherWay(env: Env, m: Model, mid: Model, n: Model, heads: set<Oid>, e: Error)
    requires mid == m.(topology := mid.topology) && CutSoFar(m.topology, mid.topology, heads)
    requires Refusal(env, mid, n, heads, e)
    ensures Refusal(env, m, n, heads, e)
  {
    CutChain(m.topology, mid.topology, n.topology, heads);
  }

  lemma FitsEitherWay(m: Model, mid: Model, n: Model, heads: set<Oid>)
    requires mid == m.(topology := mid.topology) && CutSoFar(m.topology, mid.topology, heads)
    requires (n == mid && LanesKept(n.lanes, n.lanes) && CutWarned(n.lanes, n.lanes, n.warnings)) || Covered(mid, n, heads)
    ensures Covered(m, n, heads)
  {
    if n != mid {
      CutChain(m.topology, mid.topology, n.topology, heads);
    }
  }

  lemma WholeLanesKept(lanes: seq<Lane>, warnings: seq<Warning>)
    ensures LanesKept(lanes, lanes) && CutWarned(lanes, lanes, warnings)
  {
    forall i | 0 <= i < |lanes|
      ensures LaneKept(lanes[i], lanes[i])
    {
      SubsequenceSelf(lanes[i].chats);
    }
  }
}
