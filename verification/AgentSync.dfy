/** Following another program's tasks: a lossy stream of revisions, and merging inventories (src/agent_sync.rs). */
module AgentSync {
  import opened Prelude

  const STATUS := "threadRuntimeStatus"

  // ----- the source's documents and patches -----

  datatype Json = Null | Text(text: string) | Object(members: map<string, Json>)

  datatype Op = Add | Replace | Remove
  datatype Patch = Patch(path: seq<string>, op: Op, value: Json)

  /** What a patch means to the source: an empty path addresses the whole document. */
  function Apply(doc: Json, path: seq<string>, op: Op, value: Json): Json
    decreases |path|
  {
    if path == [] then (if op == Remove then Null else value)
    else if !doc.Object? then doc
    else if |path| == 1 then
      Object(if op == Remove then doc.members - {path[0]} else doc.members[path[0] := value])
    else if path[0] in doc.members then
      Object(doc.members[path[0] := Apply(doc.members[path[0]], path[1..], op, value)])
    else doc
  }

  function ApplyAll(doc: Json, patches: seq<Patch>): Json {
    if patches == [] then doc
    else
      var p := patches[|patches| - 1];
      Apply(ApplyAll(doc, patches[..|patches| - 1]), p.path, p.op, p.value)
  }

  function StatusOf(doc: Json): Json {
    if doc.Object? && STATUS in doc.members then doc.members[STATUS] else Null
  }

  // ----- what is kept of them -----

  /** The status kept after one patch: only a plain assignment is followed, anything deeper is forgotten. */
  function KeepOne(status: Json, p: Patch): Json {
    if p.path != [] && p.path[0] == STATUS then
      if |p.path| == 1 && p.op != Remove then p.value else Null
    else status
  }

  function KeepAll(status: Json, patches: seq<Patch>): Json {
    if patches == [] then status
    else KeepOne(KeepAll(status, patches[..|patches| - 1]), patches[|patches| - 1])
  }

  /** What is kept is unknown or right. */
  predicate Honest(kept: Json, actual: Json) {
    kept == Null || kept == actual
  }

  /** No assignment of the whole document is left without a later word on the status. */
  predicate Settled(patches: seq<Patch>) {
    patches == [] ||
    (var p := patches[|patches| - 1];
     p.path != [] && (p.path[0] == STATUS || Settled(patches[..|patches| - 1])))
  }

  /** A known status is still known after the patches. */
  predicate Live(patches: seq<Patch>) {
    patches == [] ||
    (var p := patches[|patches| - 1];
     if p.path != [] && p.path[0] == STATUS then |p.path| == 1 && p.op != Remove else Live(patches[..|patches| - 1]))
  }

  /** The patches can leave a known status behind that the source has replaced. */
  predicate Misleading(patches: seq<Patch>) {
    !Settled(patches) && Live(patches)
  }

  /** Documents stay objects: whole-document patches assign objects. */
  ghost predicate Proper(patches: seq<Patch>) {
    forall i :: 0 <= i < |patches| && patches[i].path == [] ==> patches[i].op != Remove && patches[i].value.Object?
  }

  lemma {:induction false} StaysObject(doc: Json, patches: seq<Patch>)
    requires doc.Object? && Proper(patches)
    ensures ApplyAll(doc, patches).Object?
    decreases |patches|
  {
    if patches != [] {
      StaysObject(doc, patches[..|patches| - 1]);
    }
  }

  /** A patch to another member leaves the status alone. */
  lemma OtherMember(doc: Json, p: Patch)
    requires doc.Object? && p.path != [] && p.path[0] != STATUS
    ensures StatusOf(Apply(doc, p.path, p.op, p.value)) == StatusOf(doc)
  {
  }

  lemma {:induction false} SettledIsHonest(doc: Json, kept: Json, patches: seq<Patch>)
    requires doc.Object? && Proper(patches) && Honest(kept, StatusOf(doc)) && Settled(patches)
    ensures Honest(KeepAll(kept, patches), StatusOf(ApplyAll(doc, patches)))
    decreases |patches|
  {
    if patches != [] {
      var before, p := patches[..|patches| - 1], patches[|patches| - 1];
      StaysObject(doc, before);
      if p.path[0] != STATUS {
        SettledIsHonest(doc, kept, before);
        OtherMember(ApplyAll(doc, before), p);
      }
    }
  }

  lemma {:induction false} DeadIsNull(kept: Json, patches: seq<Patch>)
    requires !Live(patches)
    ensures KeepAll(kept, patches) == Null
    decreases |patches|
  {
    var p := patches[|patches| - 1];
    if p.path == [] || p.path[0] != STATUS {
      DeadIsNull(kept, patches[..|patches| - 1]);
    }
  }

  // ----- exactly when patches mislead -----

  ghost predicate SameShape(a: seq<Patch>, b: seq<Patch>) {
    |a| == |b| && forall i :: 0 <= i < |a| ==> a[i].path == b[i].path && (a[i].path == [] || a[i].op == b[i].op)
  }

  /** The same patches, with values that show the worst. */
  function Worst(patches: seq<Patch>): (s: seq<Patch>)
    ensures |s| == |patches|
  {
    seq(|patches|, i requires 0 <= i < |patches| =>
      if patches[i].path == [] then Patch([], Replace, Object(map[])) else Patch(patches[i].path, patches[i].op, Text("kept")))
  }

  lemma {:induction false} WorstKeeps(patches: seq<Patch>)
    ensures KeepAll(Text("kept"), Worst(patches)) == if Live(patches) then Text("kept") else Null
    decreases |patches|
  {
    if patches != [] {
      assert Worst(patches)[..|patches| - 1] == Worst(patches[..|patches| - 1]);
      WorstKeeps(patches[..|patches| - 1]);
    }
  }

  lemma {:induction false} WorstForgets(doc: Json, patches: seq<Patch>)
    requires doc.Object? && !Settled(patches)
    ensures ApplyAll(doc, Worst(patches)).Object? && StatusOf(ApplyAll(doc, Worst(patches))) == Null
    decreases |patches|
  {
    var before, p := patches[..|patches| - 1], patches[|patches| - 1];
    assert Worst(patches)[..|patches| - 1] == Worst(before);
    if p.path != [] {
      WorstForgets(doc, before);
      OtherMember(ApplyAll(doc, Worst(before)), Worst(patches)[|patches| - 1]);
    }
  }

  /** From a status known exactly, the patches leave a wrong one. */
  ghost predicate GoesWrong(patches: seq<Patch>, doc: Json) {
    Proper(patches) && doc.Object? && !Honest(KeepAll(StatusOf(doc), patches), StatusOf(ApplyAll(doc, patches)))
  }

  /** Patches of this shape, applied to what is known exactly, go wrong for some values if and only if they are misleading. */
  lemma MisleadingExact(patches: seq<Patch>)
    ensures Misleading(patches) <==>
            exists shown, doc :: SameShape(patches, shown) && GoesWrong(shown, doc)
  {
    if Misleading(patches) {
      var shown, doc := Worst(patches), Object(map[STATUS := Text("kept")]);
      WorstKeeps(patches);
      WorstForgets(doc, patches);
      assert SameShape(patches, shown) && GoesWrong(shown, doc);
    }
    if shown, doc :| SameShape(patches, shown) && GoesWrong(shown, doc) {
      ShapeDecides(patches, shown);
      if Settled(shown) {
        SettledIsHonest(doc, StatusOf(doc), shown);
      }
      if !Live(shown) {
        DeadIsNull(StatusOf(doc), shown);
      }
    }
  }

  lemma {:induction false} ShapeDecides(a: seq<Patch>, b: seq<Patch>)
    requires SameShape(a, b)
    ensures Settled(a) == Settled(b) && Live(a) == Live(b)
    decreases |a|
  {
    if a != [] {
      ShapeDecides(a[..|a| - 1], b[..|b| - 1]);
    }
  }

  // ----- the stream -----

  /** A change as it arrives; a missing or ill-typed member reads as `None`. */
  datatype Change =
    | Snapshot(revision: Option<nat>, state: Json)
    | Patches(revision: Option<nat>, base: Option<nat>, patches: Option<seq<RawPatch>>)
    | OtherChange(revision: Option<nat>)

  datatype RawPatch = RawPatch(path: Option<seq<string>>, op: Op, value: Json)

  datatype Error = MissingRevision | InvalidPatches | InvalidPath

  ghost predicate Reads(raw: seq<RawPatch>, patches: seq<Patch>) {
    |raw| == |patches| && forall i :: 0 <= i < |raw| ==>
      raw[i].path == Some(patches[i].path) && raw[i].op == patches[i].op && raw[i].value == patches[i].value
  }

  /** The source: the document of every task at every revision. */
  type Source = (string, nat) -> Json

  ghost predicate ObjectsOnly(source: Source) {
    forall id, n :: source(id, n).Object?
  }

  /** The change is one the source sent about the task, at some time. */
  ghost predicate HonestChange(source: Source, id: string, change: Change) {
    match change
    case Snapshot(revision, state) => revision.Some? ==> state == source(id, revision.value)
    case Patches(revision, base, raw) =>
      revision.Some? && base.Some? && raw.Some? ==>
        forall ps :: Reads(raw.value, ps) ==>
          Proper(ps) && !Misleading(ps) && ApplyAll(source(id, base.value), ps) == source(id, revision.value)
    case OtherChange(_) => true
  }

  /** Every status kept is unknown or the source's at the revision kept with it. */
  ghost predicate Faithful(source: Source, states: map<string, (nat, Json)>) {
    forall id :: id in states ==> Honest(states[id].1, StatusOf(source(id, states[id].0)))
  }

  /** The statuses of the tasks that are followed. */
  class RuntimeStates {
    var states: map<string, (nat, Json)>

    constructor ()
      ensures states == map[]
    {
      states := map[];
    }

    method Forget(id: string)
      modifies this
      ensures states == old(states) - {id}
    {
      states := states - {id};
    }

    /**
     * `apply_change`. Whatever was lost, repeated or reordered on the way, honest changes leave no wrong status behind.
     * A call that fails may leave a status of a later revision; its caller drops the connection and all it kept.
     */
    method ApplyChange(ghost source: Source, id: string, change: Change) returns (r: Result<bool, Error>)
      requires ObjectsOnly(source)
      modifies this
      ensures forall k :: k != id ==> (k in states <==> k in old(states)) && (k in states ==> states[k] == old(states)[k])
      ensures r.Ok? ==> Followed(old(states), states, id, change)
      ensures r.Ok? && HonestChange(source, id, change) && Faithful(source, old(states)) ==> Faithful(source, states)
    {
      if change.revision.None? {
        return Err(MissingRevision);
      }
      var revision := change.revision.value;
      if change.Snapshot? {
        states := states[id := (revision, StatusOf(change.state))];
      } else if change.Patches? {
        if id !in states {
          return Ok(false);
        }
        var (previous, status) := states[id];
        if Some(previous) != change.base {
          states := states - {id};
          return Ok(false);
        }
        if change.patches.None? {
          return Err(InvalidPatches);
        }
        var raw := change.patches.value;
        ghost var read: seq<Patch> := [];
        for i := 0 to |raw|
          invariant Reads(raw[..i], read)
          invariant id in states && states == old(states)[id := (previous, KeepAll(status, read))]
        {
          if raw[i].path.None? {
            return Err(InvalidPath);
          }
          var path := raw[i].path.value;
          ghost var p := Patch(path, raw[i].op, raw[i].value);
          assert (read + [p])[..|read|] == read;
          if path != [] && path[0] == STATUS {
            states := states[id := (previous, if |path| == 1 && raw[i].op != Remove then raw[i].value else Null)];
          }
          read := read + [p];
        }
        assert raw[..|raw|] == raw;
        states := states[id := (revision, states[id].1)];
        PatchesFaithful(source, id, change, old(states), states, read);
      }
      r := Ok(true);
    }
  }

  /** The new state of the task, exactly. */
  ghost predicate Followed(before: map<string, (nat, Json)>, after: map<string, (nat, Json)>, id: string, change: Change) {
    match change
    case Snapshot(revision, state) => revision.Some? && after == before[id := (revision.value, StatusOf(state))]
    case Patches(revision, base, raw) =>
      if id !in before then after == before
      else if Some(before[id].0) != base then after == before - {id}
      else revision.Some? && raw.Some?
           && exists ps :: Reads(raw.value, ps) && after == before[id := (revision.value, KeepAll(before[id].1, ps))]
    case OtherChange(_) => after == before
  }

  lemma PatchesFaithful(source: Source, id: string, change: Change, before: map<string, (nat, Json)>,
                        after: map<string, (nat, Json)>, read: seq<Patch>)
    requires ObjectsOnly(source) && change.Patches? && change.patches.Some? && Reads(change.patches.value, read)
    requires id in before && Some(before[id].0) == change.base && change.revision.Some?
    requires after == before[id := (change.revision.value, KeepAll(before[id].1, read))]
    ensures HonestChange(source, id, change) && Faithful(source, before) ==> Faithful(source, after)
  {
    if HonestChange(source, id, change) && Faithful(source, before) {
      var doc := source(id, before[id].0);
      if Settled(read) {
        SettledIsHonest(doc, before[id].1, read);
      } else {
        DeadIsNull(before[id].1, read);
      }
    }
  }

  /** A document replaced as a whole by patches: what is kept stays, and is wrong. */
  lemma WholeDocumentMisleads()
    ensures var patches := [Patch([], Replace, Object(map[STATUS := Text("idle")]))];
            var doc := Object(map[STATUS := Text("active")]);
            Proper(patches) && Misleading(patches)
            && KeepAll(StatusOf(doc), patches) == Text("active") && StatusOf(ApplyAll(doc, patches)) == Text("idle")
  {
    var patches := [Patch([], Replace, Object(map[STATUS := Text("idle")]))];
    assert patches[..0] == [];
  }

  // ----- merging inventories -----

  datatype Task = Task(session: string, host: string, directory: Option<string>, subagents: Option<string>, detail: string)
  datatype Inventory = Inventory(observedAt: string, tasks: seq<Task>, complete: bool)
  datatype Query = Query(tasks: seq<Task>, observedAt: Option<string>, complete: bool)

  predicate SameTask(a: Task, b: Task) {
    a.session == b.session && a.host == b.host
  }

  predicate Has(tasks: seq<Task>, t: Task) {
    exists i :: 0 <= i < |tasks| && SameTask(tasks[i], t)
  }

  function Find(tasks: seq<Task>, t: Task): Option<Task> {
    if tasks == [] then None else if SameTask(tasks[0], t) then Some(tasks[0]) else Find(tasks[1..], t)
  }

  lemma {:induction false} FindExact(tasks: seq<Task>, t: Task)
    ensures Find(tasks, t).Some? <==> Has(tasks, t)
    ensures Find(tasks, t).Some? ==> Find(tasks, t).value in tasks && SameTask(Find(tasks, t).value, t)
    decreases |tasks|
  {
    if tasks != [] && !SameTask(tasks[0], t) {
      FindExact(tasks[1..], t);
      assert tasks == [tasks[0]] + tasks[1..];
      if Has(tasks[1..], t) {
        var i :| 0 <= i < |tasks[1..]| && SameTask(tasks[1..][i], t);
        assert SameTask(tasks[i + 1], t);
      }
      if Has(tasks, t) {
        var i :| 0 <= i < |tasks| && SameTask(tasks[i], t);
        assert SameTask(tasks[1..][i - 1], t);
      }
    }
  }

  /** The client's own reports about a task outlive the host's inventory. */
  function WithReports(t: Task, known: seq<Task>): Task {
    match Find(known, t)
    case Some(o) => t.(directory := o.directory, subagents := o.subagents)
    case None => t
  }

  function Refreshed(tasks: seq<Task>, known: seq<Task>): (s: seq<Task>)
    ensures |s| == |tasks| && forall i :: 0 <= i < |s| ==> s[i] == WithReports(tasks[i], known)
  {
    seq(|tasks|, i requires 0 <= i < |tasks| => WithReports(tasks[i], known))
  }

  /** `known` tasks that the list does not have, appended in order; a task appended once counts as had. */
  function Retain(tasks: seq<Task>, known: seq<Task>): seq<Task> {
    if known == [] then tasks
    else
      var n := |known| - 1;
      var before := Retain(tasks, known[..n]);
      if Has(before, known[n]) then before else before + [known[n]]
  }

  predicate Later(instant: string -> Option<int>, a: Option<string>, b: string) {
    a.Some? && instant(a.value).Some? && (instant(b).None? || instant(a.value).value > instant(b).value)
  }

  function Merged(instant: string -> Option<int>, q: Query, inv: Inventory): Query {
    if Later(instant, q.observedAt, inv.observedAt) then q
    else
      var tasks := Refreshed(inv.tasks, q.tasks);
      Query(if inv.complete then tasks else Retain(tasks, q.tasks), Some(inv.observedAt), inv.complete)
  }

  /** `merge`. */
  method Merge(instant: string -> Option<int>, q: Query, inv: Inventory) returns (r: Query)
    ensures r == Merged(instant, q, inv)
  {
    if Later(instant, q.observedAt, inv.observedAt) {
      return q;
    }
    var tasks: seq<Task> := [];
    for i := 0 to |inv.tasks|
      invariant |tasks| == i && forall k :: 0 <= k < i ==> tasks[k] == WithReports(inv.tasks[k], q.tasks)
    {
      tasks := tasks + [WithReports(inv.tasks[i], q.tasks)];
    }
    assert tasks == Refreshed(inv.tasks, q.tasks);
    if !inv.complete {
      for i := 0 to |q.tasks|
        invariant tasks == Retain(Refreshed(inv.tasks, q.tasks), q.tasks[..i])
      {
        TakeMore(q.tasks, i);
        assert q.tasks[..i + 1][..i] == q.tasks[..i];
        if !Has(tasks, q.tasks[i]) {
          tasks := tasks + [q.tasks[i]];
        }
      }
      assert q.tasks[..|q.tasks|] == q.tasks;
    }
    r := Query(tasks, Some(inv.observedAt), inv.complete);
  }

  lemma {:induction false} RetainExact(tasks: seq<Task>, known: seq<Task>, t: Task)
    ensures Has(Retain(tasks, known), t) <==> Has(tasks, t) || Has(known, t)
    ensures tasks <= Retain(tasks, known)
    decreases |known|
  {
    if known != [] {
      var n := |known| - 1;
      RetainExact(tasks, known[..n], t);
      RetainExact(tasks, known[..n], known[n]);
      HasMore(known[..n], known[n], t);
      assert known == known[..n] + [known[n]];
      HasMore(Retain(tasks, known[..n]), known[n], t);
      if Has(Retain(tasks, known[..n]), known[n]) && SameTask(known[n], t) {
        HasSame(Retain(tasks, known[..n]), known[n], t);
      }
    }
  }

  lemma HasMore(tasks: seq<Task>, last: Task, t: Task)
    ensures Has(tasks + [last], t) <==> Has(tasks, t) || SameTask(last, t)
  {
    var all := tasks + [last];
    assert all[|tasks|] == last;
    if Has(tasks, t) {
      var i :| 0 <= i < |tasks| && SameTask(tasks[i], t);
      assert SameTask(all[i], t);
    }
  }

  lemma HasSame(tasks: seq<Task>, a: Task, b: Task)
    requires Has(tasks, a) && SameTask(a, b)
    ensures Has(tasks, b)
  {
    var i :| 0 <= i < |tasks| && SameTask(tasks[i], a);
    assert SameTask(tasks[i], b);
  }

  lemma RefreshedHas(tasks: seq<Task>, known: seq<Task>, t: Task)
    ensures Has(Refreshed(tasks, known), t) <==> Has(tasks, t)
  {
    if Has(tasks, t) {
      var i :| 0 <= i < |tasks| && SameTask(tasks[i], t);
      assert SameTask(Refreshed(tasks, known)[i], t);
    }
    if Has(Refreshed(tasks, known), t) {
      var i :| 0 <= i < |Refreshed(tasks, known)| && SameTask(Refreshed(tasks, known)[i], t);
      assert SameTask(tasks[i], t);
    }
  }

  /** A complete inventory decides which tasks there are; a partial one only adds. An older one changes nothing. */
  lemma MergeDecidesTasks(instant: string -> Option<int>, q: Query, inv: Inventory, t: Task)
    ensures var r := Merged(instant, q, inv);
            if Later(instant, q.observedAt, inv.observedAt) then r == q
            else if inv.complete then Has(r.tasks, t) <==> Has(inv.tasks, t)
            else Has(r.tasks, t) <==> Has(inv.tasks, t) || Has(q.tasks, t)
  {
    RefreshedHas(inv.tasks, q.tasks, t);
    RetainExact(Refreshed(inv.tasks, q.tasks), q.tasks, t);
  }

  /** The client's reports about a task survive every merge that keeps the task. */
  lemma ReportsSurvive(instant: string -> Option<int>, q: Query, inv: Inventory, t: Task)
    requires Has(q.tasks, t) && Has(Merged(instant, q, inv).tasks, t)
    ensures var before, after := Find(q.tasks, t), Find(Merged(instant, q, inv).tasks, t);
            before.Some? && after.Some?
            && after.value.directory == before.value.directory && after.value.subagents == before.value.subagents
  {
    FindExact(q.tasks, t);
    FindExact(Merged(instant, q, inv).tasks, t);
    if !Later(instant, q.observedAt, inv.observedAt) {
      var renewed := Refreshed(inv.tasks, q.tasks);
      if Has(renewed, t) {
        FirstFresh(inv.tasks, q.tasks, t);
        RetainExact(renewed, q.tasks, t);
        FindInPrefix(renewed, Merged(instant, q, inv).tasks, t);
      } else {
        FindRetained(renewed, q.tasks, t);
      }
    }
  }

  lemma {:induction false} SameFind(tasks: seq<Task>, a: Task, b: Task)
    requires SameTask(a, b)
    ensures Find(tasks, a) == Find(tasks, b)
    decreases |tasks|
  {
    if tasks != [] {
      SameFind(tasks[1..], a, b);
    }
  }

  lemma {:induction false} FirstFresh(tasks: seq<Task>, known: seq<Task>, t: Task)
    requires Has(Refreshed(tasks, known), t) && Has(known, t)
    ensures Find(Refreshed(tasks, known), t).Some? && Find(known, t).Some?
    ensures Find(Refreshed(tasks, known), t).value.directory == Find(known, t).value.directory
    ensures Find(Refreshed(tasks, known), t).value.subagents == Find(known, t).value.subagents
    decreases |tasks|
  {
    FindExact(known, t);
    var renewed := Refreshed(tasks, known);
    if SameTask(renewed[0], t) {
      SameFind(known, tasks[0], t);
    } else {
      assert renewed[1..] == Refreshed(tasks[1..], known);
      var i :| 0 <= i < |renewed| && SameTask(renewed[i], t);
      assert SameTask(renewed[1..][i - 1], t);
      FirstFresh(tasks[1..], known, t);
    }
  }

  lemma {:induction false} FindInPrefix(some: seq<Task>, all: seq<Task>, t: Task)
    requires some <= all && Has(some, t)
    ensures Find(all, t) == Find(some, t)
    decreases |some|
  {
    if !SameTask(some[0], t) {
      var i :| 0 <= i < |some| && SameTask(some[i], t);
      assert SameTask(some[1..][i - 1], t);
      FindInPrefix(some[1..], all[1..], t);
    }
  }

  lemma {:induction false} FindAppended(tasks: seq<Task>, last: Task, t: Task)
    ensures Find(tasks + [last], t) == if Find(tasks, t).Some? then Find(tasks, t) else if SameTask(last, t) then Some(last) else None
    decreases |tasks|
  {
    if tasks == [] {
      assert (tasks + [last])[1..] == [];
    } else {
      assert (tasks + [last])[1..] == tasks[1..] + [last];
      FindAppended(tasks[1..], last, t);
    }
  }

  /** A retained task is the first of its name among the known ones. */
  lemma {:induction false} FindRetained(tasks: seq<Task>, known: seq<Task>, t: Task)
    requires !Has(tasks, t)
    ensures Find(Retain(tasks, known), t) == Find(known, t)
    decreases |known|
  {
    FindExact(tasks, t);
    if known != [] {
      var n := |known| - 1;
      FindRetained(tasks, known[..n], t);
      assert known == known[..n] + [known[n]];
      FindAppended(known[..n], known[n], t);
      FindAppended(Retain(tasks, known[..n]), known[n], t);
      FindExact(Retain(tasks, known[..n]), t);
      if SameTask(known[n], t) && Has(Retain(tasks, known[..n]), known[n]) {
        HasSame(Retain(tasks, known[..n]), known[n], t);
      }
    }
  }

  /** What an inventory's time says about the merged one: it never moves back. */
  lemma ObservationMovesForward(instant: string -> Option<int>, q: Query, inv: Inventory)
    requires q.observedAt.Some? && instant(q.observedAt.value).Some?
    ensures var r := Merged(instant, q, inv);
            r.observedAt.Some? && instant(r.observedAt.value).Some?
            && instant(r.observedAt.value).value >= instant(q.observedAt.value).value
  {
  }
}
