/** Route plans: an append-only log with compare-and-swap edits and idempotent requests (src/route_plan.rs). */
module RoutePlans {
  import opened Prelude

  const MAX_JOURNAL_BYTES: nat := 4 * 1024 * 1024
  const MAX_PLANS: nat := 64
  const MAX_U64: nat := 0xFFFF_FFFF_FFFF_FFFF
  const NEWLINE: byte := 10

  datatype PlanInput = PlanInput(
    requestId: string, routeId: Option<string>, expectedRevision: nat, worktree: string, goal: string,
    targetRef: Option<string>, milestones: seq<string>, delivery: string, source: string, abandoned: bool)

  datatype RoutePlan = RoutePlan(
    routeId: string, repository: string, revision: nat, worktree: string, startCommit: string, goal: string,
    targetRef: Option<string>, milestones: seq<string>, delivery: string, source: string, abandoned: bool, updatedAt: string)

  datatype Record = Record(input: PlanInput, plan: RoutePlan)

  datatype Error =
    | BadInput | BadLine | Inconsistent | TooManyPlans | LogTooLarge | IncompleteLog
    | RequestReused | UnknownRoute | Conflict(revision: nat, current: Option<RoutePlan>)
    | UnknownWorktree | NoStartCommit | RevisionOverflow

  /** JSON lines, and the checks on single fields. */
  datatype Env = Env(
    repository: string, encode: Record -> Bytes, decode: Bytes -> Option<Record>, validInput: PlanInput -> bool,
    validRoute: string -> bool, validOid: string -> bool, validTime: string -> bool)

  ghost predicate Lawful(env: Env) {
    && (forall r :: env.decode(env.encode(r)) == Some(r))
    && (forall r :: env.encode(r) != [] && NEWLINE !in env.encode(r))
  }

  function CheckedAdd(n: nat): Option<nat> {
    if n < MAX_U64 then Some(n + 1) else None
  }

  // ----- what a consistent log is -----

  /** How many records of the route the log holds. */
  function Count(log: seq<Record>, route: string): nat {
    if log == [] then 0
    else
      var n := |log| - 1;
      Count(log[..n], route) + if log[n].plan.routeId == route then 1 else 0
  }

  function Routes(log: seq<Record>): set<string> {
    set r | r in log :: r.plan.routeId
  }

  predicate CopiesInput(r: Record) {
    && r.plan.worktree == r.input.worktree && r.plan.goal == r.input.goal && r.plan.targetRef == r.input.targetRef
    && r.plan.milestones == r.input.milestones && r.plan.delivery == r.input.delivery && r.plan.source == r.input.source
    && r.plan.abandoned == r.input.abandoned
  }

  predicate FieldsOk(env: Env, r: Record) {
    && env.validInput(r.input) && env.validRoute(r.plan.routeId) && env.validOid(r.plan.startCommit)
    && r.plan.repository == env.repository && CopiesInput(r) && env.validTime(r.plan.updatedAt)
  }

  /** The record is the next edit of its route, or the first, and its request is new. */
  ghost predicate Follows(env: Env, before: seq<Record>, r: Record) {
    && FieldsOk(env, r)
    && r.input.expectedRevision == Count(before, r.plan.routeId)
    && CheckedAdd(r.input.expectedRevision) == Some(r.plan.revision)
    && r.input.routeId == (if r.plan.revision == 1 then None else Some(r.plan.routeId))
    && (forall x :: x in before && x.plan.routeId == r.plan.routeId ==> x.plan.startCommit == r.plan.startCommit)
    && (forall x :: x in before ==> x.input.requestId != r.input.requestId)
  }

  ghost predicate Linked(env: Env, log: seq<Record>) {
    log == [] || (Linked(env, log[..|log| - 1]) && Follows(env, log[..|log| - 1], log[|log| - 1]))
  }

  ghost predicate Consistent(env: Env, log: seq<Record>) {
    Linked(env, log) && |Routes(log)| <= MAX_PLANS
  }

  // ----- the bytes of the log -----

  function Encode(env: Env, log: seq<Record>): Bytes {
    if log == [] then [] else Encode(env, log[..|log| - 1]) + env.encode(log[|log| - 1]) + [NEWLINE]
  }

  /** The non-empty lines; what follows the last newline is a line as well. */
  function Lines(bytes: Bytes): seq<Bytes> {
    LinesFrom([], bytes)
  }

  function LinesFrom(line: Bytes, rest: Bytes): seq<Bytes>
    decreases |rest|
  {
    if rest == [] then (if line == [] then [] else [line])
    else if rest[0] == NEWLINE then (if line == [] then [] else [line]) + LinesFrom([], rest[1..])
    else LinesFrom(line + [rest[0]], rest[1..])
  }

  lemma {:induction false} LineEnds(line: Bytes, text: Bytes, rest: Bytes)
    requires NEWLINE !in text
    ensures LinesFrom(line, text + [NEWLINE] + rest) == (if line + text == [] then [] else [line + text]) + LinesFrom([], rest)
    decreases |text|
  {
    var all := text + [NEWLINE] + rest;
    if text == [] {
      assert all == [NEWLINE] + rest && all[1..] == rest && line + text == line;
    } else {
      assert all[1..] == text[1..] + [NEWLINE] + rest;
      LineEnds(line + [text[0]], text[1..], rest);
      assert line + [text[0]] + text[1..] == line + text;
    }
  }

  function EncodeEach(env: Env, log: seq<Record>): (s: seq<Bytes>)
    ensures |s| == |log| && forall i :: 0 <= i < |s| ==> s[i] == env.encode(log[i])
  {
    seq(|log|, i requires 0 <= i < |log| => env.encode(log[i]))
  }

  lemma {:induction false} LinesOfEncoded(env: Env, log: seq<Record>, rest: Bytes)
    requires Lawful(env)
    ensures Lines(Encode(env, log) + rest) == EncodeEach(env, log) + Lines(rest)
    decreases |log|
  {
    if log == [] {
      assert Encode(env, log) + rest == rest;
    } else {
      var n := |log| - 1;
      var line := env.encode(log[n]);
      assert Encode(env, log) + rest == Encode(env, log[..n]) + (line + [NEWLINE] + rest);
      LinesOfEncoded(env, log[..n], line + [NEWLINE] + rest);
      LineEnds([], line, rest);
      assert [] + line == line;
      assert EncodeEach(env, log) == EncodeEach(env, log[..n]) + [line];
    }
  }

  function Decoded(env: Env, lines: seq<Bytes>): Option<seq<Record>> {
    if lines == [] then Some([])
    else
      var n := |lines| - 1;
      var before := Decoded(env, lines[..n]);
      var last := env.decode(lines[n]);
      if before.Some? && last.Some? then Some(before.value + [last.value]) else None
  }

  lemma {:induction false} DecodesEncoded(env: Env, log: seq<Record>)
    requires Lawful(env)
    ensures Decoded(env, EncodeEach(env, log)) == Some(log)
    decreases |log|
  {
    if log != [] {
      var n := |log| - 1;
      assert EncodeEach(env, log)[..n] == EncodeEach(env, log[..n]);
      DecodesEncoded(env, log[..n]);
      assert log == log[..n] + [log[n]];
    }
  }

  lemma {:induction false} DecodedPrefix(env: Env, lines: seq<Bytes>, i: nat)
    requires i <= |lines|
    ensures Decoded(env, lines).Some? ==> Decoded(env, lines[..i]).Some? && |Decoded(env, lines).value| == |lines|
    ensures Decoded(env, lines).Some? ==> Decoded(env, lines[..i]).value == Decoded(env, lines).value[..i]
    decreases |lines|
  {
    if i == |lines| {
      assert lines[..i] == lines;
      if lines != [] {
        DecodedPrefix(env, lines[..i - 1], i - 1);
      }
    } else {
      var n := |lines| - 1;
      DecodedPrefix(env, lines[..n], i);
      assert lines[..n][..i] == lines[..i];
    }
  }

  lemma {:induction false} LinkedPrefix(env: Env, log: seq<Record>, i: nat)
    requires Linked(env, log) && i <= |log|
    ensures Linked(env, log[..i])
    decreases |log|
  {
    if i == |log| {
      assert log[..i] == log;
    } else {
      LinkedPrefix(env, log[..|log| - 1], i);
      assert log[..|log| - 1][..i] == log[..i];
    }
  }

  // ----- reading the log -----

  /** The maps the parser keeps: the last revision and the start of every route, and the requests seen. */
  ghost predicate Tracks(records: seq<Record>, revisions: map<string, nat>, starts: map<string, string>, requests: set<string>) {
    && revisions.Keys == Routes(records) && starts.Keys == Routes(records)
    && (forall id :: id in revisions ==> revisions[id] == Count(records, id))
    && (forall r :: r in records ==> starts[r.plan.routeId] == r.plan.startCommit)
    && requests == set r | r in records :: r.input.requestId
  }

  lemma {:induction false} NoRecords(log: seq<Record>, id: string)
    ensures Count(log, id) == 0 <==> id !in Routes(log)
    decreases |log|
  {
    if log != [] {
      var n := |log| - 1;
      NoRecords(log[..n], id);
      assert log == log[..n] + [log[n]];
      assert log[n] in log;
      assert Routes(log) == Routes(log[..n]) + {log[n].plan.routeId};
    }
  }

  lemma TrackMore(env: Env, records: seq<Record>, revisions: map<string, nat>, starts: map<string, string>, requests: set<string>, r: Record)
    requires Tracks(records, revisions, starts, requests) && Follows(env, records, r)
    ensures Tracks(records + [r], revisions[r.plan.routeId := r.plan.revision], starts[r.plan.routeId := r.plan.startCommit],
                   requests + {r.input.requestId})
  {
    CountMore(records, r);
    RoutesMore(records, r);
    RequestsMore(records, r);
    FirstStartsStay(env, records, starts, r);
  }

  lemma RequestsMore(records: seq<Record>, r: Record)
    ensures (set x | x in records + [r] :: x.input.requestId) == (set x | x in records :: x.input.requestId) + {r.input.requestId}
  {
  }

  lemma FirstStartsStay(env: Env, records: seq<Record>, starts: map<string, string>, r: Record)
    requires starts.Keys == Routes(records) && (forall x :: x in records ==> starts[x.plan.routeId] == x.plan.startCommit)
    requires Follows(env, records, r)
    ensures forall x :: x in records + [r] ==> starts[r.plan.routeId := r.plan.startCommit][x.plan.routeId] == x.plan.startCommit
  {
  }

  lemma CountMore(records: seq<Record>, r: Record)
    ensures forall id :: Count(records + [r], id) == Count(records, id) + if r.plan.routeId == id then 1 else 0
  {
    assert (records + [r])[..|records|] == records;
  }

  /** One line of the log, in the order the source checks it. */
  method CheckLine(env: Env, ghost records: seq<Record>, revisions: map<string, nat>, starts: map<string, string>,
                   requests: set<string>, r: Record) returns (ok: bool)
    requires Tracks(records, revisions, starts, requests)
    ensures ok <==> Follows(env, records, r)
  {
    var p, i := r.plan, r.input;
    NoRecords(records, p.routeId);
    if !env.validInput(i) {
      return false;
    }
    if !env.validRoute(p.routeId) || !env.validOid(p.startCommit) || p.repository != env.repository || !CopiesInput(r)
       || CheckedAdd(i.expectedRevision) != Some(p.revision)
       || (p.revision == 1 && i.routeId.Some?) || (p.revision > 1 && i.routeId != Some(p.routeId))
       || !env.validTime(p.updatedAt) || (p.routeId in starts && starts[p.routeId] != p.startCommit) {
      SameStarts(records, starts, p);
      return false;
    }
    var revision := if p.routeId in revisions then revisions[p.routeId] else 0;
    SameStarts(records, starts, p);
    ok := CheckedAdd(revision) == Some(p.revision) && i.requestId !in requests;
  }

  lemma SameStarts(records: seq<Record>, starts: map<string, string>, p: RoutePlan)
    requires starts.Keys == Routes(records) && forall r :: r in records ==> starts[r.plan.routeId] == r.plan.startCommit
    ensures (p.routeId in starts && starts[p.routeId] != p.startCommit) <==>
            exists x :: x in records && x.plan.routeId == p.routeId && x.plan.startCommit != p.startCommit
  {
    if p.routeId in starts && starts[p.routeId] != p.startCommit {
      var x :| x in records && x.plan.routeId == p.routeId;
    }
  }

  /** `parse_records`: accepts exactly the lines of a consistent log. */
  method ParseRecords(env: Env, bytes: Bytes) returns (r: Result<seq<Record>, Error>)
    ensures r.Ok? <==> Decoded(env, Lines(bytes)).Some? && Consistent(env, Decoded(env, Lines(bytes)).value)
    ensures r.Ok? ==> Decoded(env, Lines(bytes)) == Some(r.value)
  {
    var lines := Lines(bytes);
    var records: seq<Record> := [];
    var revisions: map<string, nat>, starts: map<string, string>, requests: set<string> := map[], map[], {};
    for i := 0 to |lines|
      invariant Decoded(env, lines[..i]) == Some(records) && Linked(env, records)
      invariant Tracks(records, revisions, starts, requests)
    {
      var record := env.decode(lines[i]);
      NextDecoded(env, lines, i, records);
      if record.None? {
        return Err(BadLine);
      }
      var ok := CheckLine(env, records, revisions, starts, requests, record.value);
      MustFollow(env, lines, i, records, record.value);
      if !ok {
        return Err(Inconsistent);
      }
      TrackMore(env, records, revisions, starts, requests, record.value);
      revisions := revisions[record.value.plan.routeId := record.value.plan.revision];
      starts := starts[record.value.plan.routeId := record.value.plan.startCommit];
      requests := requests + {record.value.input.requestId};
      assert (records + [record.value])[..|records|] == records;
      records := records + [record.value];
    }
    assert lines[..|lines|] == lines;
    assert revisions.Keys == Routes(records);
    if |revisions| > MAX_PLANS {
      assert |revisions| == |revisions.Keys|;
      return Err(TooManyPlans);
    }
    r := Ok(records);
  }

  lemma NextDecoded(env: Env, lines: seq<Bytes>, i: nat, records: seq<Record>)
    requires i < |lines| && Decoded(env, lines[..i]) == Some(records)
    ensures var d := env.decode(lines[i]);
            Decoded(env, lines[..i + 1]) == if d.Some? then Some(records + [d.value]) else None
    ensures env.decode(lines[i]).None? ==> Decoded(env, lines).None?
  {
    TakeMore(lines, i);
    assert lines[..i + 1][..i] == lines[..i];
    DecodedPrefix(env, lines, i + 1);
  }

  /** In an accepted log this record follows those before it. */
  lemma MustFollow(env: Env, lines: seq<Bytes>, i: nat, records: seq<Record>, record: Record)
    requires i < |lines| && Decoded(env, lines[..i]) == Some(records) && Decoded(env, lines[..i + 1]) == Some(records + [record])
    ensures Decoded(env, lines).Some? && Linked(env, Decoded(env, lines).value) ==> Follows(env, records, record)
  {
    DecodedPrefix(env, lines, i + 1);
    if Decoded(env, lines).Some? && Linked(env, Decoded(env, lines).value) {
      var all := Decoded(env, lines).value;
      LinkedPrefix(env, all, i + 1);
      assert all[..i + 1] == records + [record];
      assert (records + [record])[..|records|] == records;
    }
  }

  // ----- deciding an edit -----

  function FirstWithRequest(log: seq<Record>, request: string): Option<Record> {
    if log == [] then None
    else if log[0].input.requestId == request then Some(log[0])
    else FirstWithRequest(log[1..], request)
  }

  function LastOfRoute(log: seq<Record>, route: string): Option<Record> {
    if log == [] then None
    else
      var n := |log| - 1;
      if log[n].plan.routeId == route then Some(log[n]) else LastOfRoute(log[..n], route)
  }

  function FirstOfRoute(log: seq<Record>, route: string): Option<Record> {
    if log == [] then None
    else if log[0].plan.routeId == route then Some(log[0])
    else FirstOfRoute(log[1..], route)
  }

  predicate NoCommit(head: string) {
    forall i :: 0 <= i < |head| ==> head[i] == '0'
  }

  /** What the surroundings contribute to one call: the head of the live worktree, a fresh identifier, the time. */
  datatype Now = Now(live: Option<string>, newId: string, time: string)

  function NewPlan(env: Env, input: PlanInput, route: string, revision: nat, start: string, time: string): RoutePlan {
    RoutePlan(route, env.repository, revision, input.worktree, start, input.goal, input.targetRef, input.milestones,
              input.delivery, input.source, input.abandoned, time)
  }

  /** `build`: answers from the log, refuses, or decides the record to append. */
  function Build(env: Env, input: PlanInput, log: seq<Record>, now: Now): Result<(RoutePlan, Option<Record>), Error> {
    var existing := FirstWithRequest(log, input.requestId);
    if existing.Some? then
      if existing.value.input == input then Ok((existing.value.plan, None)) else Err(RequestReused)
    else
      var previous := if input.routeId.Some? then LastOfRoute(log, input.routeId.value) else None;
      var actual := if previous.Some? then previous.value.plan.revision else 0;
      if input.routeId.Some? && previous.None? then Err(UnknownRoute)
      else if actual != input.expectedRevision then
        Err(Conflict(actual, if previous.Some? then Some(previous.value.plan) else None))
      else if previous.None? && |Routes(log)| >= MAX_PLANS then Err(TooManyPlans)
      else if now.live.None? && !(previous.Some? && previous.value.plan.worktree == input.worktree) then Err(UnknownWorktree)
      else if previous.None? && NoCommit(now.live.value) then Err(NoStartCommit)
      else if CheckedAdd(actual).None? then Err(RevisionOverflow)
      else
        var start := if previous.Some? then previous.value.plan.startCommit else now.live.value;
        var route := if previous.Some? then previous.value.plan.routeId else now.newId;
        var plan := NewPlan(env, input, route, actual + 1, start, now.time);
        Ok((plan, Some(Record(input, plan))))
  }

  /** A fresh identifier is well-formed and unused; heads of live worktrees are object names; the clock writes RFC 3339. */
  ghost predicate NowOk(env: Env, log: seq<Record>, now: Now) {
    && env.validRoute(now.newId) && now.newId !in Routes(log) && env.validTime(now.time)
    && (now.live.Some? && !NoCommit(now.live.value) ==> env.validOid(now.live.value))
  }

  // ----- what the log shows -----

  lemma {:induction false} LastExact(env: Env, log: seq<Record>, route: string)
    requires Linked(env, log)
    ensures LastOfRoute(log, route).None? <==> Count(log, route) == 0
    ensures var r := LastOfRoute(log, route);
            r.Some? ==> r.value in log && r.value.plan.routeId == route && r.value.plan.revision == Count(log, route)
    decreases |log|
  {
    if log != [] {
      LastExact(env, log[..|log| - 1], route);
    }
  }

  lemma {:induction false} FirstRequestExact(log: seq<Record>, request: string)
    ensures var r := FirstWithRequest(log, request);
            if r.Some? then r.value in log && r.value.input.requestId == request
            else forall x :: x in log ==> x.input.requestId != request
    decreases |log|
  {
    if log != [] && log[0].input.requestId != request {
      FirstRequestExact(log[1..], request);
      assert log == [log[0]] + log[1..];
    }
  }

  /** The record at `i`, as it was when it was appended. */
  lemma AtAppend(env: Env, log: seq<Record>, i: nat)
    requires Linked(env, log) && i < |log|
    ensures Linked(env, log[..i]) && Follows(env, log[..i], log[i])
  {
    LinkedPrefix(env, log, i + 1);
    assert log[..i + 1][..i] == log[..i];
  }

  /** The revisions of a route are 1, 2, ... in the order of its records. */
  lemma RevisionsCount(env: Env, log: seq<Record>, i: nat)
    requires Linked(env, log) && i < |log|
    ensures log[i].plan.revision == Count(log[..i + 1], log[i].plan.routeId)
    ensures log[i].plan.revision == 1 <==> log[i].input.routeId.None?
  {
    AtAppend(env, log, i);
    assert log[..i + 1][..i] == log[..i];
  }

  lemma {:induction false} CountGrows(log: seq<Record>, i: nat, j: nat, route: string)
    requires i <= j <= |log|
    ensures Count(log[..i], route) <= Count(log[..j], route)
    decreases j
  {
    if i < j {
      assert log[..j][..j - 1] == log[..j - 1];
      CountGrows(log, i, j - 1, route);
    }
  }

  /** Of two edits that name the same revision of a route, at most one is in the log. */
  lemma OneWinner(env: Env, log: seq<Record>, i: nat, j: nat)
    requires Linked(env, log) && i < j < |log| && log[i].plan.routeId == log[j].plan.routeId
    ensures log[i].input.expectedRevision < log[j].input.expectedRevision
    ensures log[i].plan.revision < log[j].plan.revision
  {
    ExpectedIsCount(env, log, i);
    ExpectedIsCount(env, log, j);
    CountGrows(log, i + 1, j, log[i].plan.routeId);
  }

  lemma ExpectedIsCount(env: Env, log: seq<Record>, i: nat)
    requires Linked(env, log) && i < |log|
    ensures log[i].input.expectedRevision == Count(log[..i], log[i].plan.routeId)
    ensures log[i].plan.revision == log[i].input.expectedRevision + 1 == Count(log[..i + 1], log[i].plan.routeId)
  {
    AtAppend(env, log, i);
    assert log[..i + 1][..i] == log[..i];
  }

  /** A route keeps its start commit, and no request is used twice. */
  lemma StartFixedRequestsUnique(env: Env, log: seq<Record>, i: nat, j: nat)
    requires Linked(env, log) && i < j < |log|
    ensures log[i].plan.routeId == log[j].plan.routeId ==> log[i].plan.startCommit == log[j].plan.startCommit
    ensures log[i].input.requestId != log[j].input.requestId
  {
    AtAppend(env, log, j);
    assert log[..j][i] == log[i];
  }

  lemma SameRequest(env: Env, log: seq<Record>, a: Record, b: Record)
    requires Linked(env, log) && a in log && b in log && a.input.requestId == b.input.requestId
    ensures a == b
  {
    var i :| 0 <= i < |log| && log[i] == a;
    var j :| 0 <= j < |log| && log[j] == b;
    if i < j {
      StartFixedRequestsUnique(env, log, i, j);
    } else if j < i {
      StartFixedRequestsUnique(env, log, j, i);
    }
  }

  /** A request that is in the log is answered with its own result, however many edits came after it. */
  lemma RepeatAnswersFirst(env: Env, log: seq<Record>, later: seq<Record>, r: Record, now: Now)
    requires Linked(env, log + later) && r in log
    ensures Build(env, r.input, log + later, now) == Ok((r.plan, None))
  {
    FirstRequestExact(log + later, r.input.requestId);
    SameRequest(env, log + later, FirstWithRequest(log + later, r.input.requestId).value, r);
  }

  /** The same request with other content is refused. */
  lemma ReuseRefused(env: Env, log: seq<Record>, r: Record, input: PlanInput, now: Now)
    requires Linked(env, log) && r in log && input.requestId == r.input.requestId && input != r.input
    ensures Build(env, input, log, now) == Err(RequestReused)
  {
    FirstRequestExact(log, input.requestId);
    SameRequest(env, log, FirstWithRequest(log, input.requestId).value, r);
  }

  lemma {:induction false} RouteStart(env: Env, log: seq<Record>, a: Record, b: Record)
    requires Linked(env, log) && a in log && b in log && a.plan.routeId == b.plan.routeId
    ensures a.plan.startCommit == b.plan.startCommit
  {
    var i :| 0 <= i < |log| && log[i] == a;
    var j :| 0 <= j < |log| && log[j] == b;
    if i < j {
      StartFixedRequestsUnique(env, log, i, j);
    } else if j < i {
      StartFixedRequestsUnique(env, log, j, i);
    }
  }

  /** The record `build` decides on keeps the log consistent. */
  lemma BuildFollows(env: Env, input: PlanInput, log: seq<Record>, now: Now, r: Record)
    requires Consistent(env, log) && env.validInput(input) && NowOk(env, log, now)
    requires Build(env, input, log, now) == Ok((r.plan, Some(r)))
    ensures r.input == input && Follows(env, log, r) && Consistent(env, log + [r])
  {
    FirstRequestExact(log, input.requestId);
    NoRecords(log, now.newId);
    if input.routeId.Some? {
      LastExact(env, log, input.routeId.value);
      var previous := LastOfRoute(log, input.routeId.value).value;
      ValidFields(env, log, previous);
      forall x | x in log && x.plan.routeId == r.plan.routeId
        ensures x.plan.startCommit == r.plan.startCommit
      {
        RouteStart(env, log, x, previous);
      }
    }
    assert (log + [r])[..|log|] == log;
    RoutesStayFew(env, input, log, now, r);
  }

  lemma ValidFields(env: Env, log: seq<Record>, r: Record)
    requires Linked(env, log) && r in log
    ensures FieldsOk(env, r)
  {
    var i :| 0 <= i < |log| && log[i] == r;
    AtAppend(env, log, i);
  }

  lemma RoutesStayFew(env: Env, input: PlanInput, log: seq<Record>, now: Now, r: Record)
    requires Consistent(env, log) && Build(env, input, log, now) == Ok((r.plan, Some(r)))
    ensures |Routes(log + [r])| <= MAX_PLANS
  {
    BuiltRoute(env, input, log, now, r);
    RoutesMore(log, r);
    if r.plan.routeId in Routes(log) {
      assert Routes(log) + {r.plan.routeId} == Routes(log);
    }
  }

  /** A new record is for a known route, or there is room for one more. */
  lemma BuiltRoute(env: Env, input: PlanInput, log: seq<Record>, now: Now, r: Record)
    requires Linked(env, log) && Build(env, input, log, now) == Ok((r.plan, Some(r)))
    ensures r.plan.routeId in Routes(log) || |Routes(log)| < MAX_PLANS
  {
    if input.routeId.Some? {
      LastExact(env, log, input.routeId.value);
    }
  }

  /** An edit lands exactly when it names the revision its route is at; otherwise it learns the current one. */
  lemma CompareAndSwap(env: Env, input: PlanInput, log: seq<Record>, now: Now, route: string)
    requires Consistent(env, log) && input.routeId == Some(route) && route in Routes(log)
    requires forall x :: x in log ==> x.input.requestId != input.requestId
    requires now.live.Some? && CheckedAdd(Count(log, route)).Some?
    ensures LastOfRoute(log, route).Some?
    ensures input.expectedRevision == Count(log, route) <==> Build(env, input, log, now).Ok?
    ensures input.expectedRevision != Count(log, route) ==>
              Build(env, input, log, now) == Err(Conflict(Count(log, route), Some(LastOfRoute(log, route).value.plan)))
    ensures Build(env, input, log, now).Ok? ==>
              var plan := Build(env, input, log, now).value.0;
              plan.routeId == route && plan.revision == Count(log, route) + 1
              && plan.startCommit == LastOfRoute(log, route).value.plan.startCommit
  {
    FirstRequestExact(log, input.requestId);
    NoRecords(log, route);
    LastExact(env, log, route);
  }

  // ----- the store -----

  method ReadRecords(env: Env, bytes: Bytes) returns (r: Result<seq<Record>, Error>)
    ensures r.Ok? <==>
            && |bytes| <= MAX_JOURNAL_BYTES && (bytes == [] || bytes[|bytes| - 1] == NEWLINE)
            && Decoded(env, Lines(bytes)).Some? && Consistent(env, Decoded(env, Lines(bytes)).value)
    ensures r.Ok? ==> Decoded(env, Lines(bytes)) == Some(r.value)
  {
    if |bytes| > MAX_JOURNAL_BYTES {
      return Err(LogTooLarge);
    }
    if bytes != [] && bytes[|bytes| - 1] != NEWLINE {
      return Err(IncompleteLog);
    }
    r := ParseRecords(env, bytes);
  }

  /** The file that holds the encoding of a consistent log is read back as that log. */
  lemma ReadsBack(env: Env, log: seq<Record>)
    requires Lawful(env)
    ensures Decoded(env, Lines(Encode(env, log))) == Some(log)
    ensures Encode(env, log) == [] || Encode(env, log)[|Encode(env, log)| - 1] == NEWLINE
  {
    LinesOfEncoded(env, log, []);
    assert Encode(env, log) + [] == Encode(env, log) && EncodeEach(env, log) + Lines([]) == EncodeEach(env, log);
    DecodesEncoded(env, log);
  }

  class RoutePlanStore {
    const env: Env
    var file: Bytes
    ghost var log: seq<Record>

    ghost predicate Valid()
      reads this
    {
      Lawful(env) && Consistent(env, log) && file == Encode(env, log) && |file| <= MAX_JOURNAL_BYTES
    }

    constructor (env: Env)
      requires Lawful(env)
      ensures Valid() && this.env == env && log == []
    {
      this.env := env;
      file, log := [], [];
    }

    method Read() returns (records: seq<Record>)
      requires Valid()
      ensures records == log
    {
      ReadsBack(env, log);
      var read := ReadRecords(env, file);
      records := read.value;
    }

    /** One locked `set`. The log only grows, by at most the record of this request. */
    method Set(input: PlanInput, now: Now) returns (r: Result<RoutePlan, Error>)
      requires Valid() && NowOk(env, log, now)
      modifies this
      ensures Valid()
      ensures r.Err? ==> log == old(log)
      ensures r.Ok? ==> var built := Build(env, input, old(log), now);
                        built.Ok? && r.value == built.value.0
                        && log == old(log) + if built.value.1.Some? then [built.value.1.value] else []
      ensures r.Ok? ==> exists x :: x in log && x.input == input && x.plan == r.value
      ensures r.Err? && env.validInput(input) ==>
                var built := Build(env, input, old(log), now);
                built == Err(r.error)
                || (r.error == LogTooLarge && built.Ok? && built.value.1.Some?
                    && |Encode(env, log + [built.value.1.value])| > MAX_JOURNAL_BYTES)
    {
      if !env.validInput(input) {
        return Err(BadInput);
      }
      var records := Read();
      var built := Build(env, input, records, now);
      if built.Err? {
        return Err(built.error);
      }
      if built.value.1.None? {
        FirstRequestExact(log, input.requestId);
        return Ok(built.value.0);
      }
      var record := built.value.1.value;
      BuildFollows(env, input, log, now, record);
      var bytes := env.encode(record) + [NEWLINE];
      EncodeMore(env, log, record);
      if |file| + |bytes| > MAX_JOURNAL_BYTES {
        return Err(LogTooLarge);
      }
      file := file + bytes;
      log := log + [record];
      assert record in log;
      r := Ok(built.value.0);
    }

    /** `list_with_starts`: the latest plan and the first record of every route. */
    method ListWithStarts() returns (latest: map<string, RoutePlan>, starts: map<string, (string, string)>)
      requires Valid()
      ensures LatestListed(log, latest) && StartsListed(log, starts)
      ensures forall id :: id in latest ==> latest[id].revision == Count(log, id)
    {
      var records := Read();
      latest, starts := map[], map[];
      for i := 0 to |records|
        invariant LatestListed(records[..i], latest) && StartsListed(records[..i], starts)
      {
        var record := records[i];
        TakeMore(records, i);
        LatestMore(records[..i], latest, record);
        StartsMore(records[..i], starts, record);
        if record.plan.routeId !in starts {
          starts := starts[record.plan.routeId := (record.plan.updatedAt, record.plan.source)];
        }
        latest := latest[record.plan.routeId := record.plan];
      }
      assert records[..|records|] == log;
      RevisionsListed(env, log, latest);
    }
  }

  lemma EncodeMore(env: Env, log: seq<Record>, r: Record)
    ensures Encode(env, log + [r]) == Encode(env, log) + (env.encode(r) + [NEWLINE])
  {
    assert (log + [r])[..|log|] == log;
    Associate(Encode(env, log), env.encode(r), [NEWLINE]);
  }

  ghost predicate LatestListed(log: seq<Record>, latest: map<string, RoutePlan>) {
    && latest.Keys == Routes(log)
    && forall id :: id in latest ==> LastOfRoute(log, id).Some? && latest[id] == LastOfRoute(log, id).value.plan
  }

  lemma RevisionsListed(env: Env, log: seq<Record>, latest: map<string, RoutePlan>)
    requires Linked(env, log) && LatestListed(log, latest)
    ensures forall id :: id in latest ==> latest[id].revision == Count(log, id)
  {
    forall id | id in latest
      ensures latest[id].revision == Count(log, id)
    {
      LastExact(env, log, id);
    }
  }

  ghost predicate StartsListed(log: seq<Record>, starts: map<string, (string, string)>) {
    && starts.Keys == Routes(log)
    && forall id :: id in starts ==> FirstOfRoute(log, id).Some?
                                     && starts[id] == (FirstOfRoute(log, id).value.plan.updatedAt, FirstOfRoute(log, id).value.plan.source)
  }

  lemma {:induction false} FirstMore(log: seq<Record>, r: Record, id: string)
    ensures FirstOfRoute(log + [r], id) ==
            if FirstOfRoute(log, id).Some? then FirstOfRoute(log, id) else if r.plan.routeId == id then Some(r) else None
    ensures FirstOfRoute(log, id).Some? <==> id in Routes(log)
    decreases |log|
  {
    if log == [] {
      assert (log + [r])[1..] == [];
    } else {
      assert (log + [r])[1..] == log[1..] + [r];
      FirstMore(log[1..], r, id);
      assert log == [log[0]] + log[1..];
    }
  }

  lemma RoutesMore(log: seq<Record>, r: Record)
    ensures Routes(log + [r]) == Routes(log) + {r.plan.routeId}
  {
  }

  lemma LatestMore(log: seq<Record>, latest: map<string, RoutePlan>, r: Record)
    requires LatestListed(log, latest)
    ensures LatestListed(log + [r], latest[r.plan.routeId := r.plan])
  {
    RoutesMore(log, r);
    assert (log + [r])[..|log|] == log;
  }

  lemma StartsMore(log: seq<Record>, starts: map<string, (string, string)>, r: Record)
    requires StartsListed(log, starts)
    ensures StartsListed(log + [r], if r.plan.routeId in starts then starts
                                    else starts[r.plan.routeId := (r.plan.updatedAt, r.plan.source)])
  {
    RoutesMore(log, r);
    var more := if r.plan.routeId in starts then starts else starts[r.plan.routeId := (r.plan.updatedAt, r.plan.source)];
    forall id | id in more
      ensures FirstOfRoute(log + [r], id).Some?
      ensures more[id] == (FirstOfRoute(log + [r], id).value.plan.updatedAt, FirstOfRoute(log + [r], id).value.plan.source)
    {
      FirstMore(log, r, id);
    }
  }
}
