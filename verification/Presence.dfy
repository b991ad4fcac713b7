/** Who is present: a record folded from journal events, with a lease, and the cursor that folds each event once (src/presence.rs). */
module Presence {
  import opened Prelude
  import opened Events

  const LEASE: int := 120 * 1_000_000_000  // nanoseconds
  const MAX_U32: nat := 0xFFFF_FFFF

  datatype Status = Starting | Working | Waiting | Idle | Completed | Stale | UnknownStatus
  datatype Source = HostExplicit | CaptureEvent | FromLease | GitOnly
  datatype Confidence = Observed | Leased | Inferred | UnknownConfidence

  datatype PresenceRecord = PresenceRecord(
    session: string, actor: string, host: string, route: Option<string>, branch: Option<string>, head: string,
    status: Status, source: Source, confidence: Confidence, grade: CaptureGrade,
    lastEventAt: string, leaseExpiresAt: Option<string>,
    activity: Option<string>, decision: Option<string>, blockers: nat, gaps: nat)

  /** The workspace's own branch and head, and RFC 3339 as a pair of functions. */
  datatype Env = Env(branch: Option<string>, head: string, format: int -> string, instant: string -> Option<int>)

  // The years 0000 to 9999 of RFC 3339, in nanoseconds since 1970.
  const EARLIEST: int := -62_167_219_200 * 1_000_000_000
  const LATEST: int := 253_402_300_800 * 1_000_000_000 - 1

  /** Formatting an instant and parsing it again gives the instant back; several texts may name one instant. */
  ghost predicate Lawful(env: Env) {
    forall t :: EARLIEST <= t <= LATEST ==> env.instant(env.format(t)) == Some(t)
  }

  datatype Error = EmptyBatch | SeveralSessions | MissingPresence | CursorHashMismatch | CursorWithoutPresence
                 | ForeignRecord | NotAccepted | DuplicateWithoutPresence | BadStatus

  // ----- the fold -----

  function ProjectStatus(previous: Option<Status>, e: EventType): Status {
    match e
    case SessionStarted => Starting
    case TurnCompleted => Idle
    case SessionStopped => Completed
    case CaptureGap => if previous.Some? then previous.value else Working
    case OtherEvent(_) => if previous.Some? then previous.value else Working
    case _ => Working
  }

  /** The fields that accumulate over events. */
  datatype Fold = Fold(status: Option<Status>, gaps: nat, activity: Option<string>, decision: Option<string>)

  const EMPTY := Fold(None, 0, None, None)

  function FoldOne(f: Fold, r: Record): Fold {
    var e := r.event.eventType;
    Fold(
      Some(ProjectStatus(f.status, e)),
      if e == CaptureGap && f.gaps < MAX_U32 then f.gaps + 1 else f.gaps,
      if e == ToolRequested then Some(r.event.id)
      else if e == ToolCompleted || e == TurnCompleted || e == SessionStopped then None else f.activity,
      if e == DecisionRecorded then Some(r.event.id) else f.decision)
  }

  function FoldRecords(f: Fold, records: seq<Record>): Fold {
    if records == [] then f else FoldOne(FoldRecords(f, records[..|records| - 1]), records[|records| - 1])
  }

  lemma {:induction false} FoldConcat(f: Fold, xs: seq<Record>, ys: seq<Record>)
    ensures FoldRecords(f, xs + ys) == FoldRecords(FoldRecords(f, xs), ys)
    decreases |ys|
  {
    if ys == [] {
      assert xs + ys == xs;
    } else {
      var n := |ys| - 1;
      assert (xs + ys)[..|xs + ys| - 1] == xs + ys[..n];
      FoldConcat(f, xs, ys[..n]);
    }
  }

  function FoldOf(r: PresenceRecord): Fold {
    Fold(Some(r.status), r.gaps, r.activity, r.decision)
  }

  function StartOf(previous: Option<PresenceRecord>): Fold {
    if previous.Some? then FoldOf(previous.value) else EMPTY
  }

  function Blockers(previous: Option<PresenceRecord>): nat {
    if previous.Some? then previous.value.blockers else 0
  }

  /** The record that folding `records` onto `previous` gives at `now`. */
  function Projected(env: Env, records: seq<Record>, now: int, previous: Option<PresenceRecord>): PresenceRecord
    requires records != []
  {
    var last := records[|records| - 1].event;
    var f := FoldRecords(StartOf(previous), records);
    var status := if f.status.Some? then f.status.value else Working;
    PresenceRecord(
      last.context.session, last.actor, last.host, last.context.route,
      if last.context.branch.Some? then last.context.branch else env.branch,
      if last.context.head.Some? then last.context.head.value else env.head,
      status, if status == Waiting then HostExplicit else CaptureEvent, Observed,
      if last.payload.grade.Some? then last.payload.grade.value else GradeD,
      last.occurredAt, if status == Completed then None else Some(env.format(now + LEASE)),
      f.activity, f.decision, Blockers(previous), f.gaps)
  }

  predicate OneSession(records: seq<Record>) {
    records != [] && forall r :: r in records ==> r.event.context.session == records[0].event.context.session
  }

  /** The loop over the records. */
  method FoldLoop(records: seq<Record>, previous: Option<PresenceRecord>)
    returns (status: Option<Status>, gaps: nat, activity: Option<string>, decision: Option<string>)
    ensures Fold(status, gaps, activity, decision) == FoldRecords(StartOf(previous), records)
  {
    status := if previous.Some? then Some(previous.value.status) else None;
    gaps := if previous.Some? then previous.value.gaps else 0;
    activity := if previous.Some? then previous.value.activity else None;
    decision := if previous.Some? then previous.value.decision else None;
    for i := 0 to |records|
      invariant Fold(status, gaps, activity, decision) == FoldRecords(StartOf(previous), records[..i])
    {
      var e := records[i].event;
      TakeMore(records, i);
      assert (records[..i] + [records[i]])[..i] == records[..i];
      status := Some(ProjectStatus(status, e.eventType));
      match e.eventType {
        case CaptureGap => gaps := if gaps < MAX_U32 then gaps + 1 else gaps;
        case ToolRequested => activity := Some(e.id);
        case ToolCompleted => activity := None;
        case TurnCompleted => activity := None;
        case SessionStopped => activity := None;
        case DecisionRecorded => decision := Some(e.id);
        case _ =>
      }
    }
    assert records[..|records|] == records;
  }

  /** `project_records`. */
  method ProjectRecords(env: Env, records: seq<Record>, now: int, previous: Option<PresenceRecord>)
    returns (r: Result<PresenceRecord, Error>)
    ensures r == if records == [] then Err(EmptyBatch)
                 else if !OneSession(records) then Err(SeveralSessions)
                 else Ok(Projected(env, records, now, previous))
  {
    if records == [] {
      return Err(EmptyBatch);
    }
    if exists x :: x in records && x.event.context.session != records[0].event.context.session {
      return Err(SeveralSessions);
    }
    var status, gaps, activity, decision := FoldLoop(records, previous);
    var last := records[|records| - 1].event;
    assert records[|records| - 1] in records;
    var known := if status.Some? then status.value else Working;
    var completed := known == Completed;
    r := Ok(PresenceRecord(
      records[0].event.context.session, last.actor, last.host, last.context.route,
      if last.context.branch.Some? then last.context.branch else env.branch,
      if last.context.head.Some? then last.context.head.value else env.head,
      known, if known == Waiting then HostExplicit else CaptureEvent, Observed,
      if last.payload.grade.Some? then last.payload.grade.value else GradeD,
      last.occurredAt, if completed then None else Some(env.format(now + LEASE)),
      activity, decision, if previous.Some? then previous.value.blockers else 0, gaps));
  }

  /** Two batches one after the other give what one batch of both gives at the later time. */
  lemma BatchIndependent(env: Env, xs: seq<Record>, ys: seq<Record>, t: int, now: int, previous: Option<PresenceRecord>)
    requires xs != [] && ys != []
    ensures Projected(env, ys, now, Some(Projected(env, xs, t, previous))) == Projected(env, xs + ys, now, previous)
  {
    FoldConcat(StartOf(previous), xs, ys);
    assert (xs + ys)[|xs + ys| - 1] == ys[|ys| - 1];
    StatusKnown(StartOf(previous), xs);
  }

  lemma StatusKnown(f: Fold, records: seq<Record>)
    requires records != []
    ensures FoldRecords(f, records).status.Some?
  {
  }

  // ----- status rules -----

  /** The status rules of `validate_record`. */
  predicate StatusRules(r: PresenceRecord) {
    && !(r.status == Completed && (r.source == FromLease || r.leaseExpiresAt.Some?))
    && !(r.source == FromLease && (r.status != Stale || r.confidence != Leased))
    && !(r.source == GitOnly && r.status != UnknownStatus)
    && !(r.status == Waiting && r.source != HostExplicit)
    && !(r.status == UnknownStatus && (r.source != GitOnly || r.confidence != UnknownConfidence))
  }

  /** What every stored record is like: observed, leased unless completed, and explicit exactly while waiting. */
  ghost predicate Stored(r: PresenceRecord) {
    && r.status != Stale && r.status != UnknownStatus && r.confidence == Observed
    && r.source == (if r.status == Waiting then HostExplicit else CaptureEvent)
    && (r.leaseExpiresAt == None <==> r.status == Completed)
  }

  /** `set_explicit_waiting`. */
  function ExplicitWaiting(env: Env, r: PresenceRecord, activity: Option<string>, now: int): PresenceRecord {
    r.(status := Waiting, source := HostExplicit, confidence := Observed, lastEventAt := env.format(now),
       leaseExpiresAt := Some(env.format(now + LEASE)), activity := activity)
  }

  /** `effective_at`: the record as it reads at `now`. */
  function EffectiveAt(env: Env, r: PresenceRecord, now: int): PresenceRecord {
    if r.status != Completed && r.leaseExpiresAt.Some? && env.instant(r.leaseExpiresAt.value).Some?
       && now > env.instant(r.leaseExpiresAt.value).value
    then r.(status := Stale, source := FromLease, confidence := Leased)
    else r
  }

  lemma {:induction false} FoldStatus(f: Fold, records: seq<Record>)
    requires f.status.Some? ==> f.status.value != Stale && f.status.value != UnknownStatus
    ensures var s := FoldRecords(f, records).status; s.Some? ==> s.value != Stale && s.value != UnknownStatus
    decreases |records|
  {
    if records != [] {
      FoldStatus(f, records[..|records| - 1]);
    }
  }

  /** Folding events keeps the shape of stored records. */
  lemma ProjectionStored(env: Env, records: seq<Record>, now: int, previous: Option<PresenceRecord>)
    requires records != [] && (previous.Some? ==> Stored(previous.value))
    ensures Stored(Projected(env, records, now, previous))
  {
    FoldStatus(StartOf(previous), records);
  }

  lemma WaitingStored(env: Env, r: PresenceRecord, activity: Option<string>, now: int)
    requires Stored(r)
    ensures Stored(ExplicitWaiting(env, r, activity, now))
  {
  }

  /** A stored record meets the rules, now and as it reads at any time. */
  lemma StoredMeetsRules(env: Env, r: PresenceRecord, now: int)
    requires Stored(r)
    ensures StatusRules(r) && StatusRules(EffectiveAt(env, r, now))
  {
  }

  /** A record written at `now` reads as written until its lease ends, and as stale from then on, unless completed. */
  lemma LeaseExact(env: Env, records: seq<Record>, now: int, previous: Option<PresenceRecord>, later: int)
    requires Lawful(env) && records != [] && EARLIEST <= now + LEASE <= LATEST
    requires previous.Some? ==> Stored(previous.value)
    ensures var r := Projected(env, records, now, previous);
            EffectiveAt(env, r, later).status == Stale <==> r.status != Completed && later > now + LEASE
    ensures var r := Projected(env, records, now, previous);
            later <= now + LEASE ==> EffectiveAt(env, r, later) == r
  {
    ProjectionStored(env, records, now, previous);
    assert env.instant(env.format(now + LEASE)) == Some(now + LEASE);
  }

  // ----- the cursor -----

  /** The accepted history of one session, by sequence. */
  ghost predicate Numbered(journal: seq<Record>, id: string) {
    forall i :: 0 <= i < |journal| ==> journal[i].sequence == i + 1 && journal[i].event.context.session == id
  }

  ghost predicate Increasing(rs: seq<Record>) {
    forall i, j :: 0 <= i < j < |rs| ==> rs[i].sequence < rs[j].sequence
  }

  /** Inserting in sequence order; a record of a sequence already there is dropped. */
  function Insert(sorted: seq<Record>, r: Record): seq<Record> {
    if sorted == [] || sorted[|sorted| - 1].sequence < r.sequence then sorted + [r]
    else if sorted[|sorted| - 1].sequence == r.sequence then sorted
    else Insert(sorted[..|sorted| - 1], r) + [sorted[|sorted| - 1]]
  }

  lemma {:induction false} InsertExact(sorted: seq<Record>, r: Record)
    requires Increasing(sorted)
    requires forall x :: x in sorted && x.sequence == r.sequence ==> x == r
    ensures Increasing(Insert(sorted, r)) && forall x :: x in Insert(sorted, r) <==> x in sorted || x == r
    decreases |sorted|
  {
    if sorted != [] && sorted[|sorted| - 1].sequence >= r.sequence {
      var n := |sorted| - 1;
      assert sorted == sorted[..n] + [sorted[n]];
      assert sorted[n] in sorted;
      if sorted[n].sequence > r.sequence {
        InsertExact(sorted[..n], r);
        InsertedBelow(sorted[..n], r, Insert(sorted[..n], r), sorted[n]);
      }
    }
  }

  lemma InsertedBelow(sorted: seq<Record>, r: Record, more: seq<Record>, last: Record)
    requires Increasing(sorted + [last]) && Increasing(more) && r.sequence < last.sequence
    requires forall x :: x in more <==> x in sorted || x == r
    ensures Increasing(more + [last])
  {
    forall i | 0 <= i < |more|
      ensures more[i].sequence < last.sequence
    {
      assert more[i] in more;
      if more[i] != r {
        var k :| 0 <= k < |sorted| && sorted[k] == more[i];
        assert (sorted + [last])[k] == sorted[k] && (sorted + [last])[|sorted|] == last;
      }
    }
  }

  /** The accepted records past `covered` that were delivered. */
  function Pick(journal: seq<Record>, covered: nat, records: seq<Record>): seq<Record> {
    if |journal| <= covered then []
    else
      var n := |journal| - 1;
      Pick(journal[..n], covered, records) + if journal[n] in records then [journal[n]] else []
  }

  lemma {:induction false} PickExact(journal: seq<Record>, covered: nat, records: seq<Record>, id: string)
    requires Numbered(journal, id)
    ensures Increasing(Pick(journal, covered, records))
    ensures forall r :: r in Pick(journal, covered, records) <==> r in journal && r in records && r.sequence > covered
    decreases |journal|
  {
    if |journal| > covered {
      var n := |journal| - 1;
      PickExact(journal[..n], covered, records, id);
      assert journal == journal[..n] + [journal[n]];
      forall r | r in Pick(journal[..n], covered, records)
        ensures r.sequence < journal[n].sequence
      {
        var i :| 0 <= i < n && journal[..n][i] == r;
      }
    } else {
      forall r | r in journal
        ensures r.sequence <= covered
      {
        var i :| 0 <= i < |journal| && journal[i] == r;
      }
    }
  }

  lemma {:induction false} IncreasingUnique(a: seq<Record>, b: seq<Record>)
    requires Increasing(a) && Increasing(b) && forall r :: r in a <==> r in b
    ensures a == b
    decreases |a|
  {
    SameEmptiness(a, b);
    if a != [] {
      var m, n := |a| - 1, |b| - 1;
      SameLast(a, b);
      AllButLast(a);
      AllButLast(b);
      forall r
        ensures r in a[..m] <==> r in b[..n]
      {
        assert r in a <==> r in b;
        assert r in a[..m] <==> r in a && r != a[m];
        assert r in b[..n] <==> r in b && r != b[n];
      }
      assert Increasing(a[..m]);
      assert Increasing(b[..n]);
      IncreasingUnique(a[..m], b[..n]);
    }
  }

  lemma SameEmptiness(a: seq<Record>, b: seq<Record>)
    requires forall r :: r in a <==> r in b
    ensures a == [] <==> b == []
  {
    if a != [] { assert a[0] in b; }
    if b != [] { assert b[0] in a; }
  }

  lemma SameLast(a: seq<Record>, b: seq<Record>)
    requires Increasing(a) && Increasing(b) && a != [] && b != [] && forall r :: r in a <==> r in b
    ensures a[|a| - 1] == b[|b| - 1]
  {
    AllButLast(a);
    AllButLast(b);
    assert a[|a| - 1] in b && b[|b| - 1] in a;
  }

  lemma AllButLast(a: seq<Record>)
    requires Increasing(a) && a != []
    ensures forall r :: r in a ==> r.sequence <= a[|a| - 1].sequence && (r.sequence == a[|a| - 1].sequence ==> r == a[|a| - 1])
    ensures forall r :: r in a[..|a| - 1] <==> r in a && r != a[|a| - 1]
  {
    assert a == a[..|a| - 1] + [a[|a| - 1]];
  }

  /** Where the saved projection ends, and the hash of the record there. */
  datatype Cursor = Cursor(sequence: nat, hash: Option<string>)

  /** What reached the session's presence, in order: folded events and explicit waits. */
  datatype Signal = Folded(record: Record) | Waited(activity: Option<string>)

  function FoldSignals(signals: seq<Signal>): Fold {
    if signals == [] then EMPTY
    else
      var f := FoldSignals(signals[..|signals| - 1]);
      match signals[|signals| - 1]
      case Folded(r) => FoldOne(f, r)
      case Waited(activity) => f.(status := Some(Waiting), activity := activity)
  }

  function FoldedIn(signals: seq<Signal>): seq<Record> {
    if signals == [] then []
    else
      var n := |signals| - 1;
      FoldedIn(signals[..n]) + if signals[n].Folded? then [signals[n].record] else []
  }

  function AsSignals(records: seq<Record>): (s: seq<Signal>)
    ensures |s| == |records| && forall i :: 0 <= i < |s| ==> s[i] == Folded(records[i])
  {
    seq(|records|, i requires 0 <= i < |records| => Folded(records[i]))
  }

  lemma SignalsMore(signals: seq<Signal>, records: seq<Record>)
    requires records != []
    ensures var n, all := |records| - 1, signals + AsSignals(records);
            all != [] && all[..|all| - 1] == signals + AsSignals(records[..n]) && all[|all| - 1] == Folded(records[n])
  {
  }

  lemma {:induction false} FoldAppended(signals: seq<Signal>, records: seq<Record>)
    ensures FoldSignals(signals + AsSignals(records)) == FoldRecords(FoldSignals(signals), records)
    decreases |records|
  {
    if records == [] {
      assert signals + AsSignals(records) == signals;
    } else {
      FoldAppended(signals, records[..|records| - 1]);
      SignalsMore(signals, records);
    }
  }

  lemma {:induction false} RecordsAppended(signals: seq<Signal>, records: seq<Record>)
    ensures FoldedIn(signals + AsSignals(records)) == FoldedIn(signals) + records
    decreases |records|
  {
    if records == [] {
      assert signals + AsSignals(records) == signals;
    } else {
      var n := |records| - 1;
      RecordsAppended(signals, records[..n]);
      SignalsMore(signals, records);
      assert records == records[..n] + [records[n]];
      Associate(FoldedIn(signals), records[..n], [records[n]]);
    }
  }

  /** The saved presence is the fold of what reached it, each accepted record once, up to the cursor. */
  ghost predicate Consistent(journal: seq<Record>, session: string, presence: Option<PresenceRecord>, cursor: Option<Cursor>,
                             history: seq<Signal>)
  {
    && Numbered(journal, session)
    && (presence.Some? ==> Stored(presence.value) && FoldOf(presence.value) == FoldSignals(history))
    && (presence.None? ==> history == [])
    && (cursor.Some? ==> presence.Some?)
    && CoversFolded(journal, cursor, FoldedIn(history))
  }

  lemma SaveKeepsConsistent(env: Env, journal: seq<Record>, session: string, presence: Option<PresenceRecord>,
                            cursor: Option<Cursor>, history: seq<Signal>, sorted: seq<Record>, now: int)
    requires Consistent(journal, session, presence, cursor, history)
    requires sorted != [] && Increasing(sorted) && AllAccepted(journal, session, sorted)
    requires forall x :: x in sorted ==> x.sequence > if cursor.Some? then cursor.value.sequence else 0
    ensures var last := sorted[|sorted| - 1];
            Consistent(journal, session, Some(Projected(env, sorted, now, presence)),
                       Some(Cursor(last.sequence, Some(last.sha))), history + AsSignals(sorted))
    ensures StatusRules(Projected(env, sorted, now, presence)) && OneSession(sorted)
  {
    ProjectionStored(env, sorted, now, presence);
    StoredMeetsRules(env, Projected(env, sorted, now, presence), now);
    CursorMoves(journal, session, cursor, FoldedIn(history), sorted);
    FoldAppended(history, sorted);
    RecordsAppended(history, sorted);
    StatusKnown(StartOf(presence), sorted);
    assert StartOf(presence) == FoldSignals(history);
  }

  /** One session's projection: the accepted journal, the saved presence, and the cursor. */
  class Projection {
    const env: Env
    const session: string
    var journal: seq<Record>
    var presence: Option<PresenceRecord>
    var cursor: Option<Cursor>
    ghost var history: seq<Signal>

    ghost predicate Valid()
      reads this
    {
      Consistent(journal, session, presence, cursor, history)
    }

    constructor (env: Env, session: string)
      ensures Valid() && this.env == env && this.session == session
      ensures journal == [] && presence == None && cursor == None && history == []
    {
      this.env, this.session := env, session;
      journal, presence, cursor, history := [], None, None, [];
    }

    /** The journal accepts more records of the session. */
    method Accept(records: seq<Record>)
      requires Valid() && Numbered(journal + records, session)
      modifies this`journal
      ensures Valid() && journal == old(journal) + records
    {
      journal := journal + records;
    }

    function Covered(): nat
      reads this
    {
      if cursor.Some? then cursor.value.sequence else 0
    }

    /**
     * `observe_sql` for accepted records: what the cursor has passed is skipped, the rest is folded in sequence order,
     * each once, and the cursor moves to the last of them. Any failure leaves everything as it was.
     */
    method Observe(records: seq<Record>, now: int) returns (r: Result<(PresenceRecord, bool), Error>)
      requires Valid()
      modifies this
      ensures Valid() && journal == old(journal)
      ensures r.Ok? <==> records != [] && AllAccepted(journal, session, records)
      ensures r.Err? ==> presence == old(presence) && cursor == old(cursor) && history == old(history)
      ensures r.Ok? ==> presence == Some(r.value.0) && history == old(history) + AsSignals(Pick(journal, old(Covered()), records))
      ensures r.Ok? && Pick(journal, old(Covered()), records) == [] ==>
                !r.value.1 && presence == old(presence) && cursor == old(cursor)
      ensures r.Ok? && Pick(journal, old(Covered()), records) != [] ==> r.value.1 && old(Covered()) < Covered()
    {
      if records == [] {
        return Err(EmptyBatch);
      }
      var covered := Covered();
      CursorStands(journal, session, cursor, FoldedIn(history));
      if cursor.Some? && covered > 0 && Some(journal[covered - 1].sha) != cursor.value.hash {
        return Err(CursorHashMismatch);
      }
      var sorted := NotYetFolded(journal, session, covered, records);
      if sorted.Err? {
        return Err(sorted.error);
      }
      FirstIsPicked(journal, session, records);
      if sorted.value == [] {
        if presence.None? {
          return Err(DuplicateWithoutPresence);
        }
        assert history + AsSignals([]) == history;
        return Ok((presence.value, false));
      }
      r := Save(sorted.value, now);
    }

    /** Folds records the cursor has not passed, and moves it. */
    method Save(sorted: seq<Record>, now: int) returns (r: Result<(PresenceRecord, bool), Error>)
      requires Valid() && sorted != [] && Increasing(sorted) && AllAccepted(journal, session, sorted)
      requires forall x :: x in sorted ==> x.sequence > Covered()
      modifies this
      ensures Valid() && journal == old(journal)
      ensures r.Ok? && r.value == (Projected(env, sorted, now, old(presence)), true) && presence == Some(r.value.0)
      ensures history == old(history) + AsSignals(sorted) && old(Covered()) < Covered()
    {
      SaveKeepsConsistent(env, journal, session, presence, cursor, history, sorted, now);
      var projected := ProjectRecords(env, sorted, now, presence);
      if !StatusRules(projected.value) {
        return Err(BadStatus);
      }
      var last := sorted[|sorted| - 1];
      LastPassesCursor(sorted, Covered());
      cursor := Some(Cursor(last.sequence, Some(last.sha)));
      presence := Some(projected.value);
      history := history + AsSignals(sorted);
      r := Ok((projected.value, true));
    }

    /** `observe_sql` for an explicit wait. */
    method Wait(activity: Option<string>, now: int) returns (r: Result<PresenceRecord, Error>)
      requires Valid()
      modifies this`presence, this`history
      ensures Valid()
      ensures if old(presence).None? then r == Err(MissingPresence) && presence == None && history == old(history)
              else r == Ok(ExplicitWaiting(env, old(presence).value, activity, now)) && presence == Some(r.value)
                   && history == old(history) + [Waited(activity)]
    {
      if presence.None? {
        return Err(MissingPresence);
      }
      WaitingStored(env, presence.value, activity, now);
      presence := Some(ExplicitWaiting(env, presence.value, activity, now));
      history := history + [Waited(activity)];
      assert history[..|history| - 1] == old(history);
      r := Ok(presence.value);
    }

    /**
     * A whole run of deliveries and waits. What was folded is the journal up to the cursor if and only if it was so
     * before and every delivery was whole; then, without waits, the saved fields are one fold over the journal.
     */
    method ObserveAll(steps: seq<Step>) returns (results: seq<bool>)
      requires Valid() && StaysNumbered(journal, session, steps)
      modifies this
      ensures Valid() && |results| == |steps| && old(journal) <= journal
      ensures UpToDate(journal, FoldedIn(history)) <==>
                old(UpToDate(journal, FoldedIn(history))) && AllWhole(old(journal), session, old(Covered()), steps)
      ensures UpToDate(journal, FoldedIn(history)) && NoWaits(history) && presence.Some? ==>
                FoldOf(presence.value) == FoldRecords(EMPTY, journal[..Covered()])
    {
      results := [];
      ghost var whole := UpToDate(journal, FoldedIn(history)) && AllWhole(journal, session, Covered(), steps);
      assert steps[0..] == steps;
      for i := 0 to |steps|
        invariant Valid() && |results| == i && old(journal) <= journal && StaysNumbered(journal, session, steps[i..])
        invariant whole <==>
                    UpToDate(journal, FoldedIn(history)) && AllWhole(journal, session, Covered(), steps[i..])
      {
        assert steps[i..][1..] == steps[i + 1..];
        var ok := Take(steps[i]);
        results := results + [ok];
      }
      FoldIsJournal();
    }

    /** Up to date and without waits, the saved fields are one fold over the journal. */
    lemma FoldIsJournal()
      requires Valid()
      ensures UpToDate(journal, FoldedIn(history)) && NoWaits(history) && presence.Some? ==>
                FoldOf(presence.value) == FoldRecords(EMPTY, journal[..Covered()])
    {
      CursorIsLast(journal, cursor, FoldedIn(history));
      if NoWaits(history) {
        CaptureOnly(history);
      }
    }

    method Take(step: Step) returns (ok: bool)
      requires Valid() && Numbered(journal + step.accepted, session)
      modifies this
      ensures Valid() && journal == old(journal) + step.accepted
      ensures Covered() == NextCovered(journal, session, old(Covered()), step)
      ensures UpToDate(journal, FoldedIn(history)) <==>
                old(UpToDate(journal, FoldedIn(history))) && WholeStep(journal, session, old(Covered()), step)
    {
      LongerJournal(journal, session, step.accepted, cursor, FoldedIn(history));
      Accept(step.accepted);
      match step {
        case Delivered(_, records, now) =>
          ok := Deliver(records, now);
        case WaitStarted(_, activity, now) =>
          ok := StartWait(activity, now);
      }
    }

    method StartWait(activity: Option<string>, now: int) returns (ok: bool)
      requires Valid()
      modifies this`presence, this`history
      ensures Valid() && FoldedIn(history) == old(FoldedIn(history))
      ensures ok <==> old(presence).Some?
    {
      ghost var before := history;
      var r := Wait(activity, now);
      ok := r.Ok?;
      assert (before + [Waited(activity)])[..|before|] == before;
    }

    method Deliver(records: seq<Record>, now: int) returns (ok: bool)
      requires Valid()
      modifies this
      ensures Valid() && journal == old(journal)
      ensures ok <==> records != [] && AllAccepted(journal, session, records)
      ensures Covered() == if ok && Highest(records) > old(Covered()) then Highest(records) else old(Covered())
      ensures UpToDate(journal, FoldedIn(history)) <==>
                old(UpToDate(journal, FoldedIn(history))) && (ok ==> Whole(journal, old(Covered()), records))
    {
      ghost var folded, before := FoldedIn(history), history;
      CursorIsLast(journal, cursor, folded);
      var r := Observe(records, now);
      ok := r.Ok?;
      if ok {
        RecordsAppended(before, Pick(journal, LastSequence(folded), records));
        DeliveryExact(journal, session, folded, records);
      }
      CursorIsLast(journal, cursor, FoldedIn(history));
    }
  }

  lemma LastPassesCursor(sorted: seq<Record>, covered: nat)
    requires sorted != [] && forall x :: x in sorted ==> x.sequence > covered
    ensures sorted[|sorted| - 1].sequence > covered
  {
    assert sorted[|sorted| - 1] in sorted;
  }

  lemma FirstIsPicked(journal: seq<Record>, id: string, records: seq<Record>)
    requires Numbered(journal, id) && records != [] && AllAccepted(journal, id, records)
    ensures Pick(journal, 0, records) != []
  {
    PickExact(journal, 0, records, id);
    assert records[0] in records;
    assert records[0] in Pick(journal, 0, records);
  }

  /** Checks every record against the journal and sorts out those past the cursor. */
  method NotYetFolded(journal: seq<Record>, id: string, covered: nat, records: seq<Record>) returns (r: Result<seq<Record>, Error>)
    requires Numbered(journal, id)
    ensures r.Ok? <==> AllAccepted(journal, id, records)
    ensures r.Ok? ==> r.value == Pick(journal, covered, records) && Increasing(r.value)
    ensures r.Ok? ==> AllAccepted(journal, id, r.value) && forall x :: x in r.value ==> x.sequence > covered
  {
    var unseen: seq<Record> := [];
    for i := 0 to |records|
      invariant forall k :: 0 <= k < i ==> AcceptedAt(journal, id, records[k])
      invariant Sifted(unseen, records[..i], covered)
    {
      if !AcceptedAt(journal, id, records[i]) {
        assert records[i] in records;
        return Err(NotAccepted);
      }
      SiftOne(unseen, records, i, covered);
      if records[i].sequence > covered {
        unseen := unseen + [records[i]];
      }
    }
    assert records[..|records|] == records;
    var sorted := SortBySequence(journal, id, unseen);
    SortedIsPick(journal, id, covered, records, unseen, sorted);
    r := Ok(sorted);
  }

  method SortBySequence(ghost journal: seq<Record>, ghost id: string, records: seq<Record>) returns (sorted: seq<Record>)
    requires AllAccepted(journal, id, records)
    ensures Increasing(sorted) && forall r :: r in sorted <==> r in records
  {
    sorted := [];
    for i := 0 to |records|
      invariant Increasing(sorted) && forall r :: r in sorted <==> r in records[..i]
    {
      TakeMore(records, i);
      assert records[i] in records && forall x :: x in sorted ==> x in records;
      InsertExact(sorted, records[i]);
      sorted := Insert(sorted, records[i]);
    }
    assert records[..|records|] == records;
  }

  ghost predicate Sifted(unseen: seq<Record>, records: seq<Record>, covered: nat) {
    forall x :: x in unseen <==> x in records && x.sequence > covered
  }

  lemma SiftOne(unseen: seq<Record>, records: seq<Record>, i: nat, covered: nat)
    requires i < |records| && Sifted(unseen, records[..i], covered)
    ensures Sifted(if records[i].sequence > covered then unseen + [records[i]] else unseen, records[..i + 1], covered)
  {
    TakeMore(records, i);
  }

  lemma SortedIsPick(journal: seq<Record>, id: string, covered: nat, records: seq<Record>, unseen: seq<Record>, sorted: seq<Record>)
    requires Numbered(journal, id) && AllAccepted(journal, id, records) && Sifted(unseen, records, covered)
    requires Increasing(sorted) && forall r :: r in sorted <==> r in unseen
    ensures sorted == Pick(journal, covered, records)
    ensures AllAccepted(journal, id, sorted) && forall r :: r in sorted ==> r.sequence > covered
  {
    PickExact(journal, covered, records, id);
    IncreasingUnique(sorted, Pick(journal, covered, records));
  }

  predicate AcceptedAt(journal: seq<Record>, id: string, r: Record) {
    r.event.context.session == id && 0 < r.sequence <= |journal| && journal[r.sequence - 1] == r
  }

  predicate AllAccepted(journal: seq<Record>, id: string, records: seq<Record>) {
    forall r :: r in records ==> AcceptedAt(journal, id, r)
  }

  /** Folded records are accepted ones, in increasing sequence, and the cursor stands on the last. */
  ghost predicate CoversFolded(journal: seq<Record>, cursor: Option<Cursor>, folded: seq<Record>) {
    && Increasing(folded) && (forall r :: r in folded ==> r in journal)
    && (cursor.None? ==> folded == [])
    && (cursor.Some? ==> folded != [] && cursor.value == Cursor(folded[|folded| - 1].sequence, Some(folded[|folded| - 1].sha)))
  }

  lemma CursorStands(journal: seq<Record>, id: string, cursor: Option<Cursor>, folded: seq<Record>)
    requires CoversFolded(journal, cursor, folded) && Numbered(journal, id)
    ensures cursor.Some? ==> 0 < cursor.value.sequence <= |journal| && Some(journal[cursor.value.sequence - 1].sha) == cursor.value.hash
  {
    if cursor.Some? {
      assert folded[|folded| - 1] in folded;
      var i :| 0 <= i < |journal| && journal[i] == folded[|folded| - 1];
    }
  }

  /** Records past the cursor extend the folded ones. */
  lemma CursorMoves(journal: seq<Record>, id: string, cursor: Option<Cursor>, folded: seq<Record>, sorted: seq<Record>)
    requires CoversFolded(journal, cursor, folded) && AllAccepted(journal, id, sorted) && sorted != [] && Increasing(sorted)
    requires forall x :: x in sorted ==> x.sequence > if cursor.Some? then cursor.value.sequence else 0
    ensures var last := sorted[|sorted| - 1];
            CoversFolded(journal, Some(Cursor(last.sequence, Some(last.sha))), folded + sorted)
  {
    var all := folded + sorted;
    forall i, j | 0 <= i < j < |all|
      ensures all[i].sequence < all[j].sequence
    {
      if i < |folded| <= j {
        assert sorted[j - |folded|] in sorted;
        assert folded[i].sequence <= folded[|folded| - 1].sequence;
      }
    }
    forall r | r in sorted
      ensures r in journal
    {
      assert journal[r.sequence - 1] == r;
    }
  }

  // ----- what the saved record means -----

  ghost predicate NoWaits(signals: seq<Signal>) {
    forall i :: 0 <= i < |signals| ==> signals[i].Folded?
  }

  /** Without explicit waits the accumulated fields are one fold over the folded records. */
  lemma {:induction false} CaptureOnly(signals: seq<Signal>)
    requires NoWaits(signals)
    ensures FoldSignals(signals) == FoldRecords(EMPTY, FoldedIn(signals))
    decreases |signals|
  {
    if signals != [] {
      var n := |signals| - 1;
      CaptureOnly(signals[..n]);
      assert FoldedIn(signals)[..|FoldedIn(signals)| - 1] == FoldedIn(signals[..n]);
    }
  }

  /** A delivery folds everything up to its last record exactly when it brought everything the cursor had not passed. */
  lemma DeliveryIsWhole(journal: seq<Record>, id: string, covered: nat, records: seq<Record>, m: nat)
    requires Numbered(journal, id) && covered <= m <= |journal| && forall r :: r in records ==> r.sequence <= m
    ensures Pick(journal, covered, records) == journal[covered..m] <==> forall i :: covered <= i < m ==> journal[i] in records
  {
    if forall i :: covered <= i < m ==> journal[i] in records {
      WholeDelivery(journal, id, covered, records, m);
    } else {
      PickExact(journal, covered, records, id);
      var i :| covered <= i < m && journal[i] !in records;
      assert journal[covered..m][i - covered] == journal[i];
    }
  }

  lemma WholeDelivery(journal: seq<Record>, id: string, covered: nat, records: seq<Record>, m: nat)
    requires Numbered(journal, id) && covered <= m <= |journal| && forall r :: r in records ==> r.sequence <= m
    requires forall i :: covered <= i < m ==> journal[i] in records
    ensures Pick(journal, covered, records) == journal[covered..m]
  {
    PickExact(journal, covered, records, id);
    forall r
      ensures r in Pick(journal, covered, records) <==> r in journal[covered..m]
    {
      if r in journal && r in records && r.sequence > covered {
        var i :| 0 <= i < |journal| && journal[i] == r;
        assert journal[covered..m][i - covered] == r;
      }
    }
    IncreasingUnique(Pick(journal, covered, records), journal[covered..m]);
  }

  function LastSequence(rs: seq<Record>): nat {
    if rs == [] then 0 else rs[|rs| - 1].sequence
  }

  /** What was folded is the journal itself, up to its last record. */
  ghost predicate UpToDate(journal: seq<Record>, folded: seq<Record>) {
    LastSequence(folded) <= |journal| && folded == journal[..LastSequence(folded)]
  }

  /** Every record that the cursor has not passed and that precedes a delivered one was delivered as well. */
  ghost predicate Whole(journal: seq<Record>, covered: nat, records: seq<Record>) {
    forall i, r :: covered <= i < |journal| && r in records && i < r.sequence ==> journal[i] in records
  }

  /** What happens to a session: its journal accepts records, and then something is delivered or a wait begins. */
  datatype Step =
    | Delivered(accepted: seq<Record>, records: seq<Record>, now: int)
    | WaitStarted(accepted: seq<Record>, activity: Option<string>, now: int)

  predicate Folds(journal: seq<Record>, id: string, step: Step) {
    step.Delivered? && step.records != [] && AllAccepted(journal, id, step.records)
  }

  ghost predicate WholeStep(journal: seq<Record>, id: string, covered: nat, step: Step) {
    Folds(journal, id, step) ==> Whole(journal, covered, step.records)
  }

  function Highest(records: seq<Record>): nat {
    if records == [] then 0
    else
      var h := Highest(records[..|records| - 1]);
      if records[|records| - 1].sequence > h then records[|records| - 1].sequence else h
  }

  function NextCovered(journal: seq<Record>, id: string, covered: nat, step: Step): nat {
    if Folds(journal, id, step) && Highest(step.records) > covered then Highest(step.records) else covered
  }

  ghost predicate StaysNumbered(journal: seq<Record>, id: string, steps: seq<Step>)
    decreases |steps|
  {
    Numbered(journal, id) && (steps != [] ==> StaysNumbered(journal + steps[0].accepted, id, steps[1..]))
  }

  /** Every delivery that is accepted is whole. The deliveries alone decide this, before any of them is made. */
  ghost predicate AllWhole(journal: seq<Record>, id: string, covered: nat, steps: seq<Step>)
    decreases |steps|
  {
    steps != [] ==>
      var now := journal + steps[0].accepted;
      && WholeStep(now, id, covered, steps[0])
      && AllWhole(now, id, NextCovered(now, id, covered, steps[0]), steps[1..])
  }

  lemma {:induction false} HighestBounds(records: seq<Record>, i: nat)
    requires i < |records|
    ensures records[i].sequence <= Highest(records)
    decreases |records|
  {
    if i < |records| - 1 {
      HighestBounds(records[..|records| - 1], i);
    }
  }

  lemma {:induction false} HighestIsThere(records: seq<Record>) returns (i: nat)
    requires records != []
    ensures i < |records| && records[i].sequence == Highest(records)
    decreases |records|
  {
    i := |records| - 1;
    if i > 0 && records[i].sequence <= Highest(records[..i]) {
      i := HighestIsThere(records[..i]);
    }
  }

  lemma CursorIsLast(journal: seq<Record>, cursor: Option<Cursor>, folded: seq<Record>)
    requires CoversFolded(journal, cursor, folded)
    ensures LastSequence(folded) == if cursor.Some? then cursor.value.sequence else 0
  {
  }

  lemma LongerJournal(journal: seq<Record>, id: string, more: seq<Record>, cursor: Option<Cursor>, folded: seq<Record>)
    requires CoversFolded(journal, cursor, folded) && Numbered(journal, id)
    ensures CoversFolded(journal + more, cursor, folded)
    ensures UpToDate(journal + more, folded) <==> UpToDate(journal, folded)
  {
    CursorStands(journal, id, cursor, folded);
    CursorIsLast(journal, cursor, folded);
    assert LastSequence(folded) <= |journal|;
    assert (journal + more)[..LastSequence(folded)] == journal[..LastSequence(folded)];
  }

  /** The picked records end with the highest one delivered, if the cursor has not passed it. */
  lemma PickEnds(journal: seq<Record>, id: string, covered: nat, records: seq<Record>)
    requires Numbered(journal, id) && AllAccepted(journal, id, records)
    ensures var p := Pick(journal, covered, records);
            && (p == [] <==> Highest(records) <= covered)
            && (p != [] ==> LastSequence(p) == Highest(records))
  {
    var p := Pick(journal, covered, records);
    PickExact(journal, covered, records, id);
    if p != [] {
      assert p[|p| - 1] in p;
      var i :| 0 <= i < |records| && records[i] == p[|p| - 1];
      HighestBounds(records, i);
    }
    if Highest(records) > covered {
      var i := HighestIsThere(records);
      assert records[i] in records && journal[records[i].sequence - 1] == records[i];
      assert records[i] in p;
      AllButLast(p);
    }
  }

  /** A delivery leaves what was folded up to date exactly when it was so before and the delivery is whole. */
  lemma DeliveryExact(journal: seq<Record>, id: string, folded: seq<Record>, records: seq<Record>)
    requires Numbered(journal, id) && Increasing(folded) && (forall r :: r in folded ==> r in journal)
    requires records != [] && AllAccepted(journal, id, records)
    ensures var covered := LastSequence(folded); var all := folded + Pick(journal, covered, records);
            && (UpToDate(journal, all) <==> UpToDate(journal, folded) && Whole(journal, covered, records))
            && LastSequence(all) == if Highest(records) > covered then Highest(records) else covered
  {
    var covered := LastSequence(folded);
    var p := Pick(journal, covered, records);
    PickEnds(journal, id, covered, records);
    if p == [] {
      assert folded + p == folded;
      PassedIsWhole(journal, covered, records);
    } else {
      HighestAccepted(journal, id, records);
      if UpToDate(journal, folded) {
        KeepsUp(journal, id, folded, records);
      }
      if UpToDate(journal, folded + p) {
        PrefixUpToDate(journal, id, folded, p, Highest(records));
      }
    }
  }

  lemma PassedIsWhole(journal: seq<Record>, covered: nat, records: seq<Record>)
    requires Highest(records) <= covered
    ensures Whole(journal, covered, records)
  {
    AllBelow(records);
  }

  lemma KeepsUp(journal: seq<Record>, id: string, folded: seq<Record>, records: seq<Record>)
    requires Numbered(journal, id) && UpToDate(journal, folded) && records != []
    requires LastSequence(folded) < Highest(records) <= |journal|
    requires LastSequence(folded + Pick(journal, LastSequence(folded), records)) == Highest(records)
    ensures var covered := LastSequence(folded);
            UpToDate(journal, folded + Pick(journal, covered, records)) <==> Whole(journal, covered, records)
  {
    var covered, h := LastSequence(folded), Highest(records);
    WholeKeepsUp(journal, id, covered, records);
    assert journal[..covered] + journal[covered..h] == journal[..h];
    SamePrefix(folded, Pick(journal, covered, records), journal[covered..h]);
  }

  lemma SamePrefix<T>(a: seq<T>, p: seq<T>, q: seq<T>)
    ensures a + p == a + q <==> p == q
  {
    assert (a + p)[|a|..] == p && (a + q)[|a|..] == q;
  }

  lemma WholeKeepsUp(journal: seq<Record>, id: string, covered: nat, records: seq<Record>)
    requires Numbered(journal, id) && records != [] && covered <= Highest(records) <= |journal|
    ensures Pick(journal, covered, records) == journal[covered..Highest(records)] <==> Whole(journal, covered, records)
  {
    AllBelow(records);
    WholeUpTo(journal, covered, records);
    DeliveryIsWhole(journal, id, covered, records, Highest(records));
  }

  lemma AllBelow(records: seq<Record>)
    ensures forall r :: r in records ==> r.sequence <= Highest(records)
  {
    forall i | 0 <= i < |records|
      ensures records[i].sequence <= Highest(records)
    {
      HighestBounds(records, i);
    }
  }

  lemma HighestAccepted(journal: seq<Record>, id: string, records: seq<Record>)
    requires AllAccepted(journal, id, records) && records != []
    ensures 0 < Highest(records) <= |journal|
  {
    var i := HighestIsThere(records);
    assert records[i] in records;
  }

  lemma WholeUpTo(journal: seq<Record>, covered: nat, records: seq<Record>)
    requires records != [] && Highest(records) <= |journal|
    ensures Whole(journal, covered, records) <==> forall i :: covered <= i < Highest(records) ==> journal[i] in records
  {
    var k := HighestIsThere(records);
    assert records[k] in records;
    if Whole(journal, covered, records) {
      forall i | covered <= i < Highest(records)
        ensures journal[i] in records
      {
        assert i < records[k].sequence;
      }
    } else {
      var i, r :| covered <= i < |journal| && r in records && i < r.sequence && journal[i] !in records;
      var j :| 0 <= j < |records| && records[j] == r;
      HighestBounds(records, j);
    }
  }

  lemma PrefixUpToDate(journal: seq<Record>, id: string, folded: seq<Record>, p: seq<Record>, m: nat)
    requires Numbered(journal, id) && m <= |journal| && folded + p == journal[..m]
    ensures UpToDate(journal, folded)
  {
    assert folded == journal[..m][..|folded|] == journal[..|folded|];
    if folded != [] {
      assert folded[|folded| - 1] == journal[|folded| - 1];
    }
  }

  const PLACE := Context("s", None, None, None)
  const GAP := Record(1, Event("a", CaptureGap, 1, "", "", "", PLACE, Payload(None, "")), None, "1")
  const TURN := Record(2, Event("b", TurnCompleted, 2, "", "", "", PLACE, Payload(None, "")), Some("1"), "2")

  /** Delivered after the second record, the first is never folded, and the saved fields lack it. */
  lemma LateRecordIsLost()
    ensures Numbered([GAP, TURN], "s") && AllAccepted([GAP, TURN], "s", [TURN]) && AllAccepted([GAP, TURN], "s", [GAP])
    ensures !Whole([GAP, TURN], 0, [TURN])
    ensures Pick([GAP, TURN], 0, [TURN]) == [TURN] && Pick([GAP, TURN], TURN.sequence, [GAP]) == []
    ensures FoldRecords(EMPTY, [TURN]) != FoldRecords(EMPTY, [GAP, TURN])
  {
    assert [GAP, TURN][0] !in [TURN] && TURN in [TURN];
    assert [GAP, TURN][..1] == [GAP] && [GAP][..0] == [] && [TURN][..0] == [];
    assert Pick([GAP], 0, [TURN]) == [];
    assert FoldRecords(EMPTY, [GAP]) == FoldOne(EMPTY, GAP);
    assert FoldRecords(EMPTY, [TURN]).gaps == 0 && FoldRecords(EMPTY, [GAP, TURN]).gaps == 1;
  }

  /** Once the cursor has passed a record, no delivery folds it any more. */
  lemma PassedIsNeverFolded(journal: seq<Record>, id: string, covered: nat, records: seq<Record>, i: nat)
    requires Numbered(journal, id) && i < |journal| && i < covered
    ensures journal[i] !in Pick(journal, covered, records)
  {
    PickExact(journal, covered, records, id);
  }
}
