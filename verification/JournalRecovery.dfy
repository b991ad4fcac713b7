/** What a session directory may contain between two file operations, and how recovery reads it (src/journal.rs). */
module JournalRecovery {
  import opened Prelude
  import opened Events
  import opened JournalCodec
  import opened JournalIndexing
  import opened JournalBatch

  datatype FileName = EventsFile | IntentFile | IntentTmp | IndexFile | IndexTmp

  type Directory = map<FileName, Bytes>

  function Content(d: Directory, name: FileName): Bytes {
    if name in d then d[name] else []
  }

  ghost predicate SameExcept(a: Directory, b: Directory, names: set<FileName>) {
    forall n: FileName :: n !in names ==> (n in a <==> n in b) && (n in a ==> a[n] == b[n])
  }

  /** The history a finished batch leads to. */
  function Extended(c: Codec, base: seq<Record>, events: seq<Event>): seq<Record> {
    base + Link(c, LastSha(base), events)
  }

  /** No batch is under way: the journal is one valid history and the index, if present, describes it. */
  ghost predicate Settled(f: Files, session: string, d: Directory, rs: seq<Record>) {
    && IntentFile !in d
    && History(f.codec, session, rs)
    && Content(d, EventsFile) == EncodeAll(f.codec, rs)
    && (IndexFile in d ==> d[IndexFile] == f.encodeIndex(IndexOf(f, rs)))
  }

  ghost predicate GoodIntent(f: Files, session: string, base: seq<Record>, events: seq<Event>) {
    && events != [] && Contiguous(|base|, events) && !OtherSession(session, events)
    && History(f.codec, session, Extended(f.codec, base, events))
    && |f.encodeIntent(events)| <= MAX_INTENT_BYTES
  }

  /** A batch is under way: its intent is durable and some prefix of its bytes follows the base history. */
  ghost predicate Pending(f: Files, session: string, d: Directory, base: seq<Record>, events: seq<Event>) {
    && GoodIntent(f, session, base, events)
    && IntentFile in d && d[IntentFile] == f.encodeIntent(events)
    && EncodeAll(f.codec, base) <= Content(d, EventsFile) <= EncodeAll(f.codec, Extended(f.codec, base, events))
  }

  /** The directory stands for the history `rs`, whether or not the last batch has reached the file. */
  ghost predicate Holds(f: Files, session: string, d: Directory, rs: seq<Record>) {
    || Settled(f, session, d, rs)
    || exists base, events :: Pending(f, session, d, base, events) && rs == Extended(f.codec, base, events)
  }

  /** A new directory stands for the empty history, so every run may start there. */
  lemma FreshDirectory(f: Files, session: string)
    ensures Holds(f, session, map[], [])
  {
    assert EncodeAll(f.codec, []) == [] && Content(map[], EventsFile) == [];
  }

  // ----- reading an intent back -----

  datatype Repair = Repair(keep: nat, append: Bytes)

  /** The checks of `recover_intent_locked`, in order, and the two file changes they lead to. */
  function PlanRecovery(f: Files, session: string, raw: Bytes, journal: Bytes): (r: Result<Repair, Error>)
    ensures r.Ok? ==> r.value.keep <= |journal|
  {
    if |raw| > MAX_INTENT_BYTES then Err(IntentTooLarge)
    else match f.decodeIntent(raw)
      case None => Err(BadIntent)
      case Some(events) =>
        if !f.codec.AllFit(events) || f.encodeIntent(events) != raw then Err(BadIntent)
        else if events == [] then Err(EmptyBatch)
        else if OtherSession(session, events) then Err(SessionMismatch)
        else if |journal| > MAX_JOURNAL_BYTES then Err(JournalTooLarge)
        else match Parse(f.codec, journal)
          case Err(e) => Err(e)
          case Ok((records, completeLen)) => PlanAgainst(f, events, journal, records, completeLen)
  }

  function PlanAgainst(f: Files, events: seq<Event>, journal: Bytes, records: seq<Record>, completeLen: nat)
    : (r: Result<Repair, Error>)
    requires events != [] && completeLen <= |journal|
    ensures r.Ok? ==> r.value.keep == completeLen
  {
    var first := events[0].sequence;
    if first == 0 || !Contiguous(first - 1, events) then Err(BadIntent)
    else
      var baseLen := first - 1;
      if |records| < baseLen || |records| > baseLen + |events| then Err(IntentBoundary)
      else match PrepareChecked(f.codec, records[..baseLen], events)
        case Err(e) => Err(e)
        case Ok(expected) =>
          var done := |records| - baseLen;
          if records[baseLen..] != expected[..done] then Err(IntentContent)
          else if completeLen != |journal|
               && (done == |expected| || !(journal[completeLen..] <= f.codec.encode(expected[done]))) then Err(TornTail)
          else if !Sized(f.codec, expected[done..]) then Err(RecordTooLarge)
          else Ok(Repair(completeLen, EncodeAll(f.codec, expected[done..])))
  }

  /** The batch continues the base history, and every record of both can be read back. */
  ghost predicate Resumable(c: Codec, base: seq<Record>, events: seq<Event>) {
    events != [] && Contiguous(|base|, events) && Chain(c, Extended(c, base, events)) && Sized(c, Extended(c, base, events))
  }

  lemma ResumableFits(c: Codec, base: seq<Record>, events: seq<Event>)
    requires Resumable(c, base, events)
    ensures c.AllFit(events)
  {
    forall e | e in events
      ensures c.Fits(e)
    {
      var j :| 0 <= j < |events| && events[j] == e;
      LinkEvents(c, LastSha(base), events, j);
      assert Extended(c, base, events)[|base| + j].event == e;
    }
  }

  lemma ResumableFacts(c: Codec, base: seq<Record>, events: seq<Event>)
    requires Resumable(c, base, events)
    ensures Chain(c, base)
    ensures NewIds(base, events) && DistinctEventIds(events)
    ensures PrepareChecked(c, base, events) == Ok(Link(c, LastSha(base), events))
    ensures PrepareFromTail(c, |base|, LastSha(base), events) == Ok(Link(c, LastSha(base), events))
  {
    var all := Extended(c, base, events);
    ChainPrefix(c, all, |base|);
    assert all[..|base|] == base;
    LinkKeepsIdsDistinct(c, base, LastSha(base), events);
    PrepareCheckedExact(c, base, events);
    PrepareFromTailExact(c, |base|, LastSha(base), events);
  }

  /** Where the interrupted append stopped. */
  lemma SplitJournal(c: Codec, base: seq<Record>, events: seq<Event>, journal: Bytes) returns (k: nat, tail: Bytes)
    requires c.Lawful() && Resumable(c, base, events)
    requires EncodeAll(c, base) <= journal <= EncodeAll(c, Extended(c, base, events))
    ensures k <= |events| && NoNewline(tail)
    ensures var batch := Link(c, LastSha(base), events);
            && journal == EncodeAll(c, base + batch[..k]) + tail
            && Parse(c, journal) == Ok((base + batch[..k], |EncodeAll(c, base + batch[..k])|))
            && (k == |events| ==> tail == [])
            && (k < |events| ==> tail <= c.encode(batch[k]))
  {
    var batch := Link(c, LastSha(base), events);
    EncodeAllConcat(c, base, batch);
    var p := journal[|EncodeAll(c, base)|..];
    assert journal == EncodeAll(c, base) + p;
    PrefixOfRest(EncodeAll(c, base), EncodeAll(c, batch), journal);
    k, tail := ParseTorn(c, base, batch, p);
  }

  lemma PendingSplit(f: Files, session: string, d: Directory, base: seq<Record>, events: seq<Event>)
    returns (k: nat, tail: Bytes)
    requires f.Lawful() && Pending(f, session, d, base, events)
    ensures k <= |events| && NoNewline(tail)
    ensures var c := f.codec; var batch := Link(c, LastSha(base), events);
            && Content(d, EventsFile) == EncodeAll(c, base + batch[..k]) + tail
            && Parse(c, Content(d, EventsFile)) == Ok((base + batch[..k], |EncodeAll(c, base + batch[..k])|))
            && (k == |events| ==> tail == [])
            && (k < |events| ==> tail <= c.encode(batch[k]))
  {
    k, tail := SplitJournal(f.codec, base, events, Content(d, EventsFile));
  }

  lemma PrefixOfRest(a: Bytes, b: Bytes, x: Bytes)
    requires a <= x <= a + b
    ensures x[|a|..] <= b
  {
    var p := x[|a|..];
    assert forall i :: 0 <= i < |p| ==> p[i] == x[|a| + i] == (a + b)[|a| + i];
  }

  /** The two file changes complete the batch. */
  lemma RepairCompletes(c: Codec, base: seq<Record>, batch: seq<Record>, k: nat, tail: Bytes, journal: Bytes)
    requires k <= |batch| && journal == EncodeAll(c, base + batch[..k]) + tail
    ensures var n := |EncodeAll(c, base + batch[..k])|;
            && journal[..n] == EncodeAll(c, base + batch[..k])
            && journal[n..] == tail
            && journal[..n] + EncodeAll(c, batch[k..]) == EncodeAll(c, base + batch)
  {
    assert base + batch == (base + batch[..k]) + batch[k..];
    EncodeAllConcat(c, base + batch[..k], batch[k..]);
  }

  /** What an append that stopped half way leaves: its whole intent, and the base history with a prefix of the batch. */
  ghost predicate Interrupted(f: Files, session: string, raw: Bytes, journal: Bytes, base: seq<Record>, events: seq<Event>) {
    && Resumable(f.codec, base, events) && !OtherSession(session, events)
    && raw == f.encodeIntent(events) && |raw| <= MAX_INTENT_BYTES && |journal| <= MAX_JOURNAL_BYTES
    && EncodeAll(f.codec, base) <= journal <= EncodeAll(f.codec, Extended(f.codec, base, events))
  }

  /** On what an interrupted append left the plan succeeds, and carrying it out yields the whole batch. */
  lemma InterruptedPlans(f: Files, session: string, raw: Bytes, journal: Bytes, base: seq<Record>, events: seq<Event>)
    requires f.Lawful() && Interrupted(f, session, raw, journal, base, events)
    ensures var plan := PlanRecovery(f, session, raw, journal);
            && plan.Ok? && EncodeAll(f.codec, base) <= journal[..plan.value.keep]
            && journal[..plan.value.keep] + plan.value.append == EncodeAll(f.codec, Extended(f.codec, base, events))
  {
    var c := f.codec;
    var batch := Link(c, LastSha(base), events);
    var k, tail := SplitJournal(c, base, events, journal);
    PlanReads(f, session, raw, journal, base, events, base + batch[..k], |EncodeAll(c, base + batch[..k])|);
    RepairCompletes(c, base, batch, k, tail, journal);
    PlanAgainstCompletes(f, base, events, journal, k, tail);
    EncodeAllConcat(c, base, batch[..k]);
  }

  /** The plan is made from the events and the parsed journal. */
  lemma PlanReads(f: Files, session: string, raw: Bytes, journal: Bytes, base: seq<Record>, events: seq<Event>,
                  records: seq<Record>, n: nat)
    requires f.Lawful() && Interrupted(f, session, raw, journal, base, events)
    requires n <= |journal| && Parse(f.codec, journal) == Ok((records, n))
    ensures events != [] && PlanRecovery(f, session, raw, journal) == PlanAgainst(f, events, journal, records, n)
  {
    ResumableFits(f.codec, base, events);
    assert f.decodeIntent(f.encodeIntent(events)) == Some(events);
  }

  /** In particular on every pending directory. */
  lemma PlanCompletes(f: Files, session: string, d: Directory, base: seq<Record>, events: seq<Event>)
    requires f.Lawful() && Pending(f, session, d, base, events)
    ensures var plan := PlanRecovery(f, session, d[IntentFile], Content(d, EventsFile));
            && plan.Ok? && plan.value.keep <= |Content(d, EventsFile)|
            && EncodeAll(f.codec, base) <= Content(d, EventsFile)[..plan.value.keep]
            && Content(d, EventsFile)[..plan.value.keep] + plan.value.append
               == EncodeAll(f.codec, Extended(f.codec, base, events))
  {
    var journal := Content(d, EventsFile);
    assert |journal| <= |EncodeAll(f.codec, Extended(f.codec, base, events))|;
    InterruptedPlans(f, session, d[IntentFile], journal, base, events);
  }

  lemma PlanAgainstCompletes(f: Files, base: seq<Record>, events: seq<Event>,
                             journal: Bytes, k: nat, tail: Bytes)
    requires f.Lawful() && Resumable(f.codec, base, events) && k <= |events|
    requires var batch := Link(f.codec, LastSha(base), events);
             && journal == EncodeAll(f.codec, base + batch[..k]) + tail
             && (k == |events| ==> tail == [])
             && (k < |events| ==> tail <= f.codec.encode(batch[k]))
    ensures var batch := Link(f.codec, LastSha(base), events);
            var n := |EncodeAll(f.codec, base + batch[..k])|;
            PlanAgainst(f, events, journal, base + batch[..k], n) == Ok(Repair(n, EncodeAll(f.codec, batch[k..])))
  {
    var c := f.codec;
    var batch := Link(c, LastSha(base), events);
    var records := base + batch[..k];
    ResumableFacts(f.codec, base, events);
    assert events[0].sequence == |base| + 1;
    assert records[..|base|] == base && records[|base|..] == batch[..k];
    var n := |EncodeAll(c, records)|;
    assert journal[n..] == tail;
    SizedSuffix(c, base, batch, k);
  }

  lemma SizedSuffix(c: Codec, base: seq<Record>, batch: seq<Record>, k: nat)
    requires k <= |batch| && Sized(c, base + batch)
    ensures Sized(c, batch[k..])
  {
    assert forall i :: 0 <= i < |batch| - k ==> batch[k..][i] == (base + batch)[|base| + k + i];
  }

  // ----- what recovery accepts -----

  /** The journal that a plan was made for is the base and a prefix of the batch. */
  lemma PlannedIsInterrupted(f: Files, events: seq<Event>, journal: Bytes, records: seq<Record>, n: nat) returns (base: seq<Record>)
    requires f.codec.Lawful() && events != [] && n <= |journal| && Parse(f.codec, journal) == Ok((records, n))
    requires PlanAgainst(f, events, journal, records, n).Ok?
    ensures Resumable(f.codec, base, events)
    ensures EncodeAll(f.codec, base) <= journal <= EncodeAll(f.codec, Extended(f.codec, base, events))
  {
    base := records[..events[0].sequence - 1];
    PlanFinds(f, events, journal, records, n);
    FoundIsInterrupted(f.codec, events, journal, records, n, base);
  }

  /** What an accepted plan found: the base, a prefix of the batch, and the beginning of its next line. */
  ghost predicate PlanFound(c: Codec, events: seq<Event>, journal: Bytes, records: seq<Record>, n: nat, base: seq<Record>)
    requires n <= |journal|
  {
    var batch, done := Link(c, LastSha(base), events), |records| - |base|;
    && Contiguous(|base|, events) && PrepareChecked(c, base, events) == Ok(batch) && |base| <= |records| && done <= |batch|
    && records == base + batch[..done] && base == records[..|base|] && Sized(c, batch[done..])
    && (n != |journal| ==> done < |batch| && journal[n..] <= c.encode(batch[done]))
  }

  lemma PlanFinds(f: Files, events: seq<Event>, journal: Bytes, records: seq<Record>, n: nat)
    requires events != [] && n <= |journal| && PlanAgainst(f, events, journal, records, n).Ok?
    ensures 0 < events[0].sequence <= |records| + 1
    ensures PlanFound(f.codec, events, journal, records, n, records[..events[0].sequence - 1])
  {
    var base := records[..events[0].sequence - 1];
    PrepareCheckedExact(f.codec, base, events);
    assert records == base + records[|base|..];
  }

  lemma FoundIsInterrupted(c: Codec, events: seq<Event>, journal: Bytes, records: seq<Record>, n: nat, base: seq<Record>)
    requires c.Lawful() && events != [] && n <= |journal| && Parse(c, journal) == Ok((records, n))
    requires PlanFound(c, events, journal, records, n, base)
    ensures Resumable(c, base, events)
    ensures EncodeAll(c, base) <= journal <= EncodeAll(c, Extended(c, base, events))
  {
    var batch, done := Link(c, LastSha(base), events), |records| - |base|;
    ParseExact(c, journal, records, n);
    ChainPrefix(c, records, |base|);
    PrepareCheckedExact(c, base, events);
    PlannedChain(c, base, events, done);
    PlannedPrefix(c, base, batch, done, journal, n);
  }

  lemma PlannedChain(c: Codec, base: seq<Record>, events: seq<Event>, done: nat)
    requires Chain(c, base) && events != [] && Contiguous(|base|, events) && NewIds(base, events) && DistinctEventIds(events)
    requires done <= |events| && Sized(c, base + Link(c, LastSha(base), events)[..done])
    requires Sized(c, Link(c, LastSha(base), events)[done..])
    ensures Resumable(c, base, events)
  {
    var batch := Link(c, LastSha(base), events);
    LinkExtends(c, base, events);
    assert base + batch == (base + batch[..done]) + batch[done..];
    SizedConcat(c, base + batch[..done], batch[done..]);
  }

  lemma PlannedPrefix(c: Codec, base: seq<Record>, batch: seq<Record>, done: nat, journal: Bytes, n: nat)
    requires done <= |batch| && n <= |journal| && journal[..n] == EncodeAll(c, base + batch[..done])
    requires n != |journal| ==> done < |batch| && journal[n..] <= c.encode(batch[done])
    ensures EncodeAll(c, base) <= journal <= EncodeAll(c, base + batch)
  {
    EncodeAllConcat(c, base, batch[..done]);
    EncodeAllConcat(c, base + batch[..done], batch[done..]);
    assert base + batch == (base + batch[..done]) + batch[done..];
    assert journal == journal[..n] + journal[n..];
    if n != |journal| {
      EncodeAllCons(c, batch[done], batch[done + 1..]);
      assert batch[done..] == [batch[done]] + batch[done + 1..];
      PrefixChain(journal[n..], c.encode(batch[done]), [NEWLINE] + EncodeAll(c, batch[done + 1..]));
      assert c.encode(batch[done]) + [NEWLINE] + EncodeAll(c, batch[done + 1..])
          == c.encode(batch[done]) + ([NEWLINE] + EncodeAll(c, batch[done + 1..]));
    }
  }

  lemma PrefixChain(a: Bytes, b: Bytes, rest: Bytes)
    requires a <= b
    ensures a <= b + rest
  {
  }

  /** Recovery accepts exactly what an interrupted append can leave, up to the limits on the whole history. */
  lemma PlanExact(f: Files, session: string, raw: Bytes, journal: Bytes)
    requires f.Lawful()
    ensures PlanRecovery(f, session, raw, journal).Ok? <==>
            exists base, events :: Interrupted(f, session, raw, journal, base, events)
  {
    if base, events :| Interrupted(f, session, raw, journal, base, events) {
      InterruptedPlans(f, session, raw, journal, base, events);
    }
    if PlanRecovery(f, session, raw, journal).Ok? {
      var events := f.decodeIntent(raw).value;
      var (records, n) := Parse(f.codec, journal).value;
      var base := PlannedIsInterrupted(f, events, journal, records, n);
      assert Interrupted(f, session, raw, journal, base, events);
    }
  }

  // ----- the directory determines the history -----

  lemma HistoryUnique(f: Files, session: string, d: Directory, a: seq<Record>, b: seq<Record>)
    requires f.Lawful() && Holds(f, session, d, a) && Holds(f, session, d, b)
    ensures a == b
  {
    if IntentFile !in d {
      EncodingDeterminesHistory(f.codec, a, b);
    } else {
      var base, events :| Pending(f, session, d, base, events) && a == Extended(f.codec, base, events);
      var base', events' :| Pending(f, session, d, base', events') && b == Extended(f.codec, base', events');
      PendingUnique(f, session, d, base, events, base', events');
    }
  }

  lemma PendingUnique(f: Files, session: string, d: Directory,
                      base: seq<Record>, events: seq<Event>, base': seq<Record>, events': seq<Event>)
    requires f.Lawful() && Pending(f, session, d, base, events) && Pending(f, session, d, base', events')
    ensures base == base' && events == events'
  {
    assert f.decodeIntent(f.encodeIntent(events)) == Some(events);
    assert f.decodeIntent(f.encodeIntent(events')) == Some(events');
    assert |base| == events[0].sequence - 1 == |base'|;
    var k, tail := PendingSplit(f, session, d, base, events);
    var k', tail' := PendingSplit(f, session, d, base', events');
    var whole := base + Link(f.codec, LastSha(base), events)[..k];
    var whole' := base' + Link(f.codec, LastSha(base'), events')[..k'];
    assert whole == whole';
    assert whole[..|base|] == base && whole'[..|base'|] == base';
  }

  // ----- what file operations preserve -----

  lemma HoldsIgnoresTemporaries(f: Files, session: string, d: Directory, d': Directory, rs: seq<Record>)
    requires Holds(f, session, d, rs) && SameExcept(d', d, {IntentTmp, IndexTmp})
    ensures Holds(f, session, d', rs)
  {
    if !Settled(f, session, d, rs) {
      var base, events :| Pending(f, session, d, base, events) && rs == Extended(f.codec, base, events);
      assert Pending(f, session, d', base, events);
    }
  }

  lemma HoldsPending(f: Files, session: string, d: Directory, rs: seq<Record>)
    returns (base: seq<Record>, events: seq<Event>)
    requires Holds(f, session, d, rs) && IntentFile in d
    ensures Pending(f, session, d, base, events) && rs == Extended(f.codec, base, events)
  {
    base, events :| Pending(f, session, d, base, events) && rs == Extended(f.codec, base, events);
  }

  /** While the intent stands, the journal may hold any prefix of the batch and the index anything. */
  lemma PendingStays(f: Files, session: string, d: Directory, d': Directory, base: seq<Record>, events: seq<Event>)
    requires Pending(f, session, d, base, events)
    requires SameExcept(d', d, {EventsFile, IndexFile, IndexTmp})
    requires EncodeAll(f.codec, base) <= Content(d', EventsFile) <= EncodeAll(f.codec, Extended(f.codec, base, events))
    ensures Pending(f, session, d', base, events)
    ensures Holds(f, session, d', Extended(f.codec, base, events))
  {
  }

  /** Between the two operations of a repair, and after them, the directory still holds the whole batch. */
  lemma RepairKeepsPending(f: Files, session: string, d: Directory, d': Directory,
                           base: seq<Record>, events: seq<Event>, plan: Repair)
    requires f.Lawful() && Pending(f, session, d, base, events) && SameExcept(d', d, {EventsFile})
    requires PlanRecovery(f, session, d[IntentFile], Content(d, EventsFile)) == Ok(plan)
    requires var kept := Content(d, EventsFile)[..plan.keep];
             Content(d', EventsFile) == Content(d, EventsFile) || kept <= Content(d', EventsFile) <= kept + plan.append
    ensures Pending(f, session, d', base, events)
    ensures Holds(f, session, d', Extended(f.codec, base, events))
  {
    PlanCompletes(f, session, d, base, events);
    PendingStays(f, session, d, d', base, events);
  }

  /** Removing the intent of a complete and indexed batch settles it. */
  lemma Settles(f: Files, session: string, d: Directory, base: seq<Record>, events: seq<Event>)
    requires GoodIntent(f, session, base, events)
    requires Content(d, EventsFile) == EncodeAll(f.codec, Extended(f.codec, base, events))
    requires IndexFile in d && d[IndexFile] == f.encodeIndex(IndexOf(f, Extended(f.codec, base, events)))
    ensures Settled(f, session, d - {IntentFile}, Extended(f.codec, base, events))
  {
    assert Content(d - {IntentFile}, EventsFile) == Content(d, EventsFile);
  }

  /** Once the intent is in place the directory already stands for the extended history. */
  lemma IntentCommits(f: Files, session: string, d: Directory, d': Directory, rs: seq<Record>, events: seq<Event>)
    requires Settled(f, session, d, rs) && GoodIntent(f, session, rs, events)
    requires SameExcept(d', d, {IntentFile, IntentTmp}) && IntentFile in d' && d'[IntentFile] == f.encodeIntent(events)
    ensures Pending(f, session, d', rs, events)
  {
    EncodeAllConcat(f.codec, rs, Link(f.codec, LastSha(rs), events));
  }

  /** New IDs that repeat inside the batch: the one case in which the short and the full form differ. */
  ghost predicate Repeats(rs: seq<Record>, events: seq<Event>) {
    NewIds(rs, events) && !DistinctEventIds(events)
  }

  /** A journal that took in a repeating batch cannot be read again, as any history, by any later replay. */
  lemma RepeatingBatchIsFatal(f: Files, session: string, d: Directory, rs: seq<Record>, events: seq<Event>)
    requires f.Lawful() && History(f.codec, session, rs) && Contiguous(|rs|, events) && Repeats(rs, events)
    requires Sized(f.codec, Link(f.codec, LastSha(rs), events))
    requires Content(d, EventsFile) == EncodeAll(f.codec, Extended(f.codec, rs, events))
    ensures Replay(f.codec, session, Content(d, EventsFile)).Err?
    ensures forall h :: !Settled(f, session, d, h)
  {
    var c := f.codec;
    var all := Extended(c, rs, events);
    LinkKeepsIdsDistinct(c, rs, LastSha(rs), events);
    forall h
      ensures !(History(c, session, h) && Content(d, EventsFile) == EncodeAll(c, h))
    {
      if History(c, session, h) && Content(d, EventsFile) == EncodeAll(c, h) {
        SizedConcat(c, rs, Link(c, LastSha(rs), events));
        LinesDetermineRecords(c, h, all);
      }
    }
    var replayed := Replay(c, session, Content(d, EventsFile));
    if replayed.Ok? {
      ReplayExact(c, session, Content(d, EventsFile), replayed.value);
    }
  }
}
