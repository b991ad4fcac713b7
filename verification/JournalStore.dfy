/**
 * The session directory as the journal sees it: file operations one at a time, any of which may be the
 * last one before power is lost; and append, recovery and replay on top of them (src/journal.rs).
 */
module JournalStorage {
  import opened Prelude
  import opened Events
  import opened JournalCodec
  import opened JournalIndexing
  import opened JournalBatch
  import opened JournalRecovery

  datatype Outcome<+T> = Done(value: T) | Failed(error: Error) | Crashed

  /**
   * `budget` is how many further file operations complete. When it is used up, the next operation is
   * cut short: it leaves no trace, or `torn` bytes of what it was writing.
   */
  class SessionDirectory {
    var files: Directory
    var budget: nat
    var torn: Option<nat>

    constructor (files: Directory, budget: nat, torn: Option<nat>)
      ensures this.files == files && this.budget == budget && this.torn == torn
    {
      this.files, this.budget, this.torn := files, budget, torn;
    }

    /** Power returns, and will be lost again after `budget` more operations. */
    method Restart(budget: nat, torn: Option<nat>)
      modifies this
      ensures files == old(files) && this.budget == budget && this.torn == torn
    {
      this.budget, this.torn := budget, torn;
    }

    method Write(name: FileName, bytes: Bytes) returns (alive: bool)
      modifies this
      ensures alive <==> old(budget) > 0
      ensures alive ==> files == old(files)[name := bytes] && budget == old(budget) - 1
      ensures !alive ==> SameExcept(files, old(files), {name})
    {
      if budget > 0 {
        files := files[name := bytes];
        budget := budget - 1;
        return true;
      }
      if torn.Some? {
        files := files[name := bytes[..Min(torn.value, |bytes|)]];
      }
      return false;
    }

    method Append(name: FileName, bytes: Bytes) returns (alive: bool)
      modifies this
      ensures alive <==> old(budget) > 0
      ensures alive ==> files == old(files)[name := Content(old(files), name) + bytes] && budget == old(budget) - 1
      ensures !alive ==> SameExcept(files, old(files), {name})
      ensures !alive ==> Content(old(files), name) <= Content(files, name) <= Content(old(files), name) + bytes
    {
      if budget > 0 {
        files := files[name := Content(files, name) + bytes];
        budget := budget - 1;
        return true;
      }
      if torn.Some? {
        files := files[name := Content(files, name) + bytes[..Min(torn.value, |bytes|)]];
      }
      return false;
    }

    method Truncate(name: FileName, length: nat) returns (alive: bool)
      requires name in files && length <= |files[name]|
      modifies this
      ensures alive <==> old(budget) > 0
      ensures files == if alive then old(files)[name := old(files)[name][..length]] else old(files)
      ensures budget == if alive then old(budget) - 1 else old(budget)
    {
      alive := budget > 0;
      if alive {
        files := files[name := files[name][..length]];
        budget := budget - 1;
      }
    }

    method Remove(name: FileName) returns (alive: bool)
      modifies this
      ensures alive <==> old(budget) > 0
      ensures files == if alive then old(files) - {name} else old(files)
      ensures budget == if alive then old(budget) - 1 else old(budget)
    {
      alive := budget > 0;
      if alive {
        files := files - {name};
        budget := budget - 1;
      }
    }

    method Rename(source: FileName, target: FileName) returns (alive: bool)
      requires source in files && source != target
      modifies this
      ensures alive <==> old(budget) > 0
      ensures files == if alive then (old(files) - {source})[target := old(files)[source]] else old(files)
      ensures budget == if alive then old(budget) - 1 else old(budget)
    {
      alive := budget > 0;
      if alive {
        files := (files - {source})[target := files[source]];
        budget := budget - 1;
      }
    }

    /** The target is never torn, but between removal and rename it is absent. */
    method WriteAtomicRebuildable(target: FileName, temporary: FileName, bytes: Bytes) returns (o: Outcome<()>)
      requires target != temporary
      modifies this
      ensures o.Failed? <==> temporary in old(files)
      ensures o.Failed? ==> files == old(files) && budget == old(budget) && o.error == StaleTemporary
      ensures o.Done? ==> files == old(files)[target := bytes] && old(budget) <= budget + 3
      ensures SameExcept(files, old(files), {target, temporary})
      ensures o.Crashed? && target in files ==>
                files[target] == bytes || (target in old(files) && files[target] == old(files)[target])
      ensures old(budget) >= 3 ==> !o.Crashed?
    {
      if temporary in files {
        return Failed(StaleTemporary);
      }
      var alive := Write(temporary, bytes);
      if !alive {
        return Crashed;
      }
      if target in files {
        alive := Remove(target);
        if !alive {
          return Crashed;
        }
      }
      alive := Rename(temporary, target);
      return if alive then Done(()) else Crashed;
    }

    method RemoveStale(temporary: FileName) returns (alive: bool)
      modifies this
      ensures SameExcept(files, old(files), {temporary})
      ensures alive ==> files == old(files) - {temporary} && old(budget) <= budget + 1
      ensures old(budget) >= 1 ==> alive
    {
      alive := true;
      if temporary in files {
        alive := Remove(temporary);
      }
    }
  }

  /** One session's journal, used under its lock. */
  class JournalStore {
    const f: Files
    const session: string
    const dir: SessionDirectory

    constructor (f: Files, session: string, dir: SessionDirectory)
      ensures this.f == f && this.session == session && this.dir == dir
    {
      this.f, this.session, this.dir := f, session, dir;
    }

    method PersistIndex(index: IndexData) returns (o: Outcome<()>)
      modifies dir
      ensures SameExcept(dir.files, old(dir.files), {IndexFile, IndexTmp})
      ensures o.Done? ==> dir.files == old(dir.files)[IndexFile := f.encodeIndex(index)] && old(dir.budget) <= dir.budget + 3
      ensures o.Crashed? && IndexFile in dir.files ==>
                dir.files[IndexFile] == f.encodeIndex(index)
                || (IndexFile in old(dir.files) && dir.files[IndexFile] == old(dir.files)[IndexFile])
      ensures f.Lawful() && IndexShape(f.codec, index) && IndexTmp !in old(dir.files) ==> !o.Failed?
      ensures old(dir.budget) >= 3 ==> !o.Crashed?
    {
      var bytes := f.encodeIndex(index);
      if |bytes| > MAX_INDEX_BYTES {
        return Failed(IndexTooLarge);
      }
      o := dir.WriteAtomicRebuildable(IndexFile, IndexTmp, bytes);
    }

    /** Truncates the torn tail, if any, and appends what is missing of the batch. */
    method CarryOut(plan: Repair) returns (alive: bool)
      requires plan.keep <= |Content(dir.files, EventsFile)|
      modifies dir
      ensures SameExcept(dir.files, old(dir.files), {EventsFile})
      ensures alive ==> Content(dir.files, EventsFile) == Content(old(dir.files), EventsFile)[..plan.keep] + plan.append
      ensures alive ==> old(dir.budget) <= dir.budget + 2
      ensures !alive ==>
                || Content(dir.files, EventsFile) == Content(old(dir.files), EventsFile)
                || Content(old(dir.files), EventsFile)[..plan.keep] <= Content(dir.files, EventsFile)
                   <= Content(old(dir.files), EventsFile)[..plan.keep] + plan.append
      ensures old(dir.budget) >= 2 ==> alive
    {
      var journal := Content(dir.files, EventsFile);
      assert journal[..|journal|] == journal;
      alive := true;
      if plan.keep != |journal| {
        alive := dir.Truncate(EventsFile, plan.keep);
      }
      if alive && plan.append != [] {
        alive := dir.Append(EventsFile, plan.append);
      }
    }

    method RecoverIntent(ghost rs: seq<Record>) returns (o: Outcome<()>)
      modifies dir
      ensures f.Lawful() && Holds(f, session, old(dir.files), rs) ==>
                && !o.Failed?
                && (o.Done? ==> Settled(f, session, dir.files, rs) && IntentTmp !in dir.files && IndexTmp !in dir.files)
                && (o.Crashed? ==> Holds(f, session, dir.files, rs))
                && (o.Done? && IntentFile in old(dir.files) ==> IndexFile in dir.files)
                && (o.Done? && IntentFile !in old(dir.files) ==> SameExcept(dir.files, old(dir.files), {IntentTmp, IndexTmp}))
      ensures old(dir.budget) >= 8 ==> !o.Crashed?
      ensures o.Done? ==> old(dir.budget) <= dir.budget + 8
    {
      var alive := RemoveStaleTemporaries();
      if f.Lawful() && Holds(f, session, old(dir.files), rs) {
        HoldsIgnoresTemporaries(f, session, old(dir.files), dir.files, rs);
      }
      if !alive {
        return Crashed;
      }
      if IntentFile !in dir.files {
        return Done(());
      }
      o := CompleteIntent(rs);
    }

    method RemoveStaleTemporaries() returns (alive: bool)
      modifies dir
      ensures SameExcept(dir.files, old(dir.files), {IntentTmp, IndexTmp})
      ensures alive ==> IntentTmp !in dir.files && IndexTmp !in dir.files && old(dir.budget) <= dir.budget + 2
      ensures old(dir.budget) >= 2 ==> alive
    {
      alive := dir.RemoveStale(IntentTmp);
      if alive {
        alive := dir.RemoveStale(IndexTmp);
      }
    }

    method CompleteIntent(ghost rs: seq<Record>) returns (o: Outcome<()>)
      requires IntentFile in dir.files && IntentTmp !in dir.files && IndexTmp !in dir.files
      modifies dir
      ensures f.Lawful() && Holds(f, session, old(dir.files), rs) ==>
                && !o.Failed?
                && (o.Done? ==> Settled(f, session, dir.files, rs) && IntentTmp !in dir.files && IndexTmp !in dir.files)
                && (o.Crashed? ==> Holds(f, session, dir.files, rs))
                && (o.Done? ==> IndexFile in dir.files)
      ensures old(dir.budget) >= 6 ==> !o.Crashed?
      ensures o.Done? ==> old(dir.budget) <= dir.budget + 6
    {
      ghost var known := f.Lawful() && Holds(f, session, dir.files, rs);
      ghost var base: seq<Record>, events: seq<Event> := [], [];
      if known {
        base, events := HoldsPending(f, session, dir.files, rs);
        PlanCompletes(f, session, dir.files, base, events);
      }
      var plan := PlanRecovery(f, session, dir.files[IntentFile], Content(dir.files, EventsFile));
      if plan.Err? {
        return Failed(plan.error);
      }
      var alive := CarryOut(plan.value);
      if known {
        RepairKeepsPending(f, session, old(dir.files), dir.files, base, events, plan.value);
      }
      if !alive {
        return Crashed;
      }
      o := IndexAndForget(base, events, known);
    }

    /** A full replay, and the index of what it returns. */
    method ReplayAndIndex(ghost rs: seq<Record>) returns (o: Outcome<seq<Record>>)
      modifies dir
      ensures SameExcept(dir.files, old(dir.files), {IndexFile, IndexTmp})
      ensures f.Lawful() && History(f.codec, session, rs) && Content(old(dir.files), EventsFile) == EncodeAll(f.codec, rs)
              && IndexTmp !in old(dir.files) ==>
                && !o.Failed?
                && (o.Done? ==> o.value == rs && IndexFile in dir.files && IndexTmp !in dir.files)
                && IndexKept(old(dir.files), dir.files, rs, o.Done?)
      ensures old(dir.budget) >= 3 ==> !o.Crashed?
      ensures o.Done? ==> old(dir.budget) <= dir.budget + 3
    {
      var journal := Content(dir.files, EventsFile);
      var replayed := Replay(f.codec, session, journal);
      ReplayGives(journal, rs);
      if replayed.Err? {
        return Failed(replayed.error);
      }
      var saved := PersistIndex(FromRecords(f.codec, replayed.value, |journal|));
      o := if saved.Done? then Done(replayed.value) else if saved.Failed? then Failed(saved.error) else Crashed;
    }

    /** The index file describes `rs`, or it is absent or what it was. */
    ghost predicate IndexKept(before: Directory, after: Directory, rs: seq<Record>, written: bool) {
      && (written ==> IndexFile in after)
      && (IndexFile in after ==>
            || after[IndexFile] == f.encodeIndex(IndexOf(f, rs))
            || (!written && IndexFile in before && after[IndexFile] == before[IndexFile]))
    }

    lemma IndexedStaysSettled(before: Directory, after: Directory, rs: seq<Record>, written: bool)
      requires Settled(f, session, before, rs) && SameExcept(after, before, {IndexFile, IndexTmp})
      requires IndexKept(before, after, rs, written)
      ensures Settled(f, session, after, rs)
    {
    }

    /** The end of recovery: rebuild the index from a full replay and drop the intent. */
    method IndexAndForget(ghost base: seq<Record>, ghost events: seq<Event>, ghost known: bool) returns (o: Outcome<()>)
      requires IndexTmp !in dir.files && IntentTmp !in dir.files
      requires known ==> f.Lawful() && Pending(f, session, dir.files, base, events)
      requires known ==> Content(dir.files, EventsFile) == EncodeAll(f.codec, Extended(f.codec, base, events))
      modifies dir
      ensures known ==>
                && !o.Failed?
                && (o.Done? ==> Settled(f, session, dir.files, Extended(f.codec, base, events)) && IndexFile in dir.files
                                && IntentTmp !in dir.files && IndexTmp !in dir.files)
                && (o.Crashed? ==> Holds(f, session, dir.files, Extended(f.codec, base, events)))
      ensures old(dir.budget) >= 4 ==> !o.Crashed?
      ensures o.Done? ==> old(dir.budget) <= dir.budget + 4
    {
      var indexed := ReplayAndIndex(Extended(f.codec, base, events));
      if known {
        PendingStays(f, session, old(dir.files), dir.files, base, events);
      }
      if !indexed.Done? {
        return if indexed.Crashed? then Crashed else Failed(indexed.error);
      }
      if known {
        Settles(f, session, dir.files, base, events);
      }
      var alive := dir.Remove(IntentFile);
      o := if alive then Done(()) else Crashed;
    }

    method LoadOrRebuildIndex(ghost rs: seq<Record>) returns (o: Outcome<JournalIndex>)
      modifies dir
      ensures o.Done? ==> fresh(o.value) && o.value.Valid() && fresh(o.value.bloom) && o.value.codec == f.codec
      ensures f.Lawful() && Settled(f, session, old(dir.files), rs) && IndexTmp !in old(dir.files) ==>
                && !o.Failed? && Settled(f, session, dir.files, rs)
                && (o.Done? ==> o.value.View() == IndexOf(f, rs) && IndexTmp !in dir.files)
      ensures SameExcept(dir.files, old(dir.files), {IndexFile, IndexTmp})
      ensures old(dir.budget) >= 3 ==> !o.Crashed?
      ensures o.Done? ==> old(dir.budget) <= dir.budget + 3
    {
      ghost var known := f.Lawful() && Settled(f, session, dir.files, rs) && IndexTmp !in dir.files;
      var journal := Content(dir.files, EventsFile);
      if IndexFile in dir.files {
        var loaded := LoadIndex(f, dir.files[IndexFile], journal);
        if known {
          LoadIndexExact(f, session, rs);
        }
        if loaded.Err? {
          return Failed(loaded.error);
        }
        var index := new JournalIndex.Load(f.codec, loaded.value);
        return Done(index);
      }
      o := RebuildIndex(rs, known);
    }

    method RebuildIndex(ghost rs: seq<Record>, ghost known: bool) returns (o: Outcome<JournalIndex>)
      requires IndexFile !in dir.files
      requires known ==> f.Lawful() && Settled(f, session, dir.files, rs) && IndexTmp !in dir.files
      modifies dir
      ensures o.Done? ==> fresh(o.value) && o.value.Valid() && fresh(o.value.bloom) && o.value.codec == f.codec
      ensures known ==>
                && !o.Failed? && Settled(f, session, dir.files, rs)
                && (o.Done? ==> o.value.View() == IndexOf(f, rs) && IndexTmp !in dir.files)
      ensures SameExcept(dir.files, old(dir.files), {IndexFile, IndexTmp})
      ensures old(dir.budget) >= 3 ==> !o.Crashed?
      ensures o.Done? ==> old(dir.budget) <= dir.budget + 3
    {
      var journal := Content(dir.files, EventsFile);
      var replayed := Replay(f.codec, session, journal);
      ReplayGives(journal, rs);
      if replayed.Err? {
        return Failed(replayed.error);
      }
      var saved := SaveRebuilt(replayed.value, |journal|, rs, known);
      if !saved.Done? {
        return if saved.Crashed? then Crashed else Failed(saved.error);
      }
      var index := new JournalIndex.FromHistory(f.codec, replayed.value, |journal|);
      return Done(index);
    }

    /** An empty journal keeps no index file. */
    method SaveRebuilt(records: seq<Record>, length: nat, ghost rs: seq<Record>, ghost known: bool) returns (o: Outcome<()>)
      requires IndexFile !in dir.files
      requires known ==> f.Lawful() && Settled(f, session, dir.files, rs) && IndexTmp !in dir.files
      requires known ==> records == rs && length == |EncodeAll(f.codec, rs)|
      modifies dir
      ensures known ==> !o.Failed? && Settled(f, session, dir.files, rs) && (o.Done? ==> IndexTmp !in dir.files)
      ensures SameExcept(dir.files, old(dir.files), {IndexFile, IndexTmp})
      ensures old(dir.budget) >= 3 ==> !o.Crashed?
      ensures o.Done? ==> old(dir.budget) <= dir.budget + 3
    {
      if known {
        IndexOfShape(f, session, rs);
      }
      o := Done(());
      if records != [] {
        o := PersistIndex(FromRecords(f.codec, records, length));
      }
    }

    lemma ReplayGives(journal: Bytes, rs: seq<Record>)
      ensures f.Lawful() && History(f.codec, session, rs) && journal == EncodeAll(f.codec, rs) ==>
                Replay(f.codec, session, journal) == Ok(rs) && IndexShape(f.codec, IndexOf(f, rs))
    {
      if f.Lawful() && History(f.codec, session, rs) && journal == EncodeAll(f.codec, rs) {
        ReplayExact(f.codec, session, journal, rs);
        IndexOfShape(f, session, rs);
      }
    }

    /** Intent, journal, index, intent: the four durable steps of an accepted batch. */
    method CommitBatch(index: JournalIndex, events: seq<Event>, appended: seq<Record>, encoded: Bytes,
                       ghost rs: seq<Record>, ghost known: bool)
      returns (o: Outcome<()>)
      requires index.Valid() && index.codec == f.codec
      requires known ==> f.Lawful() && Settled(f, session, dir.files, rs) && IntentTmp !in dir.files && IndexTmp !in dir.files
      requires known ==> index.View() == IndexOf(f, rs) && GoodCommit(events, appended, encoded, rs)
      modifies dir, index, index.bloom
      ensures known ==>
                && (o.Failed? ==> o.error == IntentTooLarge && |f.encodeIntent(events)| > MAX_INTENT_BYTES
                                  && Settled(f, session, dir.files, rs))
                && (o.Done? ==> |f.encodeIntent(events)| <= MAX_INTENT_BYTES && Settled(f, session, dir.files, rs + appended))
                && (o.Crashed? ==> |f.encodeIntent(events)| <= MAX_INTENT_BYTES
                                   && (Holds(f, session, dir.files, rs) || Holds(f, session, dir.files, rs + appended)))
      ensures o.Done? ==> IntentFile !in dir.files
      ensures o.Done? ==> Content(dir.files, EventsFile) == Content(old(dir.files), EventsFile) + encoded
      ensures old(dir.budget) >= 8 ==> !o.Crashed?
    {
      var intent := f.encodeIntent(events);
      if |intent| > MAX_INTENT_BYTES {
        return Failed(IntentTooLarge);
      }
      o := dir.WriteAtomicRebuildable(IntentFile, IntentTmp, intent);
      if known {
        AfterIntentWrite(old(dir.files), dir.files, rs, events, appended, intent);
      }
      if !o.Done? {
        return;
      }
      o := AppendAndIndex(index, events, appended, encoded, rs, known);
    }

    method AppendAndIndex(index: JournalIndex, ghost events: seq<Event>, appended: seq<Record>, encoded: Bytes,
                          ghost rs: seq<Record>, ghost known: bool)
      returns (o: Outcome<()>)
      requires index.Valid() && index.codec == f.codec
      requires known ==> f.Lawful() && Pending(f, session, dir.files, rs, events) && IndexTmp !in dir.files
      requires known ==> Content(dir.files, EventsFile) == EncodeAll(f.codec, rs)
      requires known ==> index.View() == IndexOf(f, rs) && GoodCommit(events, appended, encoded, rs)
      modifies dir, index, index.bloom
      ensures known ==>
                && !o.Failed?
                && (o.Done? ==> Settled(f, session, dir.files, rs + appended))
                && (o.Crashed? ==> Holds(f, session, dir.files, rs + appended))
      ensures o.Done? ==> IntentFile !in dir.files
      ensures o.Done? ==> Content(dir.files, EventsFile) == Content(old(dir.files), EventsFile) + encoded
      ensures old(dir.budget) >= 5 ==> !o.Crashed?
    {
      var alive := dir.Append(EventsFile, encoded);
      if known {
        EncodeAllConcat(f.codec, rs, appended);
        PendingStays(f, session, old(dir.files), dir.files, rs, events);
      }
      if !alive {
        return Crashed;
      }
      PushAll(index, appended, rs);
      var data := index.ToData();
      o := FinishCommit(data, events, rs, known);
    }

    ghost predicate GoodCommit(events: seq<Event>, appended: seq<Record>, encoded: Bytes, rs: seq<Record>) {
      && appended == Link(f.codec, LastSha(rs), events)
      && encoded == EncodeAll(f.codec, appended)
      && events != [] && Contiguous(|rs|, events) && !OtherSession(session, events)
      && History(f.codec, session, rs + appended)
    }

    lemma AfterIntentWrite(before: Directory, after: Directory, rs: seq<Record>, events: seq<Event>,
                           appended: seq<Record>, intent: Bytes)
      requires Settled(f, session, before, rs) && GoodCommit(events, appended, EncodeAll(f.codec, appended), rs)
      requires intent == f.encodeIntent(events) && |intent| <= MAX_INTENT_BYTES
      requires SameExcept(after, before, {IntentFile, IntentTmp})
      requires IntentFile in after ==> after[IntentFile] == intent
      ensures IntentFile !in after ==> Settled(f, session, after, rs)
      ensures IntentFile in after ==> Pending(f, session, after, rs, events) && Holds(f, session, after, rs + appended)
    {
      if IntentFile in after {
        IntentCommits(f, session, before, after, rs, events);
      }
    }

    method PushAll(index: JournalIndex, appended: seq<Record>, ghost rs: seq<Record>)
      requires index.Valid() && index.codec == f.codec
      modifies index, index.bloom
      ensures index.Valid() && index.bloom == old(index.bloom)
      ensures old(index.View()) == IndexOf(f, rs) ==> index.View() == IndexOf(f, rs + appended)
    {
      assert rs + appended[..0] == rs;
      for i := 0 to |appended|
        invariant index.Valid() && index.bloom == old(index.bloom)
        invariant old(index.View()) == IndexOf(f, rs) ==> index.View() == IndexOf(f, rs + appended[..i])
      {
        ghost var before := rs + appended[..i];
        assert rs + appended[..i + 1] == before + [appended[i]];
        PushExtends(f.codec, before, |EncodeAll(f.codec, before)|, appended[i], |f.codec.encode(appended[i])| + 1);
        EncodeAllSnoc(f.codec, before, appended[i]);
        index.Push(appended[i], |f.codec.encode(appended[i])| + 1);
      }
      assert appended[..|appended|] == appended;
    }

    method FinishCommit(index: IndexData, ghost events: seq<Event>, ghost rs: seq<Record>, ghost known: bool)
      returns (o: Outcome<()>)
      requires known ==> f.Lawful() && Pending(f, session, dir.files, rs, events) && IndexTmp !in dir.files
      requires known ==> Content(dir.files, EventsFile) == EncodeAll(f.codec, Extended(f.codec, rs, events))
      requires known ==> index == IndexOf(f, Extended(f.codec, rs, events))
      modifies dir
      ensures known ==>
                && !o.Failed?
                && (o.Done? ==> Settled(f, session, dir.files, Extended(f.codec, rs, events)))
                && (o.Crashed? ==> Holds(f, session, dir.files, Extended(f.codec, rs, events)))
      ensures o.Done? ==> IntentFile !in dir.files
      ensures Content(dir.files, EventsFile) == Content(old(dir.files), EventsFile)
      ensures old(dir.budget) >= 4 ==> !o.Crashed?
    {
      if known {
        IndexOfShape(f, session, Extended(f.codec, rs, events));
      }
      o := PersistIndex(index);
      if known {
        PendingStays(f, session, old(dir.files), dir.files, rs, events);
      }
      if o.Done? {
        if known {
          Settles(f, session, dir.files, rs, events);
        }
        var alive := dir.Remove(IntentFile);
        o := if alive then Done(()) else Crashed;
      }
    }

    /** Everything an append decides before it writes: a retry, a refusal, or new records and their bytes. */
    method Decide(index: JournalIndex, events: seq<Event>, ghost rs: seq<Record>, ghost known: bool)
      returns (r: Result<(Accepted, Bytes), Error>)
      requires index.Valid() && index.codec == f.codec && f.codec.AllFit(events)
      requires known ==> f.Lawful() && Settled(f, session, dir.files, rs) && index.View() == IndexOf(f, rs)
      ensures known && !Repeats(rs, events) ==>
                match AcceptContent(f.codec, session, rs, events)
                case Err(e) => r == Err(e)
                case Ok(a) => r.Ok? && r.value.0 == a && (a.Appended? ==> r.value.1 == EncodeAll(f.codec, a.records))
      ensures known && Repeats(rs, events) && r.Ok? ==>
                && r.value == (Appended(Link(f.codec, LastSha(rs), events)), EncodeAll(f.codec, Link(f.codec, LastSha(rs), events)))
                && Contiguous(|rs|, events) && Sized(f.codec, Link(f.codec, LastSha(rs), events))
    {
      if events == [] {
        return Err(EmptyBatch);
      }
      if OtherSession(session, events) {
        return Err(SessionMismatch);
      }
      if index.records + |events| > MAX_SESSION_RECORDS {
        return Err(TooManyRecords);
      }
      var earlier := LookForRetry(index, events, rs);
      if earlier.Err? {
        return Err(earlier.error);
      }
      if earlier.value.Some? {
        return Ok((Stored(earlier.value.value), []));
      }
      r := PrepareAndEncode(index, events, rs);
      PreparedMeans(events, rs);
    }

    lemma PreparedMeans(events: seq<Event>, rs: seq<Record>)
      requires events != [] && !OtherSession(session, events)
      ensures NewIds(rs, events) && DistinctEventIds(events) && |rs| + |events| <= MAX_SESSION_RECORDS ==>
                AcceptContent(f.codec, session, rs, events) ==
                WithinLimits(f.codec, rs, PrepareFromTail(f.codec, |rs|, LastSha(rs), events))
      ensures PrepareFromTail(f.codec, |rs|, LastSha(rs), events).Ok? ==>
                Contiguous(|rs|, events) &&
                PrepareFromTail(f.codec, |rs|, LastSha(rs), events).value == Link(f.codec, LastSha(rs), events)
    {
      PrepareFromTailExact(f.codec, |rs|, LastSha(rs), events);
      if NewIds(rs, events) && DistinctEventIds(events) && |rs| + |events| <= MAX_SESSION_RECORDS {
        AcceptNewContent(f.codec, session, rs, events);
      }
    }

    method LookForRetry(index: JournalIndex, events: seq<Event>, ghost rs: seq<Record>)
      returns (r: Result<Option<seq<Record>>, Error>)
      requires index.Valid() && index.codec == f.codec && events != []
      ensures f.Lawful() && Settled(f, session, dir.files, rs) && index.View() == IndexOf(f, rs) ==>
                && (AllKnown(rs, events) ==>
                      r == if SameContent(StoredRecords(rs, events), events) then Ok(Some(StoredRecords(rs, events))) else Err(ReusedId))
                && (!AllKnown(rs, events) && !NewIds(rs, events) ==> r == Err(PartialRetry))
                && (NewIds(rs, events) ==> r == Ok(None))
    {
      var mightBeRetry := false;
      for i := 0 to |events|
        invariant !mightBeRetry ==> forall k :: 0 <= k < i ==> !MightContain(f.codec, index.View().bloom, events[k].id)
      {
        var hit := index.Query(events[i].id);
        mightBeRetry := mightBeRetry || hit;
      }
      if !mightBeRetry {
        if index.View() == IndexOf(f, rs) {
          FilterSeesStoredIds(f.codec, rs, events);
          NewIdsByLookup(rs, events);
          assert FindId(rs, events[0].id).None?;
        }
        return Ok(None);
      }
      var replayed := Replay(f.codec, session, Content(dir.files, EventsFile));
      ReplayGives(Content(dir.files, EventsFile), rs);
      if replayed.Err? {
        return Err(replayed.error);
      }
      r := MatchRetry(replayed.value, events);
    }

    method PrepareAndEncode(index: JournalIndex, events: seq<Event>, ghost rs: seq<Record>)
      returns (r: Result<(Accepted, Bytes), Error>)
      requires index.Valid() && f.codec.AllFit(events)
      ensures index.View() == IndexOf(f, rs) ==>
                match WithinLimits(f.codec, rs, PrepareFromTail(f.codec, |rs|, LastSha(rs), events))
                case Err(e) => r == Err(e)
                case Ok(a) => r == Ok((a, EncodeAll(f.codec, a.records)))
    {
      var last := if index.lastRecord.Some? then Some(index.lastRecord.value.sha) else None;
      var prepared := PrepareRecordsFromTail(f.codec, index.records, last, events);
      if prepared.Err? {
        return Err(prepared.error);
      }
      PreparedFits(index.records, last, events);
      var encoded := EncodeRecords(f.codec, prepared.value);
      if encoded.Err? {
        return Err(encoded.error);
      }
      EncodeAllConcat(f.codec, rs, prepared.value);
      if index.journalBytes + |encoded.value| > MAX_JOURNAL_BYTES {
        return Err(JournalTooLarge);
      }
      return Ok((Appended(prepared.value), encoded.value));
    }

    lemma PreparedFits(count: nat, last: Option<string>, events: seq<Event>)
      requires f.codec.AllFit(events) && PrepareFromTail(f.codec, count, last, events).Ok?
      ensures var prepared := PrepareFromTail(f.codec, count, last, events).value;
              forall k :: 0 <= k < |prepared| ==> f.codec.Fits(prepared[k].event)
    {
      PrepareFromTailExact(f.codec, count, last, events);
      forall k | 0 <= k < |events|
        ensures f.codec.Fits(Link(f.codec, last, events)[k].event)
      {
        LinkEvents(f.codec, last, events, k);
      }
    }

    /** Decide and, for new records, commit. The index is loaded and no batch is under way. */
    method AcceptEvents(index: JournalIndex, events: seq<Event>, ghost rs: seq<Record>, ghost known: bool)
      returns (o: Outcome<seq<Record>>)
      requires index.Valid() && index.codec == f.codec && f.codec.AllFit(events)
      requires known ==> f.Lawful() && Settled(f, session, dir.files, rs) && index.View() == IndexOf(f, rs)
      requires known ==> IntentTmp !in dir.files && IndexTmp !in dir.files
      modifies dir, index, index.bloom
      ensures known && !Repeats(rs, events) ==> Answered(dir.files, AcceptBatch(f, session, rs, events), o, rs)
      ensures known && Repeats(rs, events) ==> AnsweredRepeating(dir.files, events, o, rs)
      ensures old(dir.budget) >= 8 ==> !o.Crashed?
    {
      var decision := Decide(index, events, rs, known);
      if decision.Err? {
        return Failed(decision.error);
      }
      var (accepted, encoded) := decision.value;
      if accepted.Stored? {
        return Done(accepted.records);
      }
      if known && !Repeats(rs, events) {
        AcceptedCommits(events, rs);
      }
      EncodeAllConcat(f.codec, rs, accepted.records);
      var committed := CommitBatch(index, events, accepted.records, encoded, rs, known && !Repeats(rs, events));
      match committed {
        case Done(_) => return Done(accepted.records);
        case Failed(e) => return Failed(e);
        case Crashed => return Crashed;
      }
    }

    ghost predicate AnsweredRepeating(d: Directory, events: seq<Event>, o: Outcome<seq<Record>>, rs: seq<Record>) {
      o.Done? ==>
        && o.value == Link(f.codec, LastSha(rs), events)
        && Contiguous(|rs|, events) && Sized(f.codec, o.value) && IntentFile !in d
        && Content(d, EventsFile) == EncodeAll(f.codec, rs + o.value)
    }

    lemma AcceptedCommits(events: seq<Event>, rs: seq<Record>)
      requires History(f.codec, session, rs)
      requires AcceptContent(f.codec, session, rs, events).Ok? && AcceptContent(f.codec, session, rs, events).value.Appended?
      ensures var batch := AcceptContent(f.codec, session, rs, events).value.records;
              GoodCommit(events, batch, EncodeAll(f.codec, batch), rs)
    {
      AcceptedExtends(f.codec, session, rs, events);
    }

    /** The answer of an append agrees with the decision over the whole history, and so does the directory. */
    ghost predicate Answered(d: Directory, decision: Result<Accepted, Error>, o: Outcome<seq<Record>>, rs: seq<Record>) {
      match decision
      case Err(e) => (o.Done? ==> false) && (o.Failed? ==> o.error == e && Settled(f, session, d, rs))
                     && (o.Crashed? ==> Holds(f, session, d, rs))
      case Ok(Stored(records)) => (o.Done? ==> o.value == records && Settled(f, session, d, rs)) && !o.Failed?
                                  && (o.Crashed? ==> Holds(f, session, d, rs))
      case Ok(Appended(batch)) => (o.Done? ==> o.value == batch && Settled(f, session, d, rs + batch)) && !o.Failed?
                                  && (o.Crashed? ==> Holds(f, session, d, rs) || Holds(f, session, d, rs + batch))
    }

    method OpenIndex(ghost rs: seq<Record>) returns (o: Outcome<JournalIndex>)
      modifies dir
      ensures o.Done? ==> fresh(o.value) && o.value.Valid() && fresh(o.value.bloom) && o.value.codec == f.codec
      ensures f.Lawful() && Holds(f, session, old(dir.files), rs) ==>
                && !o.Failed?
                && (o.Done? ==> o.value.View() == IndexOf(f, rs) && Settled(f, session, dir.files, rs)
                                && IntentTmp !in dir.files && IndexTmp !in dir.files)
                && (o.Crashed? ==> Holds(f, session, dir.files, rs))
      ensures o.Done? ==> old(dir.budget) <= dir.budget + 11
      ensures old(dir.budget) >= 11 ==> !o.Crashed?
    {
      var recovered := RecoverIntent(rs);
      if !recovered.Done? {
        return if recovered.Crashed? then Crashed else Failed(recovered.error);
      }
      o := LoadOrRebuildIndex(rs);
    }

    /**
     * `append_legacy`. Starting from any directory an interrupted run can leave, the call behaves as the
     * decision over the whole history says, whenever power is lost. The one exception is stated: a batch
     * that repeats one of its own new IDs.
     */
    method AppendBatch(build: nat -> Result<seq<Event>, Error>, ghost rs: seq<Record>) returns (o: Outcome<seq<Record>>)
      requires BuildsEvents(f.codec, build)
      modifies dir
      ensures f.Lawful() && Holds(f, session, old(dir.files), rs) ==>
                match build(|rs| + 1)
                case Err(e) => Answered(dir.files, Err(e), o, rs)
                case Ok(events) =>
                  && (!Repeats(rs, events) ==> Answered(dir.files, AcceptBatch(f, session, rs, events), o, rs))
                  && (Repeats(rs, events) ==> AnsweredRepeating(dir.files, events, o, rs))
      ensures old(dir.budget) >= 19 ==> !o.Crashed?
    {
      ghost var known := f.Lawful() && Holds(f, session, dir.files, rs);
      var loaded := OpenIndex(rs);
      if !loaded.Done? {
        return if loaded.Crashed? then Crashed else Failed(loaded.error);
      }
      var index := loaded.value;
      var built := build(index.records + 1);
      if built.Err? {
        return Failed(built.error);
      }
      o := AcceptEvents(index, built.value, rs, known);
    }

    /** `replay_legacy`: recover, read everything, refresh the index. */
    method ReplayJournal(ghost rs: seq<Record>) returns (o: Outcome<seq<Record>>)
      modifies dir
      ensures f.Lawful() && Holds(f, session, old(dir.files), rs) ==>
                && !o.Failed?
                && (o.Done? ==> o.value == rs && Settled(f, session, dir.files, rs))
                && (o.Crashed? ==> Holds(f, session, dir.files, rs))
      ensures old(dir.budget) >= 11 ==> !o.Crashed?
    {
      var recovered := RecoverIntent(rs);
      if !recovered.Done? {
        return if recovered.Crashed? then Crashed else Failed(recovered.error);
      }
      ghost var before := dir.files;
      o := ReplayAndIndex(rs);
      if f.Lawful() && Holds(f, session, old(dir.files), rs) {
        IndexedStaysSettled(before, dir.files, rs, o.Done?);
      }
    }

    // ----- whole runs -----

    /**
     * One call of a run after power came back. The answer and the history after it are what the decision
     * over the whole history says.
     */
    method OneCall(call: Call, ghost rs: seq<Record>) returns (o: Outcome<seq<Record>>, ghost after: seq<Record>)
      requires f.Lawful() && Holds(f, session, dir.files, rs) && ProperCall(f.codec, call)
      modifies dir
      ensures Holds(f, session, dir.files, after) && Explains(Decision(f, session, call, rs), rs, o, after)
    {
      dir.Restart(call.budget, call.torn);
      after := rs;
      match call {
        case ReplayCall(_, _) =>
          o := ReplayJournal(rs);
        case AppendCall(_, _, build) =>
          o := AppendBatch(build, rs);
          after := HistoryAfter(Decision(f, session, call, rs), o, rs);
      }
    }

    lemma HistoryAfter(decision: Result<Accepted, Error>, o: Outcome<seq<Record>>, rs: seq<Record>)
      returns (after: seq<Record>)
      requires Answered(dir.files, decision, o, rs)
      ensures Holds(f, session, dir.files, after) && Explains(decision, rs, o, after)
    {
      after := rs;
      if decision.Ok? && decision.value.Appended? && (o.Done? || !Holds(f, session, dir.files, rs)) {
        after := rs + decision.value.records;
      }
    }

    /**
     * Any run of appends and replays, power lost anywhere: the directory stays recoverable, every answer is
     * the one the decision over the whole history gives, the history grows only by whole accepted batches,
     * and nothing that was returned is ever lost.
     */
    method Run(calls: seq<Call>, ghost rs0: seq<Record>)
      returns (outcomes: seq<Outcome<seq<Record>>>, ghost histories: seq<seq<Record>>)
      requires f.Lawful() && Holds(f, session, dir.files, rs0)
      requires forall i :: 0 <= i < |calls| ==> ProperCall(f.codec, calls[i])
      modifies dir
      ensures |outcomes| == |calls| && |histories| == |calls| + 1 && histories[0] == rs0
      ensures Holds(f, session, dir.files, histories[|calls|])
      ensures RunOk(f, session, calls, outcomes, histories)
      ensures forall i :: 0 <= i < |calls| ==> ReturnedIn(outcomes[i], histories[|calls|])
    {
      outcomes, histories := [], [rs0];
      for i := 0 to |calls|
        invariant |outcomes| == i && |histories| == i + 1 && histories[0] == rs0
        invariant Holds(f, session, dir.files, histories[i])
        invariant RunOk(f, session, calls[..i], outcomes, histories)
      {
        var o, after := OneCall(calls[i], histories[i]);
        RunOn(f, session, calls, i, outcomes, histories, o, after);
        outcomes := outcomes + [o];
        histories := histories + [after];
      }
      assert calls[..|calls|] == calls;
      NothingLost(f, session, calls, outcomes, histories);
    }

    /**
     * Exactly once. The same batch is sent until a call returns, each attempt losing power wherever the
     * schedule says. If the full history accepts the batch, the answer is its records and they are in the
     * journal once.
     */
    method Deliver(build: nat -> Result<seq<Event>, Error>, attempts: seq<(nat, Option<nat>)>,
                   ghost rs: seq<Record>, ghost batch: seq<Record>)
      returns (o: Outcome<seq<Record>>)
      requires f.Lawful() && Holds(f, session, dir.files, rs) && BuildsEvents(f.codec, build) && SameBatch(build, rs)
      requires AcceptBatch(f, session, rs, build(|rs| + 1).value) == Ok(Appended(batch))
      modifies dir
      ensures o.Done? ==> o.value == batch && Settled(f, session, dir.files, rs + batch)
      ensures o.Failed? ==> o.error == TooManyRecords && |rs| + 2 * |batch| > MAX_SESSION_RECORDS
                            && Settled(f, session, dir.files, rs + batch)
      ensures o.Crashed? ==> Holds(f, session, dir.files, rs) || Holds(f, session, dir.files, rs + batch)
      ensures attempts != [] && attempts[|attempts| - 1].0 >= 19 ==> !o.Crashed?
    {
      o := Crashed;
      ghost var stored := false;
      HoldsHistory(f, session, dir.files, rs);
      for i := 0 to |attempts|
        invariant o.Crashed?
        invariant Holds(f, session, dir.files, if stored then rs + batch else rs)
        invariant i > 0 ==> attempts[i - 1].0 < 19
      {
        o, stored := Attempt(build, attempts[i].0, attempts[i].1, rs, batch, stored);
        if !o.Crashed? {
          return;
        }
      }
    }

    method Attempt(build: nat -> Result<seq<Event>, Error>, budget: nat, torn: Option<nat>,
                   ghost rs: seq<Record>, ghost batch: seq<Record>, ghost before: bool)
      returns (o: Outcome<seq<Record>>, ghost stored: bool)
      requires f.Lawful() && Holds(f, session, dir.files, if before then rs + batch else rs)
      requires BuildsEvents(f.codec, build) && SameBatch(build, rs) && History(f.codec, session, rs)
      requires AcceptBatch(f, session, rs, build(|rs| + 1).value) == Ok(Appended(batch))
      modifies dir
      ensures o.Done? ==> o.value == batch && Settled(f, session, dir.files, rs + batch)
      ensures o.Failed? ==> o.error == TooManyRecords && |rs| + 2 * |batch| > MAX_SESSION_RECORDS
                            && Settled(f, session, dir.files, rs + batch)
      ensures o.Crashed? ==> Holds(f, session, dir.files, if stored then rs + batch else rs)
      ensures budget >= 19 ==> !o.Crashed?
    {
      ghost var h := if before then rs + batch else rs;
      if before {
        HoldsHistory(f, session, dir.files, h);
        SecondAttempt(f, session, build, rs, batch);
      } else {
        FirstAttempt(f, session, build, rs, batch);
      }
      dir.Restart(budget, torn);
      o := AppendBatch(build, h);
      stored := before || (o.Crashed? && !Holds(f, session, dir.files, rs));
    }
  }

  /** What the full history answers to the batch built for it. */
  ghost predicate AnswersWith(f: Files, session: string, build: nat -> Result<seq<Event>, Error>,
                              h: seq<Record>, answer: Result<Accepted, Error>) {
    && build(|h| + 1).Ok? && !Repeats(h, build(|h| + 1).value)
    && AcceptBatch(f, session, h, build(|h| + 1).value) == answer
  }

  datatype Call =
    | AppendCall(budget: nat, torn: Option<nat>, build: nat -> Result<seq<Event>, Error>)
    | ReplayCall(budget: nat, torn: Option<nat>)

  /** Whatever is built consists of event envelopes, so it meets their limit. */
  ghost predicate BuildsEvents(c: Codec, build: nat -> Result<seq<Event>, Error>) {
    forall n :: build(n).Ok? ==> c.AllFit(build(n).value)
  }

  /** What the callers of append provide: event envelopes, and the IDs of one batch differ. */
  ghost predicate ProperCall(c: Codec, call: Call) {
    call.AppendCall? ==>
      BuildsEvents(c, call.build) && forall n :: call.build(n).Ok? ==> DistinctEventIds(call.build(n).value)
  }

  // ----- runs as the history sees them -----

  /** What a call answers and adds when the whole history `h` is looked at. */
  ghost function Decision(f: Files, session: string, call: Call, h: seq<Record>): Result<Accepted, Error> {
    match call
    case ReplayCall(_, _) => Ok(Stored(h))
    case AppendCall(_, _, build) =>
      match build(|h| + 1)
      case Err(e) => Err(e)
      case Ok(events) => AcceptBatch(f, session, h, events)
  }

  /** A call that returned did what was decided; one that lost power did that or nothing. */
  ghost predicate Explains(decision: Result<Accepted, Error>, before: seq<Record>, o: Outcome<seq<Record>>, after: seq<Record>) {
    match decision
    case Err(e) => after == before && !o.Done? && (o.Failed? ==> o.error == e)
    case Ok(Stored(records)) => after == before && !o.Failed? && (o.Done? ==> o.value == records)
    case Ok(Appended(batch)) => !o.Failed? && (after == before + batch || (after == before && o.Crashed?))
                                && (o.Done? ==> o.value == batch)
  }

  ghost predicate StepOk(f: Files, session: string, calls: seq<Call>, outcomes: seq<Outcome<seq<Record>>>,
                         histories: seq<seq<Record>>, i: nat)
    requires i < |calls| && i < |outcomes| && i + 1 < |histories|
  {
    Explains(Decision(f, session, calls[i], histories[i]), histories[i], outcomes[i], histories[i + 1])
  }

  ghost predicate RunOk(f: Files, session: string, calls: seq<Call>, outcomes: seq<Outcome<seq<Record>>>,
                        histories: seq<seq<Record>>) {
    && |outcomes| == |calls| && |histories| == |calls| + 1
    && forall i :: 0 <= i < |calls| ==> StepOk(f, session, calls, outcomes, histories, i)
  }

  /** Every record that was returned is in the history. */
  ghost predicate ReturnedIn(o: Outcome<seq<Record>>, history: seq<Record>) {
    o.Done? ==> forall r :: r in o.value ==> r in history
  }

  lemma ReturnedOnce(f: Files, session: string, call: Call, before: seq<Record>, o: Outcome<seq<Record>>, after: seq<Record>)
    requires Explains(Decision(f, session, call, before), before, o, after)
    ensures ReturnedIn(o, after) && before <= after
  {
    if call.AppendCall? && call.build(|before| + 1).Ok? && AllKnown(before, call.build(|before| + 1).value) {
      StoredIsKept(before, call.build(|before| + 1).value);
    }
  }

  lemma StoredIsKept(rs: seq<Record>, events: seq<Event>)
    requires AllKnown(rs, events)
    ensures forall r :: r in StoredRecords(rs, events) ==> r in rs
  {
    forall i | 0 <= i < |events|
      ensures StoredRecords(rs, events)[i] in rs
    {
      FindIdExact(rs, events[i].id);
    }
  }

  lemma {:induction false} HistoryGrows(f: Files, session: string, calls: seq<Call>, outcomes: seq<Outcome<seq<Record>>>,
                                        histories: seq<seq<Record>>, i: nat, j: nat)
    requires RunOk(f, session, calls, outcomes, histories) && i <= j <= |calls|
    ensures histories[i] <= histories[j]
    decreases j
  {
    if i < j {
      HistoryGrows(f, session, calls, outcomes, histories, i, j - 1);
      assert StepOk(f, session, calls, outcomes, histories, j - 1);
      ReturnedOnce(f, session, calls[j - 1], histories[j - 1], outcomes[j - 1], histories[j]);
    }
  }

  lemma RunOn(f: Files, session: string, calls: seq<Call>, i: nat, outcomes: seq<Outcome<seq<Record>>>,
              histories: seq<seq<Record>>, o: Outcome<seq<Record>>, after: seq<Record>)
    requires i < |calls| && RunOk(f, session, calls[..i], outcomes, histories)
    requires Explains(Decision(f, session, calls[i], histories[i]), histories[i], o, after)
    ensures RunOk(f, session, calls[..i + 1], outcomes + [o], histories + [after])
  {
    var cs, os, hs := calls[..i + 1], outcomes + [o], histories + [after];
    forall k | 0 <= k < i + 1
      ensures StepOk(f, session, cs, os, hs, k)
    {
      if k < i {
        assert StepOk(f, session, calls[..i], outcomes, histories, k);
        assert cs[k] == calls[..i][k] && os[k] == outcomes[k] && hs[k] == histories[k] && hs[k + 1] == histories[k + 1];
      }
    }
  }

  lemma NothingLost(f: Files, session: string, calls: seq<Call>, outcomes: seq<Outcome<seq<Record>>>, histories: seq<seq<Record>>)
    requires RunOk(f, session, calls, outcomes, histories)
    ensures forall i :: 0 <= i < |calls| ==> ReturnedIn(outcomes[i], histories[|calls|])
  {
    forall i | 0 <= i < |calls|
      ensures ReturnedIn(outcomes[i], histories[|calls|])
    {
      assert StepOk(f, session, calls, outcomes, histories, i);
      ReturnedOnce(f, session, calls[i], histories[i], outcomes[i], histories[i + 1]);
      HistoryGrows(f, session, calls, outcomes, histories, i + 1, |calls|);
    }
  }

  /** The events that a call of a run builds. */
  ghost function BuiltAt(calls: seq<Call>, histories: seq<seq<Record>>, i: nat): Result<seq<Event>, Error>
    requires i < |calls| && i < |histories| && calls[i].AppendCall?
  {
    calls[i].build(|histories[i]| + 1)
  }

  ghost predicate SameEvents(events: seq<Event>, again: seq<Event>) {
    |again| == |events| && forall k :: 0 <= k < |events| ==> EquivalentRetry(events[k], again[k])
  }

  /**
   * Exactly once, with any other calls in between and power lost anywhere. When a batch was answered and
   * its content is sent again at any later point of the run, nothing is added, and the answer is the first
   * one; it is refused exactly when the session could not hold the batch a second time.
   */
  lemma RunIsExactlyOnce(f: Files, session: string, calls: seq<Call>, outcomes: seq<Outcome<seq<Record>>>,
                         histories: seq<seq<Record>>, i: nat, j: nat)
    requires RunOk(f, session, calls, outcomes, histories) && i < j < |calls| && History(f.codec, session, histories[i])
    requires calls[i].AppendCall? && calls[j].AppendCall? && outcomes[i].Done?
    requires BuiltAt(calls, histories, i).Ok? && BuiltAt(calls, histories, j).Ok?
    requires SameEvents(BuiltAt(calls, histories, i).value, BuiltAt(calls, histories, j).value)
    ensures histories[j + 1] == histories[j]
    ensures outcomes[j].Done? ==> outcomes[j].value == outcomes[i].value
    ensures outcomes[j].Failed? ==> outcomes[j].error == TooManyRecords
                                    && |histories[j]| + |outcomes[i].value| > MAX_SESSION_RECORDS
    ensures outcomes[i].value != [] && AllIn(outcomes[i].value, histories[j + 1])
  {
    assert StepOk(f, session, calls, outcomes, histories, i) && StepOk(f, session, calls, outcomes, histories, j);
    HistoryGrows(f, session, calls, outcomes, histories, i + 1, j);
    AnsweredAgain(f, session, histories[i], BuiltAt(calls, histories, i).value, outcomes[i], histories[i + 1],
                  histories[j], BuiltAt(calls, histories, j).value);
  }

  lemma AnsweredAgain(f: Files, session: string, h: seq<Record>, events: seq<Event>, o: Outcome<seq<Record>>,
                      after: seq<Record>, later: seq<Record>, again: seq<Event>)
    requires History(f.codec, session, h) && after <= later && SameEvents(events, again)
    requires o.Done? && Explains(AcceptBatch(f, session, h, events), h, o, after)
    ensures o.value != [] && |o.value| == |again| && AllIn(o.value, later)
    ensures AcceptBatch(f, session, later, again) ==
            if |later| + |o.value| <= MAX_SESSION_RECORDS then Ok(Stored(o.value)) else Err(TooManyRecords)
  {
    AcceptedIsKnown(f, session, h, events);
    KnownStaysKnown(f, session, after, events, later, again);
    StoredIsKept(after, events);
  }

  ghost predicate AllIn(records: seq<Record>, history: seq<Record>) {
    forall r :: r in records ==> r in history
  }

  /** After a batch was answered the history holds its content, and the answer. */
  lemma AcceptedIsKnown(f: Files, session: string, h: seq<Record>, events: seq<Event>)
    requires History(f.codec, session, h) && AcceptBatch(f, session, h, events).Ok?
    ensures var a := AcceptBatch(f, session, h, events).value; var after := if a.Appended? then h + a.records else h;
            && events != [] && !OtherSession(session, events) && AllKnown(after, events)
            && StoredRecords(after, events) == a.records && SameContent(a.records, events)
  {
    var a := AcceptBatch(f, session, h, events).value;
    if a.Appended? {
      AcceptedExtends(f.codec, session, h, events);
      var after := h + a.records;
      forall k | 0 <= k < |events|
        ensures FindId(after, events[k].id) == Some(a.records[k]) && a.records[k].event == events[k]
      {
        LinkEvents(f.codec, LastSha(h), events, k);
        assert after[|h| + k] == a.records[k];
        FindIdUnique(after, |h| + k);
      }
    }
  }

  lemma {:induction false} FindIdPrefix(h: seq<Record>, later: seq<Record>, id: string)
    requires h <= later && FindId(h, id).Some?
    ensures FindId(later, id) == FindId(h, id)
    decreases |h|
  {
    if h[0].event.id != id {
      FindIdPrefix(h[1..], later[1..], id);
    }
  }

  /** Content that is stored answers every later delivery of it, however much was appended since. */
  lemma KnownStaysKnown(f: Files, session: string, h: seq<Record>, events: seq<Event>, later: seq<Record>, again: seq<Event>)
    requires events != [] && !OtherSession(session, events) && h <= later && SameEvents(events, again)
    requires AllKnown(h, events) && SameContent(StoredRecords(h, events), events)
    ensures AcceptBatch(f, session, later, again) ==
            if |later| + |again| <= MAX_SESSION_RECORDS then Ok(Stored(StoredRecords(h, events))) else Err(TooManyRecords)
  {
    forall k | 0 <= k < |again|
      ensures FindId(later, again[k].id) == Some(StoredRecords(h, events)[k])
      ensures EquivalentRetry(StoredRecords(h, events)[k].event, again[k]) && again[k].context == events[k].context
    {
      assert EquivalentRetry(events[k], again[k]);
      ContentKeepsContext(events[k], again[k]);
      FindIdPrefix(h, later, events[k].id);
    }
    assert StoredRecords(later, again) == StoredRecords(h, events);
    assert !OtherSession(session, again) by {
      forall e | e in again
        ensures e.context.session == session
      {
        var k :| 0 <= k < |again| && again[k] == e;
        assert events[k] in events;
      }
    }
  }

  // ----- one batch, retried -----

  /** Building again for another sequence number gives the same batch up to sequence numbers and times. */
  ghost predicate SameBatch(build: nat -> Result<seq<Event>, Error>, rs: seq<Record>) {
    build(|rs| + 1).Ok? && forall n :: build(n).Ok? && SameEvents(build(|rs| + 1).value, build(n).value)
  }

  lemma HoldsHistory(f: Files, session: string, d: Directory, rs: seq<Record>)
    requires Holds(f, session, d, rs)
    ensures History(f.codec, session, rs)
  {
  }

  lemma FirstAttempt(f: Files, session: string, build: nat -> Result<seq<Event>, Error>, rs: seq<Record>, batch: seq<Record>)
    requires build(|rs| + 1).Ok? && AcceptBatch(f, session, rs, build(|rs| + 1).value) == Ok(Appended(batch))
    ensures AnswersWith(f, session, build, rs, Ok(Appended(batch)))
  {
    PrepareCheckedExact(f.codec, rs, build(|rs| + 1).value);
  }

  lemma SecondAttempt(f: Files, session: string, build: nat -> Result<seq<Event>, Error>, rs: seq<Record>, batch: seq<Record>)
    requires SameBatch(build, rs) && History(f.codec, session, rs)
    requires AcceptBatch(f, session, rs, build(|rs| + 1).value) == Ok(Appended(batch))
    ensures AnswersWith(f, session, build, rs + batch,
                        if |rs| + 2 * |batch| <= MAX_SESSION_RECORDS then Ok(Stored(batch)) else Err(TooManyRecords))
  {
    var events := build(|rs| + 1).value;
    var again := build(|rs + batch| + 1).value;
    AcceptedIsKnown(f, session, rs, events);
    KnownStaysKnown(f, session, rs + batch, events, rs + batch, again);
    KnownIsNotNew(rs + batch, events, again);
  }

  lemma KnownIsNotNew(h: seq<Record>, events: seq<Event>, again: seq<Event>)
    requires AllKnown(h, events) && events != [] && SameEvents(events, again)
    ensures !NewIds(h, again)
  {
    assert EquivalentRetry(events[0], again[0]);
    ContentKeepsContext(events[0], again[0]);
    NewIdsByLookup(h, again);
    assert FindId(h, again[0].id).Some?;
  }
}
