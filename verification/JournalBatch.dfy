/** Turning a batch of events into records, retries, and when a saved index may be used (src/journal.rs). */
module JournalBatch {
  import opened Prelude
  import opened Events
  import opened JournalCodec
  import opened JournalIndexing

  /** The records of a batch once its events are known to be acceptable. */
  function Link(c: Codec, previous: Option<string>, events: seq<Event>): (rs: seq<Record>)
    ensures |rs| == |events|
    decreases |events|
  {
    if events == [] then []
    else
      var r := NewRecord(c, events[0], previous);
      [r] + Link(c, Some(r.sha), events[1..])
  }

  predicate Contiguous(count: nat, events: seq<Event>) {
    forall i :: 0 <= i < |events| ==> events[i].sequence == count + i + 1
  }

  ghost predicate DistinctEventIds(events: seq<Event>) {
    forall i, j :: 0 <= i < j < |events| ==> events[i].id != events[j].id
  }

  ghost predicate NewIds(rs: seq<Record>, events: seq<Event>) {
    forall i, j :: 0 <= i < |rs| && 0 <= j < |events| ==> rs[i].event.id != events[j].id
  }

  function SequenceError(expected: nat, found: nat): Error {
    if found < expected then DuplicateSequence(found) else UnexpectedSequence(found)
  }

  /** `prepare_records_from_tail`: only the record count and the last hash are consulted. */
  function PrepareFromTail(c: Codec, count: nat, previous: Option<string>, events: seq<Event>)
    : Result<seq<Record>, Error>
    decreases |events|
  {
    if events == [] then Ok([])
    else if events[0].sequence != count + 1 then Err(SequenceError(count + 1, events[0].sequence))
    else
      var r := NewRecord(c, events[0], previous);
      match PrepareFromTail(c, count + 1, Some(r.sha), events[1..])
      case Err(e) => Err(e)
      case Ok(rest) => Ok([r] + rest)
  }

  /** `prepare_records`: the whole history is consulted, and every ID must be new to it. */
  function PrepareChecked(c: Codec, history: seq<Record>, events: seq<Event>): (r: Result<seq<Record>, Error>)
    ensures r.Ok? ==> |r.value| == |events|
    decreases |events|
  {
    if events == [] then Ok([])
    else if events[0].sequence != |history| + 1 then Err(SequenceError(|history| + 1, events[0].sequence))
    else if events[0].id in RecordIds(history) then Err(DuplicateEventId(events[0].id))
    else
      var r := NewRecord(c, events[0], LastSha(history));
      match PrepareChecked(c, history + [r], events[1..])
      case Err(e) => Err(e)
      case Ok(rest) => Ok([r] + rest)
  }

  lemma EmptyLeft(r: Result<seq<Record>, Error>)
    ensures r.Ok? ==> [] + r.value == r.value
  {
  }

  method PrepareRecordsFromTail(c: Codec, count: nat, last: Option<string>, events: seq<Event>)
    returns (r: Result<seq<Record>, Error>)
    ensures r == PrepareFromTail(c, count, last, events)
  {
    var sequence, previous := count, last;
    var appended: seq<Record> := [];
    assert events[0..] == events;
    EmptyLeft(PrepareFromTail(c, count, last, events));
    for i := 0 to |events|
      invariant sequence == count + i
      invariant match PrepareFromTail(c, sequence, previous, events[i..])
                case Err(e) => PrepareFromTail(c, count, last, events) == Err(e)
                case Ok(rest) => PrepareFromTail(c, count, last, events) == Ok(appended + rest)
    {
      sequence := sequence + 1;
      if events[i].sequence != sequence {
        return Err(SequenceError(sequence, events[i].sequence));
      }
      var record := NewRecord(c, events[i], previous);
      AppendedSoFar(c, sequence - 1, previous, events[i..], appended);
      assert events[i..][1..] == events[i + 1..];
      previous := Some(record.sha);
      appended := appended + [record];
    }
    assert appended + [] == appended;
    return Ok(appended);
  }

  lemma AppendedSoFar(c: Codec, count: nat, previous: Option<string>, events: seq<Event>, done: seq<Record>)
    requires events != [] && events[0].sequence == count + 1
    ensures var r := NewRecord(c, events[0], previous);
            match PrepareFromTail(c, count + 1, Some(r.sha), events[1..])
            case Err(e) => PrepareFromTail(c, count, previous, events) == Err(e)
            case Ok(rest) => && PrepareFromTail(c, count, previous, events).Ok?
                             && done + PrepareFromTail(c, count, previous, events).value == done + [r] + rest
  {
    var r := NewRecord(c, events[0], previous);
    var next := PrepareFromTail(c, count + 1, Some(r.sha), events[1..]);
    if next.Ok? {
      Associate(done, [r], next.value);
    }
  }

  method PrepareRecords(c: Codec, history: seq<Record>, events: seq<Event>) returns (r: Result<seq<Record>, Error>)
    ensures r == PrepareChecked(c, history, events)
  {
    var records := history;
    var appended: seq<Record> := [];
    var knownIds := set id | id in RecordIds(history);
    assert events[0..] == events;
    EmptyLeft(PrepareChecked(c, history, events));
    for i := 0 to |events|
      invariant forall id :: id in knownIds <==> id in RecordIds(records)
      invariant match PrepareChecked(c, records, events[i..])
                case Err(e) => PrepareChecked(c, history, events) == Err(e)
                case Ok(rest) => PrepareChecked(c, history, events) == Ok(appended + rest)
    {
      var expected := |records| + 1;
      if events[i].sequence != expected {
        return Err(SequenceError(expected, events[i].sequence));
      }
      if events[i].id in knownIds {
        return Err(DuplicateEventId(events[i].id));
      }
      knownIds := knownIds + {events[i].id};
      var record := NewRecord(c, events[i], LastSha(records));
      CheckedSoFar(c, records, events[i..], appended);
      assert events[i..][1..] == events[i + 1..];
      RecordIdsSnoc(records, record);
      records := records + [record];
      appended := appended + [record];
    }
    assert appended + [] == appended;
    return Ok(appended);
  }

  lemma CheckedSoFar(c: Codec, history: seq<Record>, events: seq<Event>, done: seq<Record>)
    requires events != [] && events[0].sequence == |history| + 1 && events[0].id !in RecordIds(history)
    ensures var r := NewRecord(c, events[0], LastSha(history));
            match PrepareChecked(c, history + [r], events[1..])
            case Err(e) => PrepareChecked(c, history, events) == Err(e)
            case Ok(rest) => && PrepareChecked(c, history, events).Ok?
                             && done + PrepareChecked(c, history, events).value == done + [r] + rest
  {
    var r := NewRecord(c, events[0], LastSha(history));
    var next := PrepareChecked(c, history + [r], events[1..]);
    if next.Ok? {
      Associate(done, [r], next.value);
    }
  }

  // ----- what preparation means -----

  lemma ContiguousTail(count: nat, events: seq<Event>)
    requires events != []
    ensures Contiguous(count, events) <==> events[0].sequence == count + 1 && Contiguous(count + 1, events[1..])
  {
    assert forall i :: 0 <= i < |events| - 1 ==> events[1..][i] == events[i + 1];
  }

  lemma {:induction false} PrepareFromTailExact(c: Codec, count: nat, previous: Option<string>, events: seq<Event>)
    ensures Contiguous(count, events) ==> PrepareFromTail(c, count, previous, events) == Ok(Link(c, previous, events))
    ensures !Contiguous(count, events) ==> PrepareFromTail(c, count, previous, events).Err?
    decreases |events|
  {
    if events != [] {
      ContiguousTail(count, events);
      PrepareFromTailExact(c, count + 1, Some(NewRecord(c, events[0], previous).sha), events[1..]);
    }
  }

  lemma IdsSplit(history: seq<Record>, r: Record, events: seq<Event>)
    requires events != [] && r.event == events[0]
    ensures NewIds(history, events) && DistinctEventIds(events) <==>
            events[0].id !in RecordIds(history) && NewIds(history + [r], events[1..]) && DistinctEventIds(events[1..])
  {
    var tail, more := events[1..], history + [r];
    assert forall j :: 0 <= j < |tail| ==> tail[j] == events[j + 1];
    assert forall i :: 0 <= i < |history| ==> more[i] == history[i] && history[i].event.id == RecordIds(history)[i];
    assert more[|history|] == r;
    if NewIds(more, tail) && DistinctEventIds(tail) && events[0].id !in RecordIds(history) {
      forall i, j | 0 <= i < j < |events|
        ensures events[i].id != events[j].id
      {
        assert events[j] == tail[j - 1];
        assert i > 0 ==> events[i] == tail[i - 1];
        assert i == 0 ==> more[|history|].event.id != tail[j - 1].id;
      }
      forall i, j | 0 <= i < |history| && 0 <= j < |events|
        ensures history[i].event.id != events[j].id
      {
        assert j > 0 ==> more[i].event.id != tail[j - 1].id;
      }
    }
    if NewIds(history, events) && DistinctEventIds(events) {
      forall i, j | 0 <= i < |more| && 0 <= j < |tail|
        ensures more[i].event.id != tail[j].id
      {
        assert tail[j] == events[j + 1];
      }
    }
  }

  /** The checked preparation succeeds exactly on contiguous batches of new, distinct IDs. */
  lemma {:induction false} PrepareCheckedExact(c: Codec, history: seq<Record>, events: seq<Event>)
    ensures PrepareChecked(c, history, events).Ok? <==>
            Contiguous(|history|, events) && NewIds(history, events) && DistinctEventIds(events)
    ensures PrepareChecked(c, history, events).Ok? ==>
            PrepareChecked(c, history, events).value == Link(c, LastSha(history), events)
    decreases |events|
  {
    if events != [] {
      var r := NewRecord(c, events[0], LastSha(history));
      ContiguousTail(|history|, events);
      IdsSplit(history, r, events);
      PrepareCheckedExact(c, history + [r], events[1..]);
    }
  }

  /**
   * For a batch of new IDs the short form, which sees only the index, agrees with the full form
   * whenever the batch repeats no ID of its own.
   */
  lemma {:induction false} TailFormRefinesFullForm(c: Codec, history: seq<Record>, events: seq<Event>)
    requires NewIds(history, events) && DistinctEventIds(events)
    ensures PrepareFromTail(c, |history|, LastSha(history), events) == PrepareChecked(c, history, events)
    decreases |events|
  {
    if events != [] {
      var r := NewRecord(c, events[0], LastSha(history));
      IdsSplit(history, r, events);
      TailFormRefinesFullForm(c, history + [r], events[1..]);
    }
  }

  /** For contiguous batches of new IDs, distinctness inside the batch is also necessary. */
  lemma TailFormNeedsDistinctIds(c: Codec, history: seq<Record>, events: seq<Event>)
    requires NewIds(history, events) && Contiguous(|history|, events)
    ensures PrepareFromTail(c, |history|, LastSha(history), events) == PrepareChecked(c, history, events)
       <==> DistinctEventIds(events)
  {
    PrepareFromTailExact(c, |history|, LastSha(history), events);
    PrepareCheckedExact(c, history, events);
    if DistinctEventIds(events) {
      TailFormRefinesFullForm(c, history, events);
    }
  }

  lemma {:induction false} LinkEvents(c: Codec, previous: Option<string>, events: seq<Event>, i: nat)
    requires i < |events|
    ensures Link(c, previous, events)[i].event == events[i]
    decreases |events|
  {
    if i > 0 {
      LinkEvents(c, Some(NewRecord(c, events[0], previous).sha), events[1..], i - 1);
    }
  }

  lemma {:induction false} LinkExtends(c: Codec, history: seq<Record>, events: seq<Event>)
    requires Linked(c, history) && Contiguous(|history|, events)
    ensures Linked(c, history + Link(c, LastSha(history), events))
    decreases |events|
  {
    if events == [] {
      assert history + [] == history;
    } else {
      var r := NewRecord(c, events[0], LastSha(history));
      ContiguousTail(|history|, events);
      LinkedSnoc(c, history, r);
      LinkExtends(c, history + [r], events[1..]);
      Associate(history, [r], Link(c, Some(r.sha), events[1..]));
    }
  }

  lemma LinkKeepsIdsDistinct(c: Codec, history: seq<Record>, previous: Option<string>, events: seq<Event>)
    requires DistinctIds(history)
    ensures DistinctIds(history + Link(c, previous, events)) <==> NewIds(history, events) && DistinctEventIds(events)
  {
    var batch := Link(c, previous, events);
    var all := history + batch;
    forall j | 0 <= j < |events|
      ensures batch[j].event == events[j]
    {
      LinkEvents(c, previous, events, j);
    }
    assert forall i :: 0 <= i < |history| ==> all[i] == history[i];
    assert forall j :: 0 <= j < |events| ==> all[|history| + j] == batch[j];
    if DistinctIds(all) {
      forall i, j | 0 <= i < |history| && 0 <= j < |events|
        ensures history[i].event.id != events[j].id
      {
        assert all[i].event.id != all[|history| + j].event.id;
      }
      forall i, j | 0 <= i < j < |events|
        ensures events[i].id != events[j].id
      {
        assert all[|history| + i].event.id != all[|history| + j].event.id;
      }
    }
  }

  // ----- retries -----

  /** Two events differ at most in the fields a retry may change. */
  predicate EquivalentRetry(existing: Event, retried: Event) {
    existing.(sequence := 0, occurredAt := "") == retried.(sequence := 0, occurredAt := "")
  }

  function FindId(history: seq<Record>, id: string): Option<Record> {
    if history == [] then None
    else if history[0].event.id == id then Some(history[0])
    else FindId(history[1..], id)
  }

  lemma {:induction false} FindIdExact(history: seq<Record>, id: string)
    ensures FindId(history, id).None? <==> forall i :: 0 <= i < |history| ==> history[i].event.id != id
    ensures FindId(history, id).Some? ==> FindId(history, id).value in history && FindId(history, id).value.event.id == id
  {
    if history != [] {
      FindIdExact(history[1..], id);
      assert forall i :: 0 < i < |history| ==> history[i] == history[1..][i - 1];
    }
  }

  lemma FindIdUnique(history: seq<Record>, k: nat)
    requires k < |history| && DistinctIds(history)
    ensures FindId(history, history[k].event.id) == Some(history[k])
  {
    var id := history[k].event.id;
    FindIdExact(history, id);
    var i :| 0 <= i < |history| && history[i] == FindId(history, id).value;
    assert history[i].event.id == id;
  }

  ghost predicate AllKnown(history: seq<Record>, events: seq<Event>) {
    forall i :: 0 <= i < |events| ==> FindId(history, events[i].id).Some?
  }

  function StoredRecords(history: seq<Record>, events: seq<Event>): (rs: seq<Record>)
    requires AllKnown(history, events)
    ensures |rs| == |events|
  {
    seq(|events|, i requires 0 <= i < |events| => FindId(history, events[i].id).value)
  }

  ghost predicate SameContent(records: seq<Record>, events: seq<Event>) {
    |records| == |events| && forall i :: 0 <= i < |events| ==> EquivalentRetry(records[i].event, events[i])
  }

  method MatchRetry(history: seq<Record>, events: seq<Event>) returns (r: Result<Option<seq<Record>>, Error>)
    requires events != []
    ensures AllKnown(history, events) && SameContent(StoredRecords(history, events), events) ==>
              r == Ok(Some(StoredRecords(history, events)))
    ensures AllKnown(history, events) && !SameContent(StoredRecords(history, events), events) ==> r == Err(ReusedId)
    ensures !AllKnown(history, events) && !NewIds(history, events) ==> r == Err(PartialRetry)
    ensures NewIds(history, events) ==> r == Ok(None)
  {
    var found: seq<Record> := [];
    var missing := false;
    for i := 0 to |events|
      invariant missing <==> exists k :: 0 <= k < i && FindId(history, events[k].id).None?
      invariant found == [] <==> forall k :: 0 <= k < i ==> FindId(history, events[k].id).None?
      invariant !missing ==> |found| == i && forall k :: 0 <= k < i ==> FindId(history, events[k].id) == Some(found[k])
    {
      match FindId(history, events[i].id) {
        case Some(record) => found := found + [record];
        case None => missing := true;
      }
    }
    NewIdsByLookup(history, events);
    if !missing {
      assert found == StoredRecords(history, events);
      var same := true;
      for i := 0 to |events|
        invariant same <==> forall k :: 0 <= k < i ==> EquivalentRetry(found[k].event, events[k])
      {
        same := same && EquivalentRetry(found[i].event, events[i]);
      }
      return if same then Ok(Some(found)) else Err(ReusedId);
    }
    return if found != [] then Err(PartialRetry) else Ok(None);
  }

  lemma NewIdsByLookup(history: seq<Record>, events: seq<Event>)
    ensures NewIds(history, events) <==> forall k :: 0 <= k < |events| ==> FindId(history, events[k].id).None?
  {
    forall k | 0 <= k < |events|
      ensures FindId(history, events[k].id).None? <==>
              forall i :: 0 <= i < |history| ==> history[i].event.id != events[k].id
    {
      FindIdExact(history, events[k].id);
    }
  }

  // ----- the index against the history -----

  predicate OtherSession(session: string, events: seq<Event>) {
    exists e :: e in events && e.context.session != session
  }

  /** The file formats of the intent and the index; JSON again. */
  datatype Files = Files(
    codec: Codec,
    encodeIntent: seq<Event> -> Bytes,
    decodeIntent: Bytes -> Option<seq<Event>>,
    encodeIndex: IndexData -> Bytes,
    decodeIndex: Bytes -> Option<IndexData>)
  {
    /** The last clause is arithmetic: 4096 numbers of 64 bits, one record and three counts stay under 256 KiB. */
    ghost predicate Lawful() {
      && codec.Lawful()
      && (forall events :: decodeIntent(encodeIntent(events)) == Some(events))
      && (forall index :: decodeIndex(encodeIndex(index)) == Some(index))
      && (forall index :: IndexShape(codec, index) ==> |encodeIndex(index)| <= MAX_INDEX_BYTES)
    }
  }

  predicate IndexShape(c: Codec, index: IndexData) {
    && index.version == INDEX_VERSION && |index.bloom| == BLOOM_WORDS
    && index.records <= MAX_SESSION_RECORDS && index.journalBytes <= MAX_JOURNAL_BYTES
    && (index.lastRecord.Some? ==> |c.encode(index.lastRecord.value)| <= MAX_RECORD_BYTES)
  }

  /** Checks on an index file that is present, against the journal bytes. */
  function LoadIndex(f: Files, saved: Bytes, journal: Bytes): Result<IndexData, Error> {
    if |saved| > MAX_INDEX_BYTES then Err(IndexTooLarge)
    else match f.decodeIndex(saved)
      case None => Err(BadIndex)
      case Some(index) =>
        if index.lastRecord.Some? && !f.codec.Fits(index.lastRecord.value.event) then Err(BadIndex)
        else if f.encodeIndex(index) != saved then Err(BadIndex)
        else if index.version != INDEX_VERSION || |index.bloom| != BLOOM_WORDS then Err(BadIndex)
        else if index.records > MAX_SESSION_RECORDS then Err(TooManyRecords)
        else if index.journalBytes != |journal| then Err(BadIndex)
        else if index.records == 0 then
          if index.lastRecord.Some? || |journal| != 0 then Err(BadIndex) else Ok(index)
        else match ReadTail(f.codec, journal)
          case Err(e) => Err(e)
          case Ok(tail) =>
            if index.lastRecord != Some(tail) || tail.sequence != index.records
               || tail.sha != f.codec.digest(tail.sequence, tail.event, tail.previous) then Err(BadIndex)
            else Ok(index)
  }

  function IndexOf(f: Files, rs: seq<Record>): IndexData {
    FromRecords(f.codec, rs, |EncodeAll(f.codec, rs)|)
  }

  lemma IndexOfShape(f: Files, session: string, rs: seq<Record>)
    requires History(f.codec, session, rs)
    ensures IndexShape(f.codec, IndexOf(f, rs))
  {
  }

  /** A saved index of the full replay is always accepted. */
  lemma LoadIndexExact(f: Files, session: string, rs: seq<Record>)
    requires f.Lawful() && History(f.codec, session, rs)
    ensures LoadIndex(f, f.encodeIndex(IndexOf(f, rs)), EncodeAll(f.codec, rs)) == Ok(IndexOf(f, rs))
  {
    IndexOfShape(f, session, rs);
    assert f.decodeIndex(f.encodeIndex(IndexOf(f, rs))) == Some(IndexOf(f, rs));
    if rs != [] {
      TailReachable(f.codec, session, rs);
      assert LinkedAt(f.codec, rs, |rs| - 1);
    }
  }

  /**
   * Whatever bytes the index file holds, an accepted index agrees with the full replay in length, record
   * count and last record. Only its Bloom filter is taken on trust.
   */
  lemma LoadIndexSound(f: Files, session: string, rs: seq<Record>, saved: Bytes)
    requires f.Lawful() && History(f.codec, session, rs)
    requires LoadIndex(f, saved, EncodeAll(f.codec, rs)).Ok?
    ensures LoadIndex(f, saved, EncodeAll(f.codec, rs)).value == IndexOf(f, rs).(bloom := LoadIndex(f, saved, EncodeAll(f.codec, rs)).value.bloom)
  {
    var index := LoadIndex(f, saved, EncodeAll(f.codec, rs)).value;
    if rs == [] {
      assert EncodeAll(f.codec, rs) == [];
    } else {
      EncodeAllEnds(f.codec, rs);
      TailExact(f.codec, rs);
      assert LinkedAt(f.codec, rs, |rs| - 1);
    }
  }

  // ----- appending, stated over the whole history -----

  datatype Accepted = Stored(records: seq<Record>) | Appended(records: seq<Record>)

  /**
   * What an append does to a history, with no index, no filter and no bytes: every ID is looked up in
   * the full history.
   */
  ghost function AcceptContent(c: Codec, session: string, history: seq<Record>, events: seq<Event>)
    : Result<Accepted, Error>
  {
    if events == [] then Err(EmptyBatch)
    else if OtherSession(session, events) then Err(SessionMismatch)
    else if |history| + |events| > MAX_SESSION_RECORDS then Err(TooManyRecords)
    else if AllKnown(history, events) then
      if SameContent(StoredRecords(history, events), events) then Ok(Stored(StoredRecords(history, events)))
      else Err(ReusedId)
    else if !NewIds(history, events) then Err(PartialRetry)
    else WithinLimits(c, history, PrepareChecked(c, history, events))
  }

  ghost function WithinLimits(c: Codec, history: seq<Record>, prepared: Result<seq<Record>, Error>): Result<Accepted, Error> {
    match prepared
    case Err(e) => Err(e)
    case Ok(batch) =>
      if !Sized(c, batch) then Err(RecordTooLarge)
      else if |EncodeAll(c, history + batch)| > MAX_JOURNAL_BYTES then Err(JournalTooLarge)
      else Ok(Appended(batch))
  }

  /** For new, distinct IDs the decision can be made from the record count and the last hash alone. */
  lemma AcceptNewContent(c: Codec, session: string, history: seq<Record>, events: seq<Event>)
    requires events != [] && !OtherSession(session, events) && |history| + |events| <= MAX_SESSION_RECORDS
    requires NewIds(history, events) && DistinctEventIds(events)
    ensures AcceptContent(c, session, history, events) ==
            WithinLimits(c, history, PrepareFromTail(c, |history|, LastSha(history), events))
  {
    NewIdsByLookup(history, events);
    assert FindId(history, events[0].id).None?;
    TailFormRefinesFullForm(c, history, events);
  }

  ghost function AcceptBatch(f: Files, session: string, history: seq<Record>, events: seq<Event>): Result<Accepted, Error> {
    var r := AcceptContent(f.codec, session, history, events);
    if r.Ok? && r.value.Appended? && |f.encodeIntent(events)| > MAX_INTENT_BYTES then Err(IntentTooLarge) else r
  }

  lemma SizedConcat(c: Codec, a: seq<Record>, b: seq<Record>)
    requires Sized(c, a) && Sized(c, b)
    ensures Sized(c, a + b)
  {
  }

  /** An accepted batch extends the history by exactly its linked records and keeps the history valid. */
  lemma AcceptedExtends(c: Codec, session: string, history: seq<Record>, events: seq<Event>)
    requires History(c, session, history)
    requires AcceptContent(c, session, history, events).Ok? && AcceptContent(c, session, history, events).value.Appended?
    ensures var batch := AcceptContent(c, session, history, events).value.records;
            && batch == Link(c, LastSha(history), events) && Contiguous(|history|, events)
            && History(c, session, history + batch)
  {
    var batch := AcceptContent(c, session, history, events).value.records;
    PrepareCheckedExact(c, history, events);
    LinkExtends(c, history, events);
    LinkKeepsIdsDistinct(c, history, LastSha(history), events);
    SizedConcat(c, history, batch);
    forall i | 0 <= i < |history + batch|
      ensures (history + batch)[i].event.context.session == session
    {
      if i >= |history| {
        LinkEvents(c, LastSha(history), events, i - |history|);
        assert events[i - |history|] in events;
      }
    }
  }

  /** An already stored batch is answered with what is stored. */
  lemma StoredRetry(f: Files, session: string, history: seq<Record>, at: nat, events: seq<Event>)
    requires DistinctIds(history) && events != [] && !OtherSession(session, events)
    requires at + |events| <= |history| && SameContent(history[at..at + |events|], events)
    ensures AcceptBatch(f, session, history, events) ==
            if |history| + |events| <= MAX_SESSION_RECORDS then Ok(Stored(history[at..at + |events|]))
            else Err(TooManyRecords)
  {
    var stored := history[at..at + |events|];
    forall i | 0 <= i < |events|
      ensures FindId(history, events[i].id) == Some(stored[i])
    {
      assert stored[i] == history[at + i] && EquivalentRetry(stored[i].event, events[i]);
      FindIdUnique(history, at + i);
    }
    assert StoredRecords(history, events) == stored;
  }

  /**
   * Sending an accepted batch again, with other sequence numbers and times, changes nothing and returns
   * the stored records, however much was appended since; unless the session is so full that the batch
   * would not fit a second time, for that limit is checked first.
   */
  lemma RetryAfterAcceptance(f: Files, session: string, history: seq<Record>, events: seq<Event>,
                             later: seq<Record>, again: seq<Event>)
    requires History(f.codec, session, history)
    requires AcceptBatch(f, session, history, events).Ok? && AcceptBatch(f, session, history, events).value.Appended?
    requires DistinctIds(history + AcceptBatch(f, session, history, events).value.records + later)
    requires |again| == |events| && forall i :: 0 <= i < |events| ==> EquivalentRetry(events[i], again[i])
    ensures var batch := AcceptBatch(f, session, history, events).value.records;
            var now := history + batch + later;
            AcceptBatch(f, session, now, again) ==
            if |now| + |again| <= MAX_SESSION_RECORDS then Ok(Stored(batch)) else Err(TooManyRecords)
  {
    var batch := AcceptBatch(f, session, history, events).value.records;
    AcceptedExtends(f.codec, session, history, events);
    var now := history + batch + later;
    assert now[|history|..|history| + |again|] == batch;
    forall i | 0 <= i < |again|
      ensures EquivalentRetry(batch[i].event, again[i]) && again[i].context == events[i].context
    {
      LinkEvents(f.codec, LastSha(history), events, i);
      assert EquivalentRetry(events[i], again[i]);
      ContentKeepsContext(events[i], again[i]);
    }
    assert !OtherSession(session, again) by {
      forall e | e in again
        ensures e.context.session == session
      {
        var i :| 0 <= i < |again| && again[i] == e;
        assert events[i] in events;
      }
    }
    StoredRetry(f, session, now, |history|, again);
  }

  lemma ContentKeepsContext(a: Event, b: Event)
    requires EquivalentRetry(a, b)
    ensures a.context == b.context && a.id == b.id
  {
    assert a.(sequence := 0, occurredAt := "").context == b.(sequence := 0, occurredAt := "").context;
    assert a.(sequence := 0, occurredAt := "").id == b.(sequence := 0, occurredAt := "").id;
  }

  /** A batch that reuses a stored ID for other content, or whose IDs are only partly stored, is never accepted. */
  lemma MixedBatchRefused(f: Files, session: string, history: seq<Record>, events: seq<Event>, i: nat, k: nat)
    requires DistinctIds(history) && i < |events| && k < |history| && history[k].event.id == events[i].id
    requires !EquivalentRetry(history[k].event, events[i]) || exists j :: 0 <= j < |events| && events[j].id !in RecordIds(history)
    ensures AcceptBatch(f, session, history, events).Err?
  {
    FindIdUnique(history, k);
    assert !NewIds(history, events);
    if AllKnown(history, events) {
      assert StoredRecords(history, events)[i] == history[k];
      forall j | 0 <= j < |events|
        ensures events[j].id in RecordIds(history)
      {
        FindIdExact(history, events[j].id);
        var n :| 0 <= n < |history| && history[n] == FindId(history, events[j].id).value;
        assert RecordIds(history)[n] == events[j].id;
      }
    }
  }

  /** No ID of the batch is stored exactly when the filter cannot have missed one. */
  lemma FilterSeesStoredIds(c: Codec, history: seq<Record>, events: seq<Event>)
    requires forall i :: 0 <= i < |events| ==> !MightContain(c, BloomOf(c, history), events[i].id)
    ensures NewIds(history, events)
  {
    forall k, i | 0 <= k < |history| && 0 <= i < |events|
      ensures history[k].event.id != events[i].id
    {
      NoFalseNegatives(c, history, k);
    }
  }
}
