/**
 * A codec and file formats that meet every assumption about JSON and SHA-256, so that no result about the journal holds
 * for want of them; and the inputs behind the findings about the journal.
 */
module JournalExample {
  import opened Prelude
  import opened Events
  import opened JournalCodec
  import opened JournalIndexing
  import opened JournalBatch
  import opened JournalRecovery
  import JournalSql
  import JournalStorage
  import opened Encoding

  // ----- events and records as fields -----

  function Kind(t: EventType): nat {
    match t
    case SessionStarted => 0 case TurnCompleted => 1 case SessionStopped => 2 case ToolRequested => 3
    case ToolCompleted => 4 case MutationObserved => 5 case DecisionRecorded => 6 case EvidenceRecorded => 7
    case AgentStarted => 8 case AgentStopped => 9 case ContextCompacting => 10 case ContextCompacted => 11
    case CaptureGap => 12 case OtherEvent(_) => 13
  }

  function TypeField(t: EventType): seq<nat> {
    [Kind(t)] + if t.OtherEvent? then Text(t.name) else []
  }

  lemma TypeInjective(a: EventType, b: EventType)
    requires TypeField(a) == TypeField(b)
    ensures a == b
  {
    assert TypeField(a)[0] == TypeField(b)[0];
    if a.OtherEvent? {
      assert Text(a.name) == TypeField(a)[1..] && Text(b.name) == TypeField(b)[1..];
      TextInjective(a.name, b.name);
    }
  }

  function GradeField(g: Option<CaptureGrade>): seq<nat> {
    match g
    case None => []
    case Some(GradeA) => [0] case Some(GradeB) => [1] case Some(GradeC) => [2] case Some(GradeD) => [3]
  }

  lemma GradeInjective(a: Option<CaptureGrade>, b: Option<CaptureGrade>)
    requires GradeField(a) == GradeField(b)
    ensures a == b
  {
    if a.Some? && b.Some? {
      assert GradeField(a)[0] == GradeField(b)[0];
    }
  }

  function EventFields(e: Event): (fs: Fields)
    ensures |fs| == 12
  {
    [[e.sequence], Text(e.id), TypeField(e.eventType), Text(e.occurredAt), Text(e.host), Text(e.actor),
     Text(e.context.session), Maybe(e.context.route), Maybe(e.context.branch), Maybe(e.context.head),
     GradeField(e.payload.grade), Text(e.payload.text)]
  }

  lemma EventInjective(a: Event, b: Event)
    requires EventFields(a) == EventFields(b)
    ensures a == b
  {
    var x, y := EventFields(a), EventFields(b);
    assert forall k :: 0 <= k < 12 ==> x[k] == y[k];
    assert x[0][0] == a.sequence && y[0][0] == b.sequence;
    TextInjective(a.id, b.id);
    TypeInjective(a.eventType, b.eventType);
    TextInjective(a.occurredAt, b.occurredAt);
    TextInjective(a.host, b.host);
    TextInjective(a.actor, b.actor);
    ContextInjective(a.context, b.context);
    GradeInjective(a.payload.grade, b.payload.grade);
    TextInjective(a.payload.text, b.payload.text);
  }

  lemma ContextInjective(a: Context, b: Context)
    requires Text(a.session) == Text(b.session) && Maybe(a.route) == Maybe(b.route)
    requires Maybe(a.branch) == Maybe(b.branch) && Maybe(a.head) == Maybe(b.head)
    ensures a == b
  {
    TextInjective(a.session, b.session);
    MaybeInjective(a.route, b.route);
    MaybeInjective(a.branch, b.branch);
    MaybeInjective(a.head, b.head);
  }

  function RecordFields(r: Record): (fs: Fields)
    ensures |fs| == 15
  {
    [[r.sequence]] + EventFields(r.event) + [Maybe(r.previous), Text(r.sha)]
  }

  lemma RecordInjective(a: Record, b: Record)
    requires RecordFields(a) == RecordFields(b)
    ensures a == b
  {
    var x, y := RecordFields(a), RecordFields(b);
    assert x[0] == [a.sequence] && y[0] == [b.sequence] && x[0][0] == y[0][0];
    assert EventFields(a.event) == x[1..13] && EventFields(b.event) == y[1..13];
    assert x[13] == Maybe(a.previous) && y[13] == Maybe(b.previous);
    assert x[14] == Text(a.sha) && y[14] == Text(b.sha);
    EventInjective(a.event, b.event);
    MaybeInjective(a.previous, b.previous);
    TextInjective(a.sha, b.sha);
  }

  function BatchFields(events: seq<Event>): Fields {
    if events == [] then [] else EventFields(events[0]) + BatchFields(events[1..])
  }

  lemma {:induction false} BatchInjective(a: seq<Event>, b: seq<Event>)
    requires BatchFields(a) == BatchFields(b)
    ensures a == b
  {
    if a != [] && b != [] {
      var x, y := BatchFields(a), BatchFields(b);
      assert EventFields(a[0]) == x[..12] && EventFields(b[0]) == y[..12];
      assert BatchFields(a[1..]) == x[12..] && BatchFields(b[1..]) == y[12..];
      EventInjective(a[0], b[0]);
      BatchInjective(a[1..], b[1..]);
      assert a == [a[0]] + a[1..] && b == [b[0]] + b[1..];
    }
  }

  // ----- the index as fields -----

  function Words(bloom: seq<bv64>): (f: seq<nat>)
    ensures |f| == |bloom|
  {
    seq(|bloom|, i requires 0 <= i < |bloom| => bloom[i] as nat)
  }

  lemma WordsInjective(a: seq<bv64>, b: seq<bv64>)
    requires Words(a) == Words(b)
    ensures a == b
  {
    forall i | 0 <= i < |a|
      ensures a[i] == b[i]
    {
      assert Words(a)[i] == Words(b)[i];
      assert (a[i] as nat) as bv64 == a[i];
    }
  }

  function IndexFields(index: IndexData): Fields {
    [[index.version, index.journalBytes, index.records], Words(index.bloom)]
    + if index.lastRecord.None? then [] else RecordFields(index.lastRecord.value)
  }

  lemma IndexInjective(a: IndexData, b: IndexData)
    requires IndexFields(a) == IndexFields(b)
    ensures a == b
  {
    var x, y := IndexFields(a), IndexFields(b);
    assert x[0] == [a.version, a.journalBytes, a.records] && y[0] == [b.version, b.journalBytes, b.records];
    assert x[0][0] == y[0][0] && x[0][1] == y[0][1] && x[0][2] == y[0][2];
    assert x[1] == Words(a.bloom) && y[1] == Words(b.bloom);
    WordsInjective(a.bloom, b.bloom);
    if a.lastRecord.Some? && b.lastRecord.Some? {
      assert RecordFields(a.lastRecord.value) == x[2..] && RecordFields(b.lastRecord.value) == y[2..];
      RecordInjective(a.lastRecord.value, b.lastRecord.value);
    }
  }

  // ----- the codec -----

  const HASH: string := "0000000000000000000000000000000000000000000000000000000000000000"

  function Encode(r: Record): Bytes { Join(RecordFields(r)) }

  function Envelope(e: Event): Bytes { Join(EventFields(e)) }

  ghost function Decode(b: Bytes): (o: Option<Record>)
    ensures forall r :: Encode(r) == b ==> o.Some? && Encode(o.value) == b
  {
    if exists r :: Encode(r) == b then
      var r :| Encode(r) == b;
      Some(r)
    else None
  }

  function EncodeIntent(events: seq<Event>): Bytes { Join(BatchFields(events)) }

  ghost function DecodeIntent(b: Bytes): (o: Option<seq<Event>>)
    ensures forall events :: EncodeIntent(events) == b ==> o.Some? && EncodeIntent(o.value) == b
  {
    if exists events :: EncodeIntent(events) == b then
      var events :| EncodeIntent(events) == b;
      Some(events)
    else None
  }

  function EncodeIndex(index: IndexData): Bytes { Join(IndexFields(index)) }

  ghost function DecodeIndex(b: Bytes): (o: Option<IndexData>)
    ensures forall index :: EncodeIndex(index) == b ==> o.Some? && EncodeIndex(o.value) == b
  {
    if exists index :: EncodeIndex(index) == b then
      var index :| EncodeIndex(index) == b;
      Some(index)
    else None
  }

  ghost function ExampleCodec(): Codec {
    Codec(Encode, Envelope, Decode, (n, e, p) => HASH, id => (0, 0, 0, 0))
  }

  ghost function ExampleFiles(): Files {
    Files(ExampleCodec(), EncodeIntent, DecodeIntent, EncodeIndex, DecodeIndex)
  }

  lemma EncodedReadsBack(r: Record)
    ensures Encode(r) != [] && NoNewline(Encode(r)) && Decode(Encode(r)) == Some(r)
  {
    PackHigh(Flat(RecordFields(r)));
    JoinLonger(RecordFields(r), 0);
    var found := Decode(Encode(r)).value;
    JoinInjective(RecordFields(r), RecordFields(found));
    RecordInjective(r, found);
  }

  lemma EncodedLength(r: Record)
    requires SmallFields(r)
    ensures |Encode(r)| <= |Envelope(r.event)| + 532
  {
    JoinConcat([[r.sequence]] + EventFields(r.event), [Maybe(r.previous), Text(r.sha)]);
    JoinConcat([[r.sequence]], EventFields(r.event));
    assert Power(3) == 2_048_383;
    JoinOne([r.sequence], 3);
    assert [Maybe(r.previous), Text(r.sha)] == [Maybe(r.previous)] + [Text(r.sha)];
    JoinConcat([Maybe(r.previous)], [Text(r.sha)]);
    TextLength(r.sha);
    if r.previous.Some? {
      TextLength(r.previous.value);
    } else {
      JoinOne([], 3);
    }
  }

  lemma IndexLength(index: IndexData)
    requires IndexShape(ExampleCodec(), index)
    ensures |EncodeIndex(index)| <= MAX_INDEX_BYTES
  {
    var head, last := [[index.version, index.journalBytes, index.records]], IndexFields(index)[2..];
    assert IndexFields(index) == head + ([Words(index.bloom)] + last);
    JoinConcat(head, [Words(index.bloom)] + last);
    JoinConcat([Words(index.bloom)], last);
    PowerOfTen();
    JoinOne(head[0], 10);
    JoinOne(Words(index.bloom), 10);
    assert |Join(last)| <= MAX_RECORD_BYTES by {
      if index.lastRecord.Some? {
        assert last == RecordFields(index.lastRecord.value);
      }
    }
  }

  lemma PowerOfTen()
    ensures Power(10) > 0x1_0000_0000_0000_0000
  {
    assert Power(5) == 127 * 127 * 127 * 127 * 127;
    assert Power(10) == 127 * 127 * 127 * 127 * 127 * Power(5);
  }

  lemma IntentReadsBack(events: seq<Event>)
    ensures DecodeIntent(EncodeIntent(events)) == Some(events)
  {
    var found := DecodeIntent(EncodeIntent(events)).value;
    JoinInjective(BatchFields(events), BatchFields(found));
    BatchInjective(events, found);
  }

  lemma IndexReadsBack(index: IndexData)
    ensures DecodeIndex(EncodeIndex(index)) == Some(index)
  {
    var found := DecodeIndex(EncodeIndex(index)).value;
    JoinInjective(IndexFields(index), IndexFields(found));
    IndexInjective(index, found);
  }

  lemma LawfulCodecExists()
    ensures ExampleCodec().Lawful() && JournalSql.IdInsideRecord(ExampleCodec())
  {
    forall r: Record
      ensures Encode(r) != [] && NoNewline(Encode(r)) && Decode(Encode(r)) == Some(r)
      ensures SmallFields(r) ==> |Encode(r)| <= |Envelope(r.event)| + RECORD_FIELDS
      ensures |r.event.id| <= |Encode(r)|
    {
      EncodedReadsBack(r);
      if SmallFields(r) {
        EncodedLength(r);
      }
      JoinLonger(RecordFields(r), 2);
      assert RecordFields(r)[2] == EventFields(r.event)[1];
    }
  }

  /** Nothing that is assumed of the files is contradictory. */
  lemma LawfulFilesExist()
    ensures ExampleFiles().Lawful()
  {
    LawfulCodecExists();
    forall events
      ensures DecodeIntent(EncodeIntent(events)) == Some(events)
    {
      IntentReadsBack(events);
    }
    forall index
      ensures DecodeIndex(EncodeIndex(index)) == Some(index)
      ensures IndexShape(ExampleCodec(), index) ==> |EncodeIndex(index)| <= MAX_INDEX_BYTES
    {
      IndexReadsBack(index);
      if IndexShape(ExampleCodec(), index) {
        IndexLength(index);
      }
    }
  }

  // ----- a session as full as it may be -----

  /** Event number `n`, with an ID of one character. */
  function Sample(n: nat): Event
    requires n <= MAX_SESSION_RECORDS
  {
    Event([(0xE000 + n) as char], TurnCompleted, n, "", "", "", Context("s", None, None, None), Payload(None, ""))
  }

  function Samples(n: nat): (events: seq<Event>)
    requires n <= MAX_SESSION_RECORDS
    ensures |events| == n
  {
    seq(n, i requires 0 <= i < n => Sample(i + 1))
  }

  ghost function SampleHistory(n: nat): (rs: seq<Record>)
    requires n <= MAX_SESSION_RECORDS
    ensures |rs| == n
  {
    Link(ExampleCodec(), None, Samples(n))
  }

  predicate ShortEvent(e: Event) {
    && e.sequence <= MAX_SESSION_RECORDS && |e.id| == 1 && e.eventType == TurnCompleted
    && e.occurredAt == e.host == e.actor == ""
    && e.context == Context("s", None, None, None) && e.payload == Payload(None, "")
  }

  lemma ShortLength(e: Event)
    requires ShortEvent(e)
    ensures |Envelope(e)| <= 96
  {
    assert Power(3) == 2_048_383;
    var fs := EventFields(e);
    assert fs[2] == [1] && fs[10] == [];
    JoinShort(fs);
  }

  /** Every record of a linked history of short events is small. */
  lemma ShortRecord(rs: seq<Record>, i: nat)
    requires Linked(ExampleCodec(), rs) && i < |rs| <= MAX_SESSION_RECORDS && ShortEvent(rs[i].event)
    ensures |Encode(rs[i])| < 629 && ExampleCodec().Fits(rs[i].event)
  {
    assert LinkedAt(ExampleCodec(), rs, i) && (i > 0 ==> LinkedAt(ExampleCodec(), rs, i - 1));
    assert |HASH| == HASH_LENGTH;
    ShortLength(rs[i].event);
    EncodedLength(rs[i]);
  }

  lemma {:induction false} LengthOfAll(c: Codec, rs: seq<Record>, most: nat)
    requires forall i :: 0 <= i < |rs| ==> |c.encode(rs[i])| < most
    ensures |EncodeAll(c, rs)| <= most * |rs|
  {
    if rs != [] {
      LengthOfAll(c, rs[1..], most);
    }
  }

  /** A session journal may hold any number of records up to its limit. */
  lemma SampleIsHistory(n: nat)
    requires n <= MAX_SESSION_RECORDS
    ensures History(ExampleCodec(), "s", SampleHistory(n))
  {
    var c, rs := ExampleCodec(), SampleHistory(n);
    SampleIsChain(n);
    forall i | 0 <= i < n
      ensures |c.encode(rs[i])| < 629 && c.Fits(rs[i].event) && rs[i].event.context.session == "s"
    {
      LinkEvents(c, None, Samples(n), i);
      ShortRecord(rs, i);
    }
    LengthOfAll(c, rs, 629);
  }

  lemma SampleIsChain(n: nat)
    requires n <= MAX_SESSION_RECORDS
    ensures Chain(ExampleCodec(), SampleHistory(n))
  {
    var c, rs := ExampleCodec(), SampleHistory(n);
    LinkExtends(c, [], Samples(n));
    assert [] + rs == rs;
    forall i, j | 0 <= i < j < n
      ensures Samples(n)[i].id != Samples(n)[j].id
    {
      assert Samples(n)[i].id[0] == (0xE001 + i) as char && Samples(n)[j].id[0] == (0xE001 + j) as char;
    }
    LinkKeepsIdsDistinct(c, [], None, Samples(n));
  }

  // ----- the inputs behind the findings -----

  /** A batch of two events with one new ID: the short form takes it, the full form does not. */
  lemma RepeatedIdAccepted(c: Codec)
    ensures var batch := [Sample(1), Sample(1).(sequence := 2)];
            && Contiguous(0, batch) && NewIds([], batch)
            && PrepareFromTail(c, 0, None, batch) == Ok(Link(c, None, batch))
            && PrepareChecked(c, [], batch) == Err(DuplicateEventId(Sample(1).id))
  {
    var first, second := Sample(1), Sample(1).(sequence := 2);
    var batch := [first, second];
    PrepareFromTailExact(c, 0, None, batch);
    assert batch[0] == first && batch[1..] == [second];
    var r := NewRecord(c, first, None);
    assert RecordIds([] + [r]) == [first.id];
    assert PrepareChecked(c, [] + [r], [second]) == Err(DuplicateEventId(second.id));
  }

  /** And what it leaves behind cannot be read again. */
  lemma RepeatedIdIsFatal()
    ensures ExampleCodec().Lawful()
    ensures var batch := [Sample(1), Sample(1).(sequence := 2)];
            Replay(ExampleCodec(), "s", EncodeAll(ExampleCodec(), Link(ExampleCodec(), None, batch))).Err?
  {
    LawfulCodecExists();
    RepeatedRecords();
    RepeatedIsUnreadable(ExampleCodec(), Sample(1), Sample(1).(sequence := 2));
  }

  lemma RepeatedIsUnreadable(c: Codec, first: Event, second: Event)
    requires c.Lawful() && first.sequence == 1 && second.sequence == 2 && first.id == second.id
    requires Sized(c, Link(c, None, [first, second]))
    ensures Replay(c, "s", EncodeAll(c, Link(c, None, [first, second]))).Err?
  {
    var batch := [first, second];
    var rs := Link(c, None, batch);
    assert batch[0].id == batch[1].id;
    LinkKeepsIdsDistinct(c, [], None, batch);
    assert [] + rs == rs;
    var replayed := Replay(c, "s", EncodeAll(c, rs));
    if replayed.Ok? {
      ReplayExact(c, "s", EncodeAll(c, rs), replayed.value);
      LinesDetermineRecords(c, replayed.value, rs);
    }
  }

  lemma RepeatedRecords()
    ensures Sized(ExampleCodec(), Link(ExampleCodec(), None, [Sample(1), Sample(1).(sequence := 2)]))
  {
    var c, batch := ExampleCodec(), [Sample(1), Sample(1).(sequence := 2)];
    var rs := Link(c, None, batch);
    LinkExtends(c, [], batch);
    assert [] + rs == rs;
    forall i | 0 <= i < |rs|
      ensures |c.encode(rs[i])| <= MAX_RECORD_BYTES && c.Fits(rs[i].event)
    {
      LinkEvents(c, None, batch, i);
      ShortRecord(rs, i);
    }
  }

  /**
   * In a full session the delivery of a stored event is refused for want of room; with one record fewer it is
   * answered with what is stored.
   */
  lemma FullSessionRefusesRetry()
    ensures var f := ExampleFiles();
            && History(f.codec, "s", SampleHistory(MAX_SESSION_RECORDS))
            && SampleHistory(MAX_SESSION_RECORDS)[0].event == Sample(1)
            && AcceptBatch(f, "s", SampleHistory(MAX_SESSION_RECORDS), [Sample(1)]) == Err(TooManyRecords)
            && AcceptBatch(f, "s", SampleHistory(MAX_SESSION_RECORDS - 1), [Sample(1)])
               == Ok(Stored([SampleHistory(MAX_SESSION_RECORDS - 1)[0]]))
  {
    SampleIsHistory(MAX_SESSION_RECORDS);
    SampleIsHistory(MAX_SESSION_RECORDS - 1);
    FirstIsKnown(MAX_SESSION_RECORDS);
    FirstIsKnown(MAX_SESSION_RECORDS - 1);
  }

  lemma FirstIsKnown(n: nat)
    requires 0 < n <= MAX_SESSION_RECORDS
    ensures SampleHistory(n)[0].event == Sample(1)
    ensures AcceptBatch(ExampleFiles(), "s", SampleHistory(n), [Sample(1)]) ==
            if n + 1 <= MAX_SESSION_RECORDS then Ok(Stored([SampleHistory(n)[0]])) else Err(TooManyRecords)
  {
    var rs, batch := SampleHistory(n), [Sample(1)];
    SampleIsChain(n);
    LinkEvents(ExampleCodec(), None, Samples(n), 0);
    FindIdUnique(rs, 0);
    FirstIsStored(rs, batch);
    JournalStorage.KnownStaysKnown(ExampleFiles(), "s", rs, batch, rs, batch);
  }

  lemma {:induction false} FirstIsStored(rs: seq<Record>, batch: seq<Event>)
    requires rs != [] && |batch| == 1 && FindId(rs, batch[0].id) == Some(rs[0]) && rs[0].event == batch[0]
    ensures AllKnown(rs, batch) && StoredRecords(rs, batch) == [rs[0]] && SameContent([rs[0]], batch)
  {
  }
}
