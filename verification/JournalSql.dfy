/** The two readers of a session kept in SQL rows: the full one and the streaming one (src/journal.rs, src/journal/summary_batch.rs). */
module JournalSql {
  import opened Prelude
  import opened Events
  import opened JournalCodec
  import opened JournalIndexing
  import opened JournalBatch

  /** A row of `journal_records`; `BrokenRow` is one whose columns cannot be read at all. */
  datatype SqlRow =
    | SqlRow(sequence: int, eventId: string, json: Bytes, size: int)
    | BrokenRow

  datatype Head = Head(count: int, lastSha: Option<string>, byteLength: int)

  /** A registration is valid when its worktree, incarnation, origin and repository identity agree. */
  datatype Registration = Unregistered | Registered | Contradictory

  /** One session as SQL shows it: its registration, its rows in sequence order, and its accepted extent. */
  datatype Session = Session(id: string, normalName: bool, registration: Registration, rows: seq<SqlRow>, head: Option<Head>)

  datatype Summary = Summary(records: nat, lastSequence: Option<nat>, lastSha: Option<string>, registered: bool)

  /** An event ID is part of the canonical JSON of its record, so it is never longer. */
  ghost predicate IdInsideRecord(c: Codec) {
    forall r: Record :: |r.event.id| <= |c.encode(r)|
  }

  // ----- what a well-kept session is -----

  ghost predicate RowOf(c: Codec, id: string, row: SqlRow, r: Record) {
    && row == SqlRow(r.sequence, r.event.id, c.encode(r), |c.encode(r)|)
    && |c.encode(r)| <= MAX_RECORD_BYTES
    && c.Fits(r.event)
    && r.event.context.session == id
    && r.sha == c.digest(r.sequence, r.event, r.previous)
  }

  ghost predicate RowsOf(c: Codec, id: string, rows: seq<SqlRow>, rs: seq<Record>) {
    |rows| == |rs| && forall i :: 0 <= i < |rows| ==> RowOf(c, id, rows[i], rs[i])
  }

  /** `sql_session_exists`: without a registration there may be neither rows nor an extent. */
  function SessionExists(s: Session): Result<bool, Error> {
    match s.registration
    case Registered => Ok(true)
    case Contradictory => Err(InvalidRegistration)
    case Unregistered => if s.rows != [] || s.head.Some? then Err(UnregisteredRecords) else Ok(false)
  }

  ghost predicate ExtentOf(c: Codec, s: Session, rs: seq<Record>) {
    s.registration.Registered? ==> s.head == Some(Head(|rs|, LastSha(rs), |EncodeAll(c, rs)|))
  }

  /**
   * The rows are one valid history of the session, row by row, and the saved extent agrees; and only a registered
   * session has rows at all.
   */
  ghost predicate Keeps(c: Codec, s: Session, rs: seq<Record>) {
    && s.normalName && SessionExists(s).Ok?
    && RowsOf(c, s.id, s.rows, rs) && History(c, s.id, rs) && ExtentOf(c, s, rs)
  }

  // ----- the full reader -----

  function ReadRow(c: Codec, id: string, row: SqlRow): Result<Record, Error> {
    if row.BrokenRow? || |row.json| > MAX_RECORD_BYTES then Err(SqlError)
    else if |row.json| != row.size then Err(RowSize)
    else match ParseRecord(c, row.json)
      case Err(e) => Err(e)
      case Ok(r) =>
        if r.sequence != row.sequence || r.event.id != row.eventId || r.event.context.session != id then Err(RowIdentity)
        else Ok(r)
  }

  lemma ReadRowExact(c: Codec, id: string, row: SqlRow, r: Record)
    requires c.Lawful()
    ensures ReadRow(c, id, row) == Ok(r) <==> RowOf(c, id, row, r)
  {
    assert c.decode(c.encode(r)) == Some(r);
  }

  function ParseFrozenJournal(c: Codec, id: string, normalName: bool, bytes: Bytes): Result<seq<Record>, Error> {
    if !normalName || |bytes| > MAX_JOURNAL_BYTES then Err(BadSessionName)
    else match Parse(c, bytes)
      case Err(e) => Err(e)
      case Ok((records, complete)) =>
        if complete != |bytes| || |records| > MAX_SESSION_RECORDS then Err(MissingNewline)
        else if exists r :: r in records && r.event.context.session != id then Err(SessionMismatch)
        else Ok(records)
  }

  lemma ParseFrozenExact(c: Codec, id: string, normalName: bool, bytes: Bytes, rs: seq<Record>)
    requires c.Lawful()
    ensures ParseFrozenJournal(c, id, normalName, bytes) == Ok(rs) <==>
            normalName && History(c, id, rs) && bytes == EncodeAll(c, rs)
  {
    ReplayExact(c, id, bytes, rs);
  }

  predicate ExtentMatches(s: Session, count: int, lastSha: Option<string>, bytes: int) {
    s.registration.Registered? ==> s.head == Some(Head(count, lastSha, bytes))
  }

  /** `sql_records`: rows one by one, then the strict parser over all of them together. */
  method SqlRecords(c: Codec, s: Session) returns (r: Result<seq<Record>, Error>)
    requires c.Lawful()
    ensures r.Ok? ==> Keeps(c, s, r.value)
    ensures r.Err? ==> forall rs :: !Keeps(c, s, rs)
  {
    var known := SessionExists(s);
    if known.Err? {
      return Err(known.error);
    }
    var bytes: Bytes := [];
    ghost var seen: seq<Record> := [];
    for i := 0 to |s.rows|
      invariant RowsOf(c, s.id, s.rows[..i], seen) && bytes == EncodeAll(c, seen)
    {
      var row := ReadRow(c, s.id, s.rows[i]);
      RowMustRead(c, s, i);
      if row.Err? {
        return Err(row.error);
      }
      ReadRowExact(c, s.id, s.rows[i], row.value);
      RowsOfSnoc(c, s.id, s.rows, i, seen, row.value);
      EncodeAllSnoc(c, seen, row.value);
      bytes := bytes + s.rows[i].json;
      bytes := bytes + [NEWLINE];
      seen := seen + [row.value];
      KeptPrefix(c, s, i + 1, seen);
      if |bytes| > MAX_JOURNAL_BYTES || i + 1 > MAX_SESSION_RECORDS {
        return Err(JournalTooLarge);
      }
    }
    assert s.rows[..|s.rows|] == s.rows;
    r := FinishRecords(c, s, bytes, seen);
  }

  method FinishRecords(c: Codec, s: Session, bytes: Bytes, ghost seen: seq<Record>) returns (r: Result<seq<Record>, Error>)
    requires c.Lawful() && SessionExists(s).Ok? && RowsOf(c, s.id, s.rows, seen) && bytes == EncodeAll(c, seen)
    ensures r.Ok? ==> Keeps(c, s, r.value)
    ensures r.Err? ==> forall rs :: !Keeps(c, s, rs)
  {
    var parsed := ParseFrozenJournal(c, s.id, s.normalName, bytes);
    ParseFrozenExact(c, s.id, s.normalName, bytes, seen);
    KeptIsSeen(c, s, seen);
    if parsed.Err? {
      return Err(parsed.error);
    }
    ParseFrozenExact(c, s.id, s.normalName, bytes, parsed.value);
    LinesDetermineRecords(c, parsed.value, seen);
    var records := parsed.value;
    if !ExtentMatches(s, |records|, LastSha(records), |bytes|) {
      return Err(ExtentMismatch);
    }
    return Ok(records);
  }

  // ----- the streaming reader -----

  /** The first rows of a batch: as many as the row and byte limits admit, up to a row that cannot be read. */
  method NextBatch(rows: seq<SqlRow>, rowLimit: nat, byteLimit: nat) returns (n: nat, broken: bool)
    requires rowLimit > 0 && byteLimit > 0
    ensures n <= |rows| && (n == 0 && !broken ==> rows == [])
    ensures broken ==> n < |rows| && Unreadable(rows[n])
    ensures forall i :: 0 <= i < n ==> !Unreadable(rows[i])
  {
    n, broken := 0, false;
    var bytes := 0;
    while n < rowLimit && bytes < byteLimit && n < |rows| && !broken
      invariant n <= |rows| && (n == 0 && !broken ==> bytes == 0)
      invariant broken ==> n < |rows| && Unreadable(rows[n])
      invariant forall i :: 0 <= i < n ==> !Unreadable(rows[i])
      decreases |rows| - n, !broken
    {
      if Unreadable(rows[n]) {
        broken := true;
      } else {
        bytes := bytes + |rows[n].eventId| + |rows[n].json|;
        n := n + 1;
      }
    }
  }

  predicate Unreadable(row: SqlRow) {
    row.BrokenRow? || |row.json| > MAX_RECORD_BYTES || |row.eventId| > MAX_RECORD_BYTES
  }

  /** What the streaming reader remembers between rows. */
  datatype Progress = Progress(count: nat, bytes: nat, previous: Option<string>, ids: set<string>)

  ghost predicate Tracks(c: Codec, id: string, p: Progress, seen: seq<Record>) {
    && Chain(c, seen)
    && p.count == |seen| && p.bytes == |EncodeAll(c, seen)| && p.previous == LastSha(seen)
    && (forall x :: x in p.ids <==> x in RecordIds(seen))
    && p.bytes <= MAX_JOURNAL_BYTES && p.count <= MAX_SESSION_RECORDS
  }

  function Advance(c: Codec, id: string, p: Progress, row: SqlRow): Result<Progress, Error>
    requires !Unreadable(row)
  {
    if |row.json| != row.size then Err(RowSize)
    else if p.bytes + |row.json| + 1 > MAX_JOURNAL_BYTES || p.count + 1 > MAX_SESSION_RECORDS then Err(JournalTooLarge)
    else match ParseRecord(c, row.json)
      case Err(e) => Err(e)
      case Ok(r) =>
        if r.sequence != row.sequence || r.event.id != row.eventId || r.event.context.session != id then Err(RowIdentity)
        else if r.sequence < p.count + 1 then Err(DuplicateSequence(r.sequence))
        else if r.sequence != p.count + 1 then Err(UnexpectedSequence(r.sequence))
        else if r.event.sequence != r.sequence then Err(EventSequenceMismatch)
        else if r.event.id in p.ids then Err(DuplicateEventId(r.event.id))
        else if r.previous != p.previous then Err(LinkMismatch)
        else Ok(Progress(p.count + 1, p.bytes + |row.json| + 1, Some(r.sha), p.ids + {r.event.id}))
  }

  /** One streamed row succeeds exactly when it is the row of a record that extends the history within the limits. */
  lemma AdvanceExact(c: Codec, id: string, p: Progress, row: SqlRow, seen: seq<Record>) returns (r: Record)
    requires c.Lawful() && Tracks(c, id, p, seen) && !Unreadable(row)
    ensures Advance(c, id, p, row).Ok? ==>
              RowOf(c, id, row, r) && Tracks(c, id, Advance(c, id, p, row).value, seen + [r])
    ensures Advance(c, id, p, row).Err? ==>
              forall x :: !(RowOf(c, id, row, x) && Chain(c, seen + [x])
                            && |EncodeAll(c, seen + [x])| <= MAX_JOURNAL_BYTES && |seen| < MAX_SESSION_RECORDS)
  {
    var parsed := ParseRecord(c, row.json);
    r := if parsed.Ok? then parsed.value else Record(0, Event("", CaptureGap, 0, "", "", "", Context("", None, None, None), Payload(None, "")), None, "");
    if Advance(c, id, p, row).Ok? {
      ReadRowExact(c, id, row, r);
      LinkedSnoc(c, seen, r);
      DistinctIdsSnoc(seen, r);
      EncodeAllSnoc(c, seen, r);
      RecordIdsSnoc(seen, r);
    } else {
      forall x | RowOf(c, id, row, x) && Chain(c, seen + [x])
        ensures |EncodeAll(c, seen + [x])| > MAX_JOURNAL_BYTES || |seen| >= MAX_SESSION_RECORDS
      {
        ReadRowExact(c, id, row, x);
        LinkedSnoc(c, seen, x);
        DistinctIdsSnoc(seen, x);
        EncodeAllSnoc(c, seen, x);
      }
    }
  }

  /**
   * `sql_summary`: succeeds exactly when the full reader does, with that history's count and last hash,
   * whatever the batch limits.
   */
  method SqlSummary(c: Codec, s: Session, rowLimit: nat, byteLimit: nat) returns (r: Result<Summary, Error>)
    requires c.Lawful() && IdInsideRecord(c) && rowLimit > 0 && byteLimit > 0
    ensures r.Ok? ==> exists rs :: Keeps(c, s, rs) && r.value == SummaryOf(rs, s.registration.Registered?)
    ensures r.Err? ==> forall rs :: !Keeps(c, s, rs)
  {
    if !s.normalName {
      return Err(BadSessionName);
    }
    var known := SessionExists(s);
    if known.Err? {
      return Err(known.error);
    }
    var at := 0;
    var p := Progress(0, 0, None, {});
    ghost var seen: seq<Record> := [];
    while true
      invariant at <= |s.rows| && RowsOf(c, s.id, s.rows[..at], seen) && Tracks(c, s.id, p, seen)
      decreases |s.rows| - at
    {
      var n, broken := NextBatch(s.rows[at..], rowLimit, byteLimit);
      var end := at + n;
      var batch: Result<Progress, Error>;
      batch, seen := StreamBatch(c, s, at, end, p, seen);
      if batch.Err? {
        return Err(batch.error);
      }
      p := batch.value;
      if broken {
        BrokenRowRefused(c, s, end);
        return Err(SqlError);
      }
      if n == 0 {
        break;
      }
      at := end;
    }
    assert s.rows[..at] == s.rows;
    KeptIsSeen(c, s, seen);
    if !ExtentMatches(s, p.count, p.previous, p.bytes) {
      return Err(ExtentMismatch);
    }
    SeenIsHistory(c, s, p, seen);
    assert Keeps(c, s, seen);
    return Ok(Summary(p.count, if p.count > 0 then Some(p.count) else None, p.previous, known.value));
  }

  function SummaryOf(rs: seq<Record>, registered: bool): Summary {
    Summary(|rs|, if rs == [] then None else Some(|rs|), LastSha(rs), registered)
  }

  method StreamBatch(c: Codec, s: Session, start: nat, end: nat, before: Progress, ghost seenBefore: seq<Record>)
    returns (r: Result<Progress, Error>, ghost seen: seq<Record>)
    requires c.Lawful() && start <= end <= |s.rows|
    requires forall i :: start <= i < end ==> !Unreadable(s.rows[i])
    requires RowsOf(c, s.id, s.rows[..start], seenBefore) && Tracks(c, s.id, before, seenBefore)
    ensures r.Ok? ==> RowsOf(c, s.id, s.rows[..end], seen) && Tracks(c, s.id, r.value, seen)
    ensures r.Err? ==> forall rs :: !Keeps(c, s, rs)
  {
    var p := before;
    seen := seenBefore;
    for i := start to end
      invariant RowsOf(c, s.id, s.rows[..i], seen) && Tracks(c, s.id, p, seen)
    {
      var next := Advance(c, s.id, p, s.rows[i]);
      ghost var record := AdvanceExact(c, s.id, p, s.rows[i], seen);
      if next.Err? {
        RefusedRow(c, s, i, seen);
        return Err(next.error), seen;
      }
      RowsOfSnoc(c, s.id, s.rows, i, seen, record);
      seen := seen + [record];
      p := next.value;
    }
    r := Ok(p);
  }

  // ----- rows against histories -----

  lemma RowsOfSnoc(c: Codec, id: string, rows: seq<SqlRow>, i: nat, seen: seq<Record>, r: Record)
    requires i < |rows| && RowsOf(c, id, rows[..i], seen) && RowOf(c, id, rows[i], r)
    ensures RowsOf(c, id, rows[..i + 1], seen + [r])
  {
    forall k | 0 <= k < i + 1
      ensures RowOf(c, id, rows[..i + 1][k], (seen + [r])[k])
    {
      assert k < i ==> rows[..i][k] == rows[k] && RowOf(c, id, rows[..i][k], seen[k]);
    }
  }

  /** A row determines its record, so any kept history starts with the records already read. */
  lemma KeptPrefix(c: Codec, s: Session, n: nat, seen: seq<Record>)
    requires c.Lawful() && n <= |s.rows| && RowsOf(c, s.id, s.rows[..n], seen)
    ensures forall rs :: Keeps(c, s, rs) ==> seen <= rs && |EncodeAll(c, seen)| <= MAX_JOURNAL_BYTES && |seen| <= MAX_SESSION_RECORDS
  {
    forall rs: seq<Record> | Keeps(c, s, rs)
      ensures seen <= rs && |EncodeAll(c, seen)| <= MAX_JOURNAL_BYTES && |seen| <= MAX_SESSION_RECORDS
    {
      forall k | 0 <= k < n
        ensures seen[k] == rs[k]
      {
        assert s.rows[..n][k] == s.rows[k];
        assert RowOf(c, s.id, s.rows[k], seen[k]) && RowOf(c, s.id, s.rows[k], rs[k]);
        assert c.decode(c.encode(seen[k])) == Some(seen[k]) && c.decode(c.encode(rs[k])) == Some(rs[k]);
      }
      assert rs == seen + rs[n..];
      EncodeAllConcat(c, seen, rs[n..]);
    }
  }

  lemma KeptIsSeen(c: Codec, s: Session, seen: seq<Record>)
    requires c.Lawful() && RowsOf(c, s.id, s.rows, seen)
    ensures forall rs :: Keeps(c, s, rs) ==> rs == seen
  {
    assert s.rows[..|s.rows|] == s.rows;
    KeptPrefix(c, s, |s.rows|, seen);
  }

  lemma RowMustRead(c: Codec, s: Session, i: nat)
    requires c.Lawful() && i < |s.rows|
    ensures ReadRow(c, s.id, s.rows[i]).Err? ==> forall rs :: !Keeps(c, s, rs)
  {
    forall rs: seq<Record> | Keeps(c, s, rs)
      ensures ReadRow(c, s.id, s.rows[i]).Ok?
    {
      assert RowOf(c, s.id, s.rows[i], rs[i]);
      ReadRowExact(c, s.id, s.rows[i], rs[i]);
    }
  }

  lemma KeptRowReadable(c: Codec, s: Session, rs: seq<Record>, i: nat)
    requires IdInsideRecord(c) && Keeps(c, s, rs) && i < |s.rows|
    ensures !Unreadable(s.rows[i])
  {
    var kept: Record := rs[i];
    assert RowOf(c, s.id, s.rows[i], kept);
    assert |kept.event.id| <= |c.encode(kept)|;
  }

  lemma BrokenRowRefused(c: Codec, s: Session, i: nat)
    requires IdInsideRecord(c) && i < |s.rows| && Unreadable(s.rows[i])
    ensures forall rs: seq<Record> :: !Keeps(c, s, rs)
  {
    if rs: seq<Record> :| Keeps(c, s, rs) {
      KeptRowReadable(c, s, rs, i);
    }
  }

  lemma RefusedRow(c: Codec, s: Session, i: nat, seen: seq<Record>)
    requires c.Lawful() && i < |s.rows| && RowsOf(c, s.id, s.rows[..i], seen)
    requires forall x :: !(RowOf(c, s.id, s.rows[i], x) && Chain(c, seen + [x])
                           && |EncodeAll(c, seen + [x])| <= MAX_JOURNAL_BYTES && |seen| < MAX_SESSION_RECORDS)
    ensures forall rs: seq<Record> :: !Keeps(c, s, rs)
  {
    KeptPrefix(c, s, i, seen);
    forall rs: seq<Record> | Keeps(c, s, rs)
      ensures false
    {
      var x := rs[i];
      assert RowOf(c, s.id, s.rows[i], x);
      assert rs[..i + 1] == seen + [x] && rs == (seen + [x]) + rs[i + 1..];
      ChainPrefix(c, rs, i + 1);
      EncodeAllConcat(c, seen + [x], rs[i + 1..]);
    }
  }

  lemma SeenIsHistory(c: Codec, s: Session, p: Progress, seen: seq<Record>)
    requires RowsOf(c, s.id, s.rows, seen) && Tracks(c, s.id, p, seen)
    ensures History(c, s.id, seen)
  {
    forall i | 0 <= i < |seen|
      ensures |c.encode(seen[i])| <= MAX_RECORD_BYTES && c.Fits(seen[i].event) && seen[i].event.context.session == s.id
    {
      assert RowOf(c, s.id, s.rows[i], seen[i]);
    }
  }
}
