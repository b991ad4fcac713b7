/** The bytes of one session journal: encoding, strict parsing and the bounded tail read (src/journal.rs). */
module JournalCodec {
  import opened Prelude
  import opened Events

  const NEWLINE: byte := 10
  const MAX_JOURNAL_BYTES: nat := 64 * 1024 * 1024
  const MAX_SESSION_RECORDS: nat := 100_000
  const MAX_EVENT_BYTES: nat := 64 * 1024
  const MAX_RECORD_BYTES: nat := MAX_EVENT_BYTES + 16 * 1024
  const HASH_LENGTH: nat := 64
  const RECORD_FIELDS: nat := 1024  // more than a record adds to its event: two hashes, a number, four names

  datatype Error =
    | MalformedJson | NotCanonical | HashMismatch | EmptyRecord
    | DuplicateSequence(sequence: nat) | UnexpectedSequence(sequence: nat) | EventSequenceMismatch
    | DuplicateEventId(id: string) | LinkMismatch
    | MissingNewline | SessionMismatch
    | RecordTooLarge | JournalTooLarge | TooManyRecords | IntentTooLarge | IndexTooLarge
    | EmptyBatch | ReusedId | PartialRetry
    | BadIntent | IntentBoundary | IntentContent | TornTail
    | BadIndex | TailLength | StaleTemporary
    | RowSize | RowIdentity | ExtentMismatch | BadSessionName | SqlError
    | InvalidRegistration | UnregisteredRecords

  /**
   * What the journal takes from JSON and SHA-256. `encode` is canonical JSON, `decode` is the JSON
   * parser, `envelope` is the JSON of an event by itself, `digest` hashes the canonical JSON of a record
   * without its own hash, and `idWords` are the first four 32-bit words of the hash of an event ID.
   */
  datatype Codec = Codec(
    encode: Record -> Bytes,
    envelope: Event -> Bytes,
    decode: Bytes -> Option<Record>,
    digest: (nat, Event, Option<string>) -> string,
    idWords: string -> (nat, nat, nat, nat))
  {
    ghost predicate Lawful() {
      && (forall r :: encode(r) != [] && NoNewline(encode(r)) && decode(encode(r)) == Some(r))
      && (forall n, e, p :: |digest(n, e, p)| == HASH_LENGTH)
      && (forall r :: SmallFields(r) ==> |encode(r)| <= |envelope(r.event)| + RECORD_FIELDS)
    }

    /** The limit every event envelope meets, whether it was built or read. */
    predicate Fits(e: Event) {
      |envelope(e)| <= MAX_EVENT_BYTES
    }

    predicate AllFit(events: seq<Event>) {
      forall e :: e in events ==> Fits(e)
    }
  }

  /** A number and hashes as a stored record has them. */
  predicate SmallFields(r: Record) {
    && r.sequence <= MAX_SESSION_RECORDS && |r.sha| == HASH_LENGTH
    && (r.previous.Some? ==> |r.previous.value| == HASH_LENGTH)
  }

  function NewRecord(c: Codec, event: Event, previous: Option<string>): Record {
    Record(event.sequence, event, previous, c.digest(event.sequence, event, previous))
  }

  function LastSha(records: seq<Record>): Option<string> {
    if records == [] then None else Some(records[|records| - 1].sha)
  }

  // ----- what a stored history is -----

  ghost predicate LinkedAt(c: Codec, rs: seq<Record>, i: nat)
    requires i < |rs|
  {
    && rs[i].sequence == rs[i].event.sequence == i + 1
    && rs[i].previous == (if i == 0 then None else Some(rs[i - 1].sha))
    && rs[i].sha == c.digest(rs[i].sequence, rs[i].event, rs[i].previous)
  }

  ghost predicate Linked(c: Codec, rs: seq<Record>) {
    forall i :: 0 <= i < |rs| ==> LinkedAt(c, rs, i)
  }

  ghost predicate DistinctIds(rs: seq<Record>) {
    forall i, j :: 0 <= i < j < |rs| ==> rs[i].event.id != rs[j].event.id
  }

  ghost predicate Chain(c: Codec, rs: seq<Record>) {
    Linked(c, rs) && DistinctIds(rs)
  }

  predicate Sized(c: Codec, rs: seq<Record>) {
    forall i :: 0 <= i < |rs| ==> |c.encode(rs[i])| <= MAX_RECORD_BYTES && c.Fits(rs[i].event)
  }

  // ----- encoding -----

  function EncodeAll(c: Codec, rs: seq<Record>): Bytes {
    if rs == [] then [] else c.encode(rs[0]) + [NEWLINE] + EncodeAll(c, rs[1..])
  }

  lemma {:induction false} EncodeAllConcat(c: Codec, a: seq<Record>, b: seq<Record>)
    ensures EncodeAll(c, a + b) == EncodeAll(c, a) + EncodeAll(c, b)
  {
    if a == [] {
      assert a + b == b;
    } else {
      assert (a + b)[1..] == a[1..] + b;
      EncodeAllConcat(c, a[1..], b);
    }
  }

  lemma EncodeAllCons(c: Codec, r: Record, rest: seq<Record>)
    ensures EncodeAll(c, [r] + rest) == c.encode(r) + [NEWLINE] + EncodeAll(c, rest)
    ensures Sized(c, [r] + rest) <==> |c.encode(r)| <= MAX_RECORD_BYTES && c.Fits(r.event) && Sized(c, rest)
  {
    var all := [r] + rest;
    assert all[0] == r && all[1..] == rest;
    assert forall i :: 0 <= i < |rest| ==> all[i + 1] == rest[i];
  }

  lemma EncodeAllSnoc(c: Codec, a: seq<Record>, r: Record)
    ensures EncodeAll(c, a + [r]) == EncodeAll(c, a) + c.encode(r) + [NEWLINE]
  {
    EncodeAllConcat(c, a, [r]);
    assert [r][1..] == [];
    assert EncodeAll(c, [r]) == c.encode(r) + [NEWLINE];
  }

  lemma EncodeAllEnds(c: Codec, rs: seq<Record>)
    requires rs != []
    ensures EncodeAll(c, rs) != [] && EncodeAll(c, rs)[|EncodeAll(c, rs)| - 1] == NEWLINE
  {
    var n := |rs| - 1;
    assert rs == rs[..n] + [rs[n]];
    EncodeAllSnoc(c, rs[..n], rs[n]);
  }

  method EncodeRecords(c: Codec, records: seq<Record>) returns (r: Result<Bytes, Error>)
    requires forall k :: 0 <= k < |records| ==> c.Fits(records[k].event)
    ensures Sized(c, records) ==> r == Ok(EncodeAll(c, records))
    ensures !Sized(c, records) ==> r == Err(RecordTooLarge)
  {
    var bytes: Bytes := [];
    for i := 0 to |records|
      invariant Sized(c, records[..i])
      invariant bytes == EncodeAll(c, records[..i])
    {
      var encoded := c.encode(records[i]);
      if |encoded| > MAX_RECORD_BYTES {
        return Err(RecordTooLarge);
      }
      assert records[..i + 1] == records[..i] + [records[i]];
      EncodeAllSnoc(c, records[..i], records[i]);
      bytes := bytes + encoded;
      bytes := bytes + [NEWLINE];
    }
    assert records[..|records|] == records;
    return Ok(bytes);
  }

  // ----- strict parsing -----

  function ParseRecord(c: Codec, line: Bytes): Result<Record, Error> {
    if |line| > MAX_RECORD_BYTES then Err(RecordTooLarge)
    else match c.decode(line)
      case None => Err(MalformedJson)
      case Some(r) =>
        if !c.Fits(r.event) then Err(MalformedJson)
        else if c.encode(r) != line then Err(NotCanonical)
        else if r.sha != c.digest(r.sequence, r.event, r.previous) then Err(HashMismatch)
        else Ok(r)
  }

  /** Accepts `line` as the next record after `acc`, with the checks in the order the parser makes them. */
  function ParseNext(c: Codec, acc: seq<Record>, line: Bytes): Result<Record, Error> {
    if line == [] then Err(EmptyRecord)
    else match ParseRecord(c, line)
      case Err(e) => Err(e)
      case Ok(r) =>
        if r.sequence < |acc| + 1 then Err(DuplicateSequence(r.sequence))
        else if r.sequence != |acc| + 1 then Err(UnexpectedSequence(r.sequence))
        else if r.event.sequence != r.sequence then Err(EventSequenceMismatch)
        else if r.event.id in RecordIds(acc) then Err(DuplicateEventId(r.event.id))
        else if r.previous != LastSha(acc) then Err(LinkMismatch)
        else Ok(r)
  }

  ghost predicate NoNewline(bytes: Bytes) {
    forall i :: 0 <= i < |bytes| ==> bytes[i] != NEWLINE
  }

  /** One past the last newline, or zero. */
  function CompleteLength(bytes: Bytes): (n: nat)
    ensures n <= |bytes|
    ensures n > 0 ==> bytes[n - 1] == NEWLINE
    ensures NoNewline(bytes[n..])
  {
    if bytes == [] then 0
    else if bytes[|bytes| - 1] == NEWLINE then |bytes|
    else
      var n := CompleteLength(bytes[..|bytes| - 1]);
      assert bytes[n..] == bytes[..|bytes| - 1][n..] + [bytes[|bytes| - 1]];
      n
  }

  function LineLength(bytes: Bytes): (n: nat)
    requires bytes != [] && bytes[|bytes| - 1] == NEWLINE
    ensures n < |bytes| && bytes[n] == NEWLINE && NoNewline(bytes[..n])
  {
    if bytes[0] == NEWLINE then 0
    else
      var n := LineLength(bytes[1..]);
      assert bytes[..n + 1] == [bytes[0]] + bytes[1..][..n];
      n + 1
  }

  ghost predicate WholeLines(bytes: Bytes) {
    bytes == [] || bytes[|bytes| - 1] == NEWLINE
  }

  function ParseLines(c: Codec, acc: seq<Record>, bytes: Bytes): Result<seq<Record>, Error>
    requires WholeLines(bytes)
    decreases |bytes|
  {
    if bytes == [] then Ok(acc)
    else
      var n := LineLength(bytes);
      match ParseNext(c, acc, bytes[..n])
      case Err(e) => Err(e)
      case Ok(r) => ParseLines(c, acc + [r], bytes[n + 1..])
  }

  function Parse(c: Codec, bytes: Bytes): Result<(seq<Record>, nat), Error> {
    var n := CompleteLength(bytes);
    match ParseLines(c, [], bytes[..n])
    case Err(e) => Err(e)
    case Ok(rs) => Ok((rs, n))
  }

  method FindCompleteLength(bytes: Bytes) returns (n: nat)
    ensures n == CompleteLength(bytes)
  {
    n := |bytes|;
    assert bytes[..n] == bytes;
    while n > 0 && bytes[n - 1] != NEWLINE
      invariant 0 <= n <= |bytes|
      invariant CompleteLength(bytes[..n]) == CompleteLength(bytes)
    {
      assert bytes[..n][..n - 1] == bytes[..n - 1];
      n := n - 1;
    }
  }

  method FindLineLength(bytes: Bytes) returns (n: nat)
    requires bytes != [] && WholeLines(bytes)
    ensures n == LineLength(bytes)
  {
    n := 0;
    while bytes[n] != NEWLINE
      invariant n < |bytes| && NoNewline(bytes[..n])
      decreases |bytes| - n
    {
      assert bytes[..n + 1] == bytes[..n] + [bytes[n]];
      n := n + 1;
    }
    FirstNewline(bytes, n);
  }

  /** The parser's own state is a set of known IDs, a previous hash and a count. */
  method CheckNext(c: Codec, count: nat, eventIds: set<string>, previous: Option<string>, line: Bytes,
                   ghost acc: seq<Record>)
    returns (r: Result<Record, Error>)
    requires count == |acc| && previous == LastSha(acc)
    requires forall id :: id in eventIds <==> id in RecordIds(acc)
    ensures r == ParseNext(c, acc, line)
  {
    if line == [] {
      return Err(EmptyRecord);
    }
    var parsed := ParseRecord(c, line);
    if parsed.Err? {
      return Err(parsed.error);
    }
    var record := parsed.value;
    if record.sequence < count + 1 {
      return Err(DuplicateSequence(record.sequence));
    }
    if record.sequence != count + 1 {
      return Err(UnexpectedSequence(record.sequence));
    }
    if record.event.sequence != record.sequence {
      return Err(EventSequenceMismatch);
    }
    if record.event.id in eventIds {
      return Err(DuplicateEventId(record.event.id));
    }
    if record.previous != previous {
      return Err(LinkMismatch);
    }
    return Ok(record);
  }

  method ParseCompleteRecords(c: Codec, bytes: Bytes) returns (r: Result<(seq<Record>, nat), Error>)
    ensures r == Parse(c, bytes)
  {
    var completeLen := FindCompleteLength(bytes);
    var rest := bytes[..completeLen];
    var records: seq<Record> := [];
    var eventIds: set<string> := {};
    var previous: Option<string> := None;
    while rest != []
      invariant WholeLines(rest)
      invariant forall id :: id in eventIds <==> id in RecordIds(records)
      invariant previous == LastSha(records)
      invariant ParseLines(c, [], bytes[..completeLen]) == ParseLines(c, records, rest)
      decreases |rest|
    {
      var n := FindLineLength(rest);
      var next := CheckNext(c, |records|, eventIds, previous, rest[..n], records);
      if next.Err? {
        return Err(next.error);
      }
      var record := next.value;
      RecordIdsSnoc(records, record);
      eventIds := eventIds + {record.event.id};
      previous := Some(record.sha);
      records := records + [record];
      rest := rest[n + 1..];
    }
    return Ok((records, completeLen));
  }

  lemma RecordIdsSnoc(records: seq<Record>, r: Record)
    ensures RecordIds(records + [r]) == RecordIds(records) + [r.event.id]
  {
  }

  // ----- parsing is exactly the inverse of encoding -----

  lemma LinkedSnoc(c: Codec, acc: seq<Record>, r: Record)
    requires Linked(c, acc)
    ensures Linked(c, acc + [r]) <==>
            && r.sequence == r.event.sequence == |acc| + 1
            && r.previous == LastSha(acc)
            && r.sha == c.digest(r.sequence, r.event, r.previous)
  {
    var all := acc + [r];
    assert LinkedAt(c, all, |acc|) <==>
           && r.sequence == r.event.sequence == |acc| + 1
           && r.previous == LastSha(acc)
           && r.sha == c.digest(r.sequence, r.event, r.previous);
    forall i | 0 <= i < |acc|
      ensures LinkedAt(c, all, i)
    {
      assert LinkedAt(c, acc, i);
    }
  }

  lemma DistinctIdsSnoc(acc: seq<Record>, r: Record)
    requires DistinctIds(acc)
    ensures DistinctIds(acc + [r]) <==> r.event.id !in RecordIds(acc)
  {
    var all := acc + [r];
    assert all[|acc|] == r;
    assert forall i :: 0 <= i < |acc| ==> all[i] == acc[i] && acc[i].event.id == RecordIds(acc)[i];
    if r.event.id in RecordIds(acc) {
      var i :| 0 <= i < |acc| && RecordIds(acc)[i] == r.event.id;
      assert all[i].event.id == all[|acc|].event.id;
    }
  }

  lemma ChainPrefix(c: Codec, rs: seq<Record>, n: nat)
    requires n <= |rs| && Linked(c, rs)
    ensures Linked(c, rs[..n])
    ensures DistinctIds(rs) ==> DistinctIds(rs[..n])
  {
    forall i | 0 <= i < n
      ensures LinkedAt(c, rs[..n], i)
    {
      assert LinkedAt(c, rs, i);
    }
    assert forall i :: 0 <= i < n ==> rs[..n][i] == rs[i];
  }

  /** The next line is accepted exactly when it is the canonical form of a record that extends the chain. */
  lemma ParseNextExact(c: Codec, acc: seq<Record>, line: Bytes, r: Record)
    requires c.Lawful() && Chain(c, acc)
    ensures ParseNext(c, acc, line) == Ok(r) <==>
            line == c.encode(r) && |line| <= MAX_RECORD_BYTES && c.Fits(r.event) && Chain(c, acc + [r])
  {
    LinkedSnoc(c, acc, r);
    DistinctIdsSnoc(acc, r);
    assert c.encode(r) != [] && c.decode(c.encode(r)) == Some(r);
  }

  lemma FirstNewline(bytes: Bytes, n: nat)
    requires WholeLines(bytes) && n < |bytes| && bytes[n] == NEWLINE && NoNewline(bytes[..n])
    ensures LineLength(bytes) == n
  {
    var m := LineLength(bytes);
    assert forall i :: 0 <= i < m ==> bytes[..m][i] == bytes[i];
    assert forall i :: 0 <= i < n ==> bytes[..n][i] == bytes[i];
  }

  lemma NewlineInside(bytes: Bytes, m: nat, n: nat)
    requires m <= |bytes| && n <= |bytes| && NoNewline(bytes[m..]) && WholeLines(bytes[..n])
    ensures n <= m
  {
    assert forall i :: m <= i < |bytes| ==> bytes[m..][i - m] == bytes[i];
    assert forall i :: 0 <= i < n ==> bytes[..n][i] == bytes[i];
  }

  lemma LineLengthOfEncoded(c: Codec, r: Record, rest: Bytes)
    requires c.Lawful() && WholeLines(rest)
    ensures var all := c.encode(r) + [NEWLINE] + rest;
            WholeLines(all) && LineLength(all) == |c.encode(r)| &&
            all[..|c.encode(r)|] == c.encode(r) && all[|c.encode(r)| + 1..] == rest
  {
    var all := c.encode(r) + [NEWLINE] + rest;
    var n := |c.encode(r)|;
    assert all[n] == NEWLINE && all[..n] == c.encode(r) && all[n + 1..] == rest;
    assert NoNewline(c.encode(r));
    if rest != [] { assert all[|all| - 1] == rest[|rest| - 1]; }
    FirstNewline(all, n);
  }

  lemma EncodedWhole(c: Codec, rs: seq<Record>)
    ensures WholeLines(EncodeAll(c, rs))
  {
    if rs != [] { EncodeAllEnds(c, rs); }
  }

  /** Lines determine records, valid chain or not. */
  lemma {:induction false} LinesDetermineRecords(c: Codec, a: seq<Record>, b: seq<Record>)
    requires c.Lawful() && EncodeAll(c, a) == EncodeAll(c, b)
    ensures a == b
    decreases |a|
  {
    if a != [] && b != [] {
      EncodedWhole(c, a[1..]);
      EncodedWhole(c, b[1..]);
      LineLengthOfEncoded(c, a[0], EncodeAll(c, a[1..]));
      LineLengthOfEncoded(c, b[0], EncodeAll(c, b[1..]));
      assert c.decode(c.encode(a[0])) == Some(a[0]) && c.decode(c.encode(b[0])) == Some(b[0]);
      LinesDetermineRecords(c, a[1..], b[1..]);
      assert a == [a[0]] + a[1..] && b == [b[0]] + b[1..];
    }
  }

  lemma {:induction false} ParseLinesComplete(c: Codec, acc: seq<Record>, more: seq<Record>)
    requires c.Lawful() && Chain(c, acc + more) && Sized(c, more)
    ensures WholeLines(EncodeAll(c, more))
    ensures ParseLines(c, acc, EncodeAll(c, more)) == Ok(acc + more)
    decreases |more|
  {
    EncodedWhole(c, more);
    if more == [] {
      assert acc + more == acc;
    } else {
      var r, rest := more[0], more[1..];
      EncodedWhole(c, rest);
      LineLengthOfEncoded(c, r, EncodeAll(c, rest));
      assert acc + more == (acc + [r]) + rest;
      ChainPrefix(c, acc + more, |acc|);
      ChainPrefix(c, acc + more, |acc| + 1);
      assert (acc + more)[..|acc|] == acc && (acc + more)[..|acc| + 1] == acc + [r];
      ParseNextExact(c, acc, c.encode(r), r);
      ParseLinesComplete(c, acc + [r], rest);
    }
  }

  lemma FirstLineSound(c: Codec, acc: seq<Record>, bytes: Bytes) returns (r: Record, suffix: Bytes)
    requires c.Lawful() && Chain(c, acc) && bytes != [] && WholeLines(bytes)
    requires ParseLines(c, acc, bytes).Ok?
    ensures bytes == c.encode(r) + [NEWLINE] + suffix && |c.encode(r)| <= MAX_RECORD_BYTES && c.Fits(r.event)
    ensures Chain(c, acc + [r]) && WholeLines(suffix)
    ensures ParseLines(c, acc, bytes) == ParseLines(c, acc + [r], suffix)
  {
    var n := LineLength(bytes);
    r, suffix := ParseNext(c, acc, bytes[..n]).value, bytes[n + 1..];
    ParseNextExact(c, acc, bytes[..n], r);
    assert bytes == bytes[..n] + [NEWLINE] + suffix;
  }

  lemma {:induction false} ParseLinesSound(c: Codec, acc: seq<Record>, bytes: Bytes, all: seq<Record>)
    returns (more: seq<Record>)
    requires c.Lawful() && Chain(c, acc) && WholeLines(bytes)
    requires ParseLines(c, acc, bytes) == Ok(all)
    ensures acc + more == all
    ensures Chain(c, all) && Sized(c, more) && bytes == EncodeAll(c, more)
    decreases |bytes|
  {
    if bytes == [] {
      more := [];
    } else {
      var r, suffix := FirstLineSound(c, acc, bytes);
      var rest := ParseLinesSound(c, acc + [r], suffix, all);
      more := [r] + rest;
      EncodeAllCons(c, r, rest);
      Associate(acc, [r], rest);
    }
  }

  lemma CompleteLengthUnique(bytes: Bytes, n: nat)
    requires n <= |bytes| && NoNewline(bytes[n..]) && WholeLines(bytes[..n])
    ensures n == CompleteLength(bytes)
  {
    var m := CompleteLength(bytes);
    NewlineInside(bytes, CompleteLength(bytes), n);
    NewlineInside(bytes, n, CompleteLength(bytes));
  }

  /**
   * The strict parser accepts exactly the encodings of valid chains, followed by any bytes without a
   * newline; and it returns that chain and the length of its encoding.
   */
  lemma ParseExact(c: Codec, bytes: Bytes, rs: seq<Record>, n: nat)
    requires c.Lawful()
    ensures Parse(c, bytes) == Ok((rs, n)) <==>
            && n <= |bytes| && NoNewline(bytes[n..])
            && Chain(c, rs) && Sized(c, rs) && bytes[..n] == EncodeAll(c, rs)
  {
    if Parse(c, bytes) == Ok((rs, n)) {
      var more := ParseLinesSound(c, [], bytes[..n], rs);
      assert [] + more == more;
    }
    if n <= |bytes| && NoNewline(bytes[n..]) && Chain(c, rs) && Sized(c, rs) && bytes[..n] == EncodeAll(c, rs) {
      EncodedWhole(c, rs);
      CompleteLengthUnique(bytes, n);
      assert [] + rs == rs;
      ParseLinesComplete(c, [], rs);
    }
  }

  /** Encoding is injective on valid chains: the bytes determine the history. */
  lemma EncodingDeterminesHistory(c: Codec, a: seq<Record>, b: seq<Record>)
    requires c.Lawful() && Chain(c, a) && Sized(c, a) && Chain(c, b) && Sized(c, b)
    requires EncodeAll(c, a) == EncodeAll(c, b)
    ensures a == b
  {
    var bytes := EncodeAll(c, a);
    assert bytes[..|bytes|] == bytes && bytes[|bytes|..] == [];
    ParseExact(c, bytes, a, |bytes|);
    ParseExact(c, bytes, b, |bytes|);
  }

  /** Whatever prefix of an append reached the file splits into whole records and a torn line. */
  lemma {:induction false} TornPrefix(c: Codec, rs: seq<Record>, p: Bytes) returns (k: nat, tail: Bytes)
    requires c.Lawful() && p <= EncodeAll(c, rs)
    ensures k <= |rs| && p == EncodeAll(c, rs[..k]) + tail && NoNewline(tail)
    ensures k == |rs| ==> tail == []
    ensures k < |rs| ==> tail <= c.encode(rs[k])
    decreases |rs|
  {
    if rs == [] {
      k, tail := 0, [];
    } else {
      var line := c.encode(rs[0]);
      var all := EncodeAll(c, rs);
      if |p| <= |line| {
        k, tail := 0, p;
        TornFirstLine(line, EncodeAll(c, rs[1..]), p);
      } else {
        var rest := TornLaterLine(line, EncodeAll(c, rs[1..]), p);
        k, tail := TornPrefix(c, rs[1..], rest);
        assert rs[..k + 1] == [rs[0]] + rs[1..][..k];
        assert rs[..k + 1][1..] == rs[1..][..k];
        assert p == line + [NEWLINE] + (EncodeAll(c, rs[1..][..k]) + tail);
        k := k + 1;
      }
    }
  }

  lemma TornFirstLine(line: Bytes, rest: Bytes, p: Bytes)
    requires NoNewline(line) && p <= line + [NEWLINE] + rest && |p| <= |line|
    ensures p <= line && NoNewline(p)
  {
    var all := line + [NEWLINE] + rest;
    assert forall i :: 0 <= i < |p| ==> p[i] == all[i] == line[i];
  }

  lemma TornLaterLine(line: Bytes, rest: Bytes, p: Bytes) returns (q: Bytes)
    requires p <= line + [NEWLINE] + rest && |p| > |line|
    ensures q <= rest && p == line + [NEWLINE] + q
  {
    q := p[|line| + 1..];
    var all := line + [NEWLINE] + rest;
    assert all[|line| + 1..] == rest;
    assert forall i :: 0 <= i < |p| ==> p[i] == all[i];
    assert forall i :: 0 <= i < |q| ==> q[i] == rest[i];
  }

  /** A journal torn anywhere inside the next batch parses back to its complete records and their exact length. */
  lemma ParseTorn(c: Codec, base: seq<Record>, batch: seq<Record>, p: Bytes) returns (k: nat, tail: Bytes)
    requires c.Lawful() && Chain(c, base + batch) && Sized(c, base + batch)
    requires p <= EncodeAll(c, batch)
    ensures k <= |batch| && NoNewline(tail)
    ensures EncodeAll(c, base) + p == EncodeAll(c, base + batch[..k]) + tail
    ensures Parse(c, EncodeAll(c, base) + p) == Ok((base + batch[..k], |EncodeAll(c, base + batch[..k])|))
    ensures k == |batch| ==> tail == []
    ensures k < |batch| ==> tail <= c.encode(batch[k])
  {
    k, tail := TornPrefix(c, batch, p);
    var whole := base + batch[..k];
    EncodeAllConcat(c, base, batch[..k]);
    assert EncodeAll(c, base) + p == EncodeAll(c, whole) + tail;
    assert whole == (base + batch)[..|base| + k];
    ChainPrefix(c, base + batch, |base| + k);
    ParseWithTail(c, whole, tail);
  }

  lemma ParseWithTail(c: Codec, rs: seq<Record>, tail: Bytes)
    requires c.Lawful() && Chain(c, rs) && Sized(c, rs) && NoNewline(tail)
    ensures Parse(c, EncodeAll(c, rs) + tail) == Ok((rs, |EncodeAll(c, rs)|))
  {
    var bytes, n := EncodeAll(c, rs) + tail, |EncodeAll(c, rs)|;
    assert bytes[..n] == EncodeAll(c, rs) && bytes[n..] == tail;
    ParseExact(c, bytes, rs, n);
  }

  /** Two records of one hash that differ. */
  ghost predicate Collision(c: Codec, x: Record, y: Record) {
    x != y && c.digest(x.sequence, x.event, x.previous) == c.digest(y.sequence, y.event, y.previous)
  }

  ghost predicate Collide(c: Codec, a: seq<Record>, b: seq<Record>) {
    exists i :: 0 <= i < |a| && i < |b| && Collision(c, a[i], b[i])
  }

  /**
   * Record count and last hash determine the whole history, unless the two histories themselves hold a
   * collision of the hash, at one and the same place.
   */
  lemma {:induction false} LastHashDeterminesHistory(c: Codec, a: seq<Record>, b: seq<Record>)
    requires Linked(c, a) && Linked(c, b)
    requires |a| == |b| && LastSha(a) == LastSha(b)
    ensures a == b || Collide(c, a, b)
    decreases |a|
  {
    if a != [] {
      var n := |a| - 1;
      var x, y := a[n], b[n];
      assert LinkedAt(c, a, n) && LinkedAt(c, b, n);
      if x != y {
        assert Collision(c, a[n], b[n]);
      } else {
        ChainPrefix(c, a, n);
        ChainPrefix(c, b, n);
        LastHashDeterminesHistory(c, a[..n], b[..n]);
        assert a == a[..n] + [x] && b == b[..n] + [y];
        if i :| 0 <= i < n && Collision(c, a[..n][i], b[..n][i]) {
          assert Collision(c, a[i], b[i]);
        }
      }
    }
  }
}
