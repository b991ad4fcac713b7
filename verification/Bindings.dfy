/** Which worktree a task was last reported in: the binding journal and its watermarks (src/journal.rs). */
module Bindings {
  import opened Prelude
  import JournalCodec

  const NEWLINE: byte := 10
  const MAX_BINDING_BYTES: nat := 2 * 1024 * 1024
  const MAX_BINDING_RECORDS: nat := 2048
  const RECORD_SCHEMA := "devmap/task-binding/1"
  const MARKS_SCHEMA := "devmap/task-binding-watermarks/1"

  datatype Kind = Association | Migration

  datatype Observation = Observation(
    schema: string, repository: string, kind: Kind, host: string, task: string, worktree: string,
    fromWorktree: Option<string>, source: string, observedAt: string, previousObservedAt: Option<string>,
    eventAt: Option<string>)

  type Key = (string, string)
  type Marks = map<Key, string>

  datatype SavedMarks = SavedMarks(schema: string, repository: string, observations: seq<(string, string, string)>)

  datatype Error = Oversized | MalformedRecord | Inconsistent | TooManyRecords | BadMarks | LimitReached | BadReport

  /** `instant` reads an RFC 3339 string (section 5.6 of RFC 3339); different strings may name one instant. */
  datatype Env = Env(
    repository: string,
    encode: Observation -> Bytes,
    decode: Bytes -> Option<Observation>,
    instant: string -> Option<int>,
    savedLength: SavedMarks -> nat)
  {
    /** Lines are as JSON has them, and a list of watermarks is as long in any order. */
    ghost predicate Lawful() {
      && (forall r :: encode(r) != [] && JournalCodec.NoNewline(encode(r)) && decode(encode(r)) == Some(r))
      && (forall a, b :: SameButOrder(a, b) ==> savedLength(a) == savedLength(b))
    }
  }

  ghost predicate SameButOrder(a: SavedMarks, b: SavedMarks) {
    a.schema == b.schema && a.repository == b.repository && multiset(a.observations) == multiset(b.observations)
  }

  function KeyOf(r: Observation): Key {
    (r.host, r.task)
  }

  function Latest(records: seq<Observation>, key: Key): Option<Observation> {
    if records == [] then None
    else if KeyOf(records[|records| - 1]) == key then Some(records[|records| - 1])
    else Latest(records[..|records| - 1], key)
  }

  predicate ValidName(s: string) {
    0 < |s| <= 256 && forall i :: 0 <= i < |s| ==> !(s[i] as int < 32 || 127 <= s[i] as int <= 159)
  }

  function At(env: Env, s: string): int {
    match env.instant(s) case Some(t) => t case None => 0
  }

  // ----- the journal -----

  /** The checks on one journal line against the latest earlier record of the same task. */
  predicate Follows(env: Env, previous: Option<Observation>, r: Observation) {
    && r.schema == RECORD_SCHEMA && r.repository == env.repository && r.source == "host_task_inventory"
    && r.eventAt.None? && env.instant(r.observedAt).Some?
    && ValidName(r.host) && ValidName(r.task) && ValidName(r.worktree)
    && match previous
       case None => r.fromWorktree.None? && r.previousObservedAt.None? && r.kind == Association
       case Some(p) =>
         && r.fromWorktree == Some(p.worktree) && r.previousObservedAt == Some(p.observedAt) && r.kind == Migration
         && p.worktree != r.worktree && At(env, p.observedAt) < At(env, r.observedAt)
  }

  ghost predicate ValidJournal(env: Env, records: seq<Observation>) {
    forall i :: 0 <= i < |records| ==> Follows(env, Latest(records[..i], KeyOf(records[i])), records[i])
  }

  function EncodeRecords(env: Env, records: seq<Observation>): Bytes {
    if records == [] then []
    else EncodeRecords(env, records[..|records| - 1]) + env.encode(records[|records| - 1]) + [NEWLINE]
  }

  function ParseLines(env: Env, acc: seq<Observation>, bytes: Bytes): Result<seq<Observation>, Error>
    requires JournalCodec.WholeLines(bytes)
    decreases |bytes|
  {
    if bytes == [] then Ok(acc)
    else
      var n := JournalCodec.LineLength(bytes);
      if n == 0 then ParseLines(env, acc, bytes[1..])
      else match env.decode(bytes[..n])
        case None => Err(MalformedRecord)
        case Some(r) =>
          if !Follows(env, Latest(acc, KeyOf(r)), r) then Err(Inconsistent)
          else if |acc| + 1 > MAX_BINDING_RECORDS then Err(TooManyRecords)
          else ParseLines(env, acc + [r], bytes[n + 1..])
  }

  function ParseRecords(env: Env, bytes: Bytes): Result<seq<Observation>, Error> {
    if |bytes| > MAX_BINDING_BYTES || (bytes != [] && bytes[|bytes| - 1] != NEWLINE) then Err(Oversized)
    else ParseLines(env, [], bytes)
  }

  /** The parser keeps the latest record per task in a map instead of looking back. */
  method ParseBindingRecords(env: Env, bytes: Bytes) returns (r: Result<seq<Observation>, Error>)
    ensures r == ParseRecords(env, bytes)
  {
    if |bytes| > MAX_BINDING_BYTES || (bytes != [] && bytes[|bytes| - 1] != NEWLINE) {
      return Err(Oversized);
    }
    var records: seq<Observation> := [];
    var latest: map<Key, Observation> := map[];
    var rest := bytes;
    while rest != []
      invariant JournalCodec.WholeLines(rest)
      invariant forall key :: Latest(records, key) == if key in latest then Some(latest[key]) else None
      invariant ParseLines(env, [], bytes) == ParseLines(env, records, rest)
      decreases |rest|
    {
      var n := JournalCodec.FindLineLength(rest);
      if n > 0 {
        var decoded := env.decode(rest[..n]);
        if decoded.None? {
          return Err(MalformedRecord);
        }
        var record := decoded.value;
        var key := KeyOf(record);
        var previous := if key in latest then Some(latest[key]) else None;
        if !Follows(env, previous, record) {
          return Err(Inconsistent);
        }
        assert (records + [record])[..|records|] == records;
        latest := latest[key := record];
        records := records + [record];
        if |records| > MAX_BINDING_RECORDS {
          return Err(TooManyRecords);
        }
      }
      rest := rest[n + 1..];
    }
    return Ok(records);
  }

  lemma ValidPrefix(env: Env, records: seq<Observation>, n: nat)
    requires n <= |records| && ValidJournal(env, records)
    ensures ValidJournal(env, records[..n])
  {
    forall i | 0 <= i < n
      ensures Follows(env, Latest(records[..n][..i], KeyOf(records[..n][i])), records[..n][i])
    {
      assert records[..n][..i] == records[..i];
    }
  }

  lemma ValidSnoc(env: Env, records: seq<Observation>, r: Observation)
    requires ValidJournal(env, records) && Follows(env, Latest(records, KeyOf(r)), r)
    ensures ValidJournal(env, records + [r])
  {
    var all := records + [r];
    assert all[..|records|] == records;
    forall i | 0 <= i < |records|
      ensures Follows(env, Latest(all[..i], KeyOf(all[i])), all[i])
    {
      assert all[..i] == records[..i];
    }
  }

  lemma OneMoreLine(env: Env, acc: seq<Observation>, r: Observation, rest: Bytes)
    requires env.Lawful() && JournalCodec.WholeLines(rest)
    ensures var bytes := env.encode(r) + [NEWLINE] + rest;
            && JournalCodec.WholeLines(bytes)
            && (Follows(env, Latest(acc, KeyOf(r)), r) && |acc| < MAX_BINDING_RECORDS ==>
                  ParseLines(env, acc, bytes) == ParseLines(env, acc + [r], rest))
  {
    var line := env.encode(r);
    var bytes := line + [NEWLINE] + rest;
    assert bytes[..|line|] == line && bytes[|line|] == NEWLINE && bytes[|line| + 1..] == rest;
    if rest != [] { assert bytes[|bytes| - 1] == rest[|rest| - 1]; }
    JournalCodec.FirstNewline(bytes, |line|);
    assert env.decode(line) == Some(r);
  }

  lemma AssociateLine(a: Bytes, line: Bytes, rest: Bytes)
    ensures a + line + [NEWLINE] + rest == a + (line + [NEWLINE] + rest)
  {
  }

  /** Every valid journal within the limits is read back unchanged, whatever line-complete data follows it. */
  lemma {:induction false} ParseEncodedPrefix(env: Env, records: seq<Observation>, rest: Bytes)
    requires env.Lawful() && ValidJournal(env, records) && |records| <= MAX_BINDING_RECORDS
    requires JournalCodec.WholeLines(rest)
    ensures JournalCodec.WholeLines(EncodeRecords(env, records) + rest)
    ensures ParseLines(env, [], EncodeRecords(env, records) + rest) == ParseLines(env, records, rest)
    decreases |records|
  {
    if records == [] {
      assert EncodeRecords(env, records) + rest == rest;
    } else {
      var n := |records| - 1;
      var r := records[n];
      ValidPrefix(env, records, n);
      assert records == records[..n] + [r];
      OneMoreLine(env, records[..n], r, rest);
      ParseEncodedPrefix(env, records[..n], env.encode(r) + [NEWLINE] + rest);
      AssociateLine(EncodeRecords(env, records[..n]), env.encode(r), rest);
    }
  }

  lemma ParseEncoded(env: Env, records: seq<Observation>)
    requires env.Lawful() && ValidJournal(env, records)
    requires |records| <= MAX_BINDING_RECORDS && |EncodeRecords(env, records)| <= MAX_BINDING_BYTES
    ensures ParseRecords(env, EncodeRecords(env, records)) == Ok(records)
  {
    var bytes := EncodeRecords(env, records);
    ParseEncodedPrefix(env, records, []);
    assert bytes + [] == bytes;
  }

  lemma ParseStep(env: Env, acc: seq<Observation>, bytes: Bytes) returns (next: seq<Observation>, suffix: Bytes)
    requires bytes != [] && JournalCodec.WholeLines(bytes) && ValidJournal(env, acc) && ParseLines(env, acc, bytes).Ok?
    ensures |suffix| < |bytes| && JournalCodec.WholeLines(suffix) && ValidJournal(env, next)
    ensures ParseLines(env, acc, bytes) == ParseLines(env, next, suffix)
  {
    var n := JournalCodec.LineLength(bytes);
    suffix := bytes[n + 1..];
    if n == 0 {
      next := acc;
    } else {
      var r := env.decode(bytes[..n]).value;
      ValidSnoc(env, acc, r);
      next := acc + [r];
    }
  }

  /** Nothing inconsistent is ever read: an accepted journal is valid. */
  lemma {:induction false} ParseSound(env: Env, acc: seq<Observation>, bytes: Bytes, all: seq<Observation>)
    requires JournalCodec.WholeLines(bytes) && ValidJournal(env, acc) && ParseLines(env, acc, bytes) == Ok(all)
    ensures ValidJournal(env, all)
    decreases |bytes|
  {
    if bytes != [] {
      var next, suffix := ParseStep(env, acc, bytes);
      ParseSound(env, next, suffix, all);
    }
  }

  // ----- one report -----

  datatype State = State(records: seq<Observation>, marks: Marks)

  /** One association `(host, task, worktree)` seen at `observedAt`. */
  function Observe(env: Env, s: State, a: (string, string, string), observedAt: string): State {
    var key := (a.0, a.1);
    var previous := Latest(s.records, key);
    if key in s.marks && At(env, s.marks[key]) >= At(env, observedAt) then s
    else
      var marked := s.(marks := s.marks[key := observedAt]);
      if previous.Some? && previous.value.worktree == a.2 then marked
      else marked.(records := s.records + [NewRecord(env, previous, a, observedAt)])
  }

  function NewRecord(env: Env, previous: Option<Observation>, a: (string, string, string), observedAt: string): Observation {
    match previous
    case None =>
      Observation(RECORD_SCHEMA, env.repository, Association, a.0, a.1, a.2, None, "host_task_inventory", observedAt, None, None)
    case Some(p) =>
      Observation(RECORD_SCHEMA, env.repository, Migration, a.0, a.1, a.2, Some(p.worktree), "host_task_inventory",
                  observedAt, Some(p.observedAt), None)
  }

  function ObserveAll(env: Env, s: State, associations: seq<(string, string, string)>, observedAt: string): State {
    if associations == [] then s
    else Observe(env, ObserveAll(env, s, associations[..|associations| - 1], observedAt),
                 associations[|associations| - 1], observedAt)
  }

  /** Every record is covered by a watermark that is at least as new, and the journal would be read back. */
  ghost predicate Consistent(env: Env, s: State) {
    && ValidJournal(env, s.records)
    && (forall key :: Latest(s.records, key).Some? ==>
          key in s.marks && At(env, Latest(s.records, key).value.observedAt) <= At(env, s.marks[key]))
    && (forall key :: key in s.marks ==>
          env.instant(s.marks[key]).Some? && ValidName(key.0) && ValidName(key.1))
  }

  predicate ValidReport(env: Env, associations: seq<(string, string, string)>, observedAt: string) {
    && env.instant(observedAt).Some? && |associations| <= MAX_BINDING_RECORDS
    && forall i :: 0 <= i < |associations| ==>
         ValidName(associations[i].0) && ValidName(associations[i].1) && ValidName(associations[i].2)
  }

  lemma LatestSnoc(records: seq<Observation>, r: Observation, key: Key)
    ensures Latest(records + [r], key) == if KeyOf(r) == key then Some(r) else Latest(records, key)
  {
    assert (records + [r])[..|records|] == records;
  }

  lemma ObserveConsistent(env: Env, s: State, a: (string, string, string), observedAt: string)
    requires Consistent(env, s) && env.instant(observedAt).Some?
    requires ValidName(a.0) && ValidName(a.1) && ValidName(a.2)
    ensures Consistent(env, Observe(env, s, a, observedAt))
  {
    var previous := Latest(s.records, (a.0, a.1));
    var next := Observe(env, s, a, observedAt);
    if |next.records| > |s.records| {
      LatestHasKey(s.records, (a.0, a.1));
      RecordKeepsConsistent(env, s, NewRecord(env, previous, a, observedAt));
    }
  }

  lemma RecordKeepsConsistent(env: Env, s: State, r: Observation)
    requires Consistent(env, s) && Follows(env, Latest(s.records, KeyOf(r)), r)
    ensures Consistent(env, State(s.records + [r], s.marks[KeyOf(r) := r.observedAt]))
  {
    ValidSnoc(env, s.records, r);
    forall k
      ensures Latest(s.records + [r], k) == if KeyOf(r) == k then Some(r) else Latest(s.records, k)
    {
      LatestSnoc(s.records, r, k);
    }
  }

  lemma {:induction false} LatestHasKey(records: seq<Observation>, key: Key)
    ensures Latest(records, key).Some? ==> KeyOf(Latest(records, key).value) == key
  {
    if records != [] {
      LatestHasKey(records[..|records| - 1], key);
    }
  }

  // ----- the register it implements -----

  /** What is known of one task: where it was last recorded, and how recent the newest report is. */
  datatype Cell = Cell(worktree: Option<string>, at: int)

  type Register = map<Key, Cell>

  /** A last-writer-wins register per task: only a strictly newer report changes it. */
  function Put(reg: Register, key: Key, worktree: string, at: int): Register {
    if key in reg && reg[key].at >= at then reg else reg[key := Cell(Some(worktree), at)]
  }

  function WorktreeOf(previous: Option<Observation>): Option<string> {
    match previous case None => None case Some(p) => Some(p.worktree)
  }

  function RegisterOf(env: Env, s: State): Register {
    map key | key in s.marks :: Cell(WorktreeOf(Latest(s.records, key)), At(env, s.marks[key]))
  }

  /** Each association acts on the journal and watermarks as one write acts on the register. */
  lemma ObserveRefinesPut(env: Env, s: State, a: (string, string, string), observedAt: string)
    ensures RegisterOf(env, Observe(env, s, a, observedAt)) ==
            Put(RegisterOf(env, s), (a.0, a.1), a.2, At(env, observedAt))
  {
    var key := (a.0, a.1);
    var next := Observe(env, s, a, observedAt);
    if |next.records| > |s.records| {
      var r := NewRecord(env, Latest(s.records, key), a, observedAt);
      forall k
        ensures Latest(next.records, k) == if KeyOf(r) == k then Some(r) else Latest(s.records, k)
      {
        LatestSnoc(s.records, r, k);
      }
    }
  }

  datatype Report = Report(key: Key, worktree: string, at: int)

  function PutAll(reg: Register, reports: seq<Report>): Register {
    if reports == [] then reg
    else
      var last := reports[|reports| - 1];
      Put(PutAll(reg, reports[..|reports| - 1]), last.key, last.worktree, last.at)
  }

  function ReportsOf(env: Env, associations: seq<(string, string, string)>, observedAt: string): seq<Report> {
    seq(|associations|, i requires 0 <= i < |associations| =>
      Report((associations[i].0, associations[i].1), associations[i].2, At(env, observedAt)))
  }

  lemma {:induction false} ObserveAllRefinesPutAll(env: Env, s: State, associations: seq<(string, string, string)>, observedAt: string)
    ensures RegisterOf(env, ObserveAll(env, s, associations, observedAt)) ==
            PutAll(RegisterOf(env, s), ReportsOf(env, associations, observedAt))
  {
    if associations != [] {
      var n := |associations| - 1;
      var reports := ReportsOf(env, associations, observedAt);
      assert reports[..n] == ReportsOf(env, associations[..n], observedAt);
      ObserveAllRefinesPutAll(env, s, associations[..n], observedAt);
      ObserveRefinesPut(env, ObserveAll(env, s, associations[..n], observedAt), associations[n], observedAt);
    }
  }

  lemma {:induction false} ObserveAllConsistent(env: Env, s: State, associations: seq<(string, string, string)>, observedAt: string)
    requires Consistent(env, s) && ValidReport(env, associations, observedAt)
    ensures Consistent(env, ObserveAll(env, s, associations, observedAt))
  {
    if associations != [] {
      var n := |associations| - 1;
      ObserveAllConsistent(env, s, associations[..n], observedAt);
      ObserveConsistent(env, ObserveAll(env, s, associations[..n], observedAt), associations[n], observedAt);
    }
  }

  /** `c` is what a task is left with: the start, if nothing newer was reported, or the first of the newest reports. */
  ghost predicate Newest(reg: Register, reports: seq<Report>, key: Key, c: Cell) {
    && (forall i :: 0 <= i < |reports| && reports[i].key == key ==> reports[i].at <= c.at)
    && (key in reg ==> reg[key].at <= c.at)
    && ((key in reg && c == reg[key])
        || exists i :: 0 <= i < |reports| && reports[i].key == key && c == Cell(Some(reports[i].worktree), reports[i].at)
                       && (key in reg ==> reg[key].at < c.at))
  }

  lemma {:induction false} PutAllIsNewest(reg: Register, reports: seq<Report>, key: Key)
    ensures key in PutAll(reg, reports) <==> key in reg || exists i :: 0 <= i < |reports| && reports[i].key == key
    ensures key in PutAll(reg, reports) ==> Newest(reg, reports, key, PutAll(reg, reports)[key])
  {
    if reports != [] {
      var n := |reports| - 1;
      var before := reports[..n];
      PutAllIsNewest(reg, before, key);
      assert forall i :: 0 <= i < n ==> before[i] == reports[i];
      if key in PutAll(reg, before) {
        NewestStep(reg, reports, key, PutAll(reg, before)[key]);
      } else {
        assert reports[n].key == key ==> PutAll(reg, reports)[key] == Cell(Some(reports[n].worktree), reports[n].at);
      }
    }
  }

  lemma NewestStep(reg: Register, reports: seq<Report>, key: Key, c: Cell)
    requires reports != [] && Newest(reg, reports[..|reports| - 1], key, c)
    ensures var last := reports[|reports| - 1];
            Newest(reg, reports, key,
                   if last.key == key && c.at < last.at then Cell(Some(last.worktree), last.at) else c)
  {
    var n := |reports| - 1;
    var before := reports[..n];
    assert forall i :: 0 <= i < n ==> before[i] == reports[i];
    if !(key in reg && c == reg[key]) {
      var i :| 0 <= i < n && before[i].key == key && c == Cell(Some(before[i].worktree), before[i].at)
               && (key in reg ==> reg[key].at < c.at);
      assert reports[i].key == key;
    }
  }

  /** Reports of one task never share an instant unless they agree. */
  ghost predicate DistinctInstants(reports: seq<Report>) {
    forall i, j | 0 <= i < |reports| && 0 <= j < |reports| ::
      reports[i].key == reports[j].key && reports[i].at == reports[j].at ==> reports[i].worktree == reports[j].worktree
  }

  /** When the instants of each task differ, the order in which reports arrive does not matter. */
  lemma ArrivalOrderIrrelevant(reg: Register, a: seq<Report>, b: seq<Report>)
    requires multiset(a) == multiset(b) && DistinctInstants(a)
    ensures PutAll(reg, a) == PutAll(reg, b)
  {
    forall i | 0 <= i < |a|
      ensures a[i] in b
    {
      assert a[i] in multiset(a);
    }
    forall i | 0 <= i < |b|
      ensures b[i] in a
    {
      assert b[i] in multiset(b);
    }
    forall key
      ensures key in PutAll(reg, a) <==> key in PutAll(reg, b)
      ensures key in PutAll(reg, a) ==> PutAll(reg, a)[key] == PutAll(reg, b)[key]
    {
      PutAllIsNewest(reg, a, key);
      PutAllIsNewest(reg, b, key);
      if key in PutAll(reg, a) {
        SameNewest(reg, a, b, key, PutAll(reg, a)[key], PutAll(reg, b)[key]);
      }
    }
  }

  lemma SameNewest(reg: Register, a: seq<Report>, b: seq<Report>, key: Key, x: Cell, y: Cell)
    requires (forall i :: 0 <= i < |a| ==> a[i] in b) && (forall i :: 0 <= i < |b| ==> b[i] in a)
    requires DistinctInstants(a) && Newest(reg, a, key, x) && Newest(reg, b, key, y)
    ensures x == y
  {
    if !(key in reg && x == reg[key]) {
      var i :| 0 <= i < |a| && a[i].key == key && x == Cell(Some(a[i].worktree), a[i].at) && (key in reg ==> reg[key].at < x.at);
      var j :| 0 <= j < |b| && b[j] == a[i];
      assert x.at <= y.at;
    }
    if !(key in reg && y == reg[key]) {
      var i :| 0 <= i < |b| && b[i].key == key && y == Cell(Some(b[i].worktree), b[i].at) && (key in reg ==> reg[key].at < y.at);
      var j :| 0 <= j < |a| && a[j] == b[i];
      assert y.at <= x.at;
    }
  }

  // ----- watermarks on disk -----

  /** The saved list holds each watermark once. */
  ghost predicate Lists(observations: seq<(string, string, string)>, marks: Marks) {
    && (forall i :: 0 <= i < |observations| ==>
          (observations[i].0, observations[i].1) in marks && marks[(observations[i].0, observations[i].1)] == observations[i].2)
    && (forall i, j :: 0 <= i < j < |observations| ==>
          (observations[i].0, observations[i].1) != (observations[j].0, observations[j].1))
    && (forall key :: key in marks ==> exists i :: 0 <= i < |observations| && (observations[i].0, observations[i].1) == key)
  }

  method SaveMarks(env: Env, marks: Marks) returns (saved: SavedMarks)
    ensures saved.schema == MARKS_SCHEMA && saved.repository == env.repository
    ensures Lists(saved.observations, marks) && |saved.observations| == |marks|
  {
    var observations: seq<(string, string, string)> := [];
    var left := marks.Keys;
    while left != {}
      invariant left <= marks.Keys && |observations| + |left| == |marks.Keys|
      invariant forall i :: 0 <= i < |observations| ==>
                  var key := (observations[i].0, observations[i].1);
                  key in marks && key !in left && marks[key] == observations[i].2
      invariant forall i, j :: 0 <= i < j < |observations| ==>
                  (observations[i].0, observations[i].1) != (observations[j].0, observations[j].1)
      invariant forall key :: key in marks && key !in left ==>
                  exists i :: 0 <= i < |observations| && (observations[i].0, observations[i].1) == key
      decreases left
    {
      var key :| key in left;
      ghost var before := observations;
      observations := observations + [(key.0, key.1, marks[key])];
      left := left - {key};
      forall k | k in marks && k !in left
        ensures exists i :: 0 <= i < |observations| && (observations[i].0, observations[i].1) == k
      {
        if k == key {
          assert (observations[|before|].0, observations[|before|].1) == k;
        } else {
          var i :| 0 <= i < |before| && (before[i].0, before[i].1) == k;
          assert observations[i] == before[i];
        }
      }
    }
    assert marks.Keys == marks.Keys - left;
    return SavedMarks(MARKS_SCHEMA, env.repository, observations);
  }

  predicate ValidMark(env: Env, o: (string, string, string)) {
    ValidName(o.0) && ValidName(o.1) && env.instant(o.2).Some?
  }

  function LoadMarks(env: Env, observations: seq<(string, string, string)>): Result<Marks, Error> {
    if observations == [] then Ok(map[])
    else
      var last := observations[|observations| - 1];
      match LoadMarks(env, observations[..|observations| - 1])
      case Err(e) => Err(e)
      case Ok(marks) =>
        if !ValidMark(env, last) || (last.0, last.1) in marks then Err(BadMarks)
        else Ok(marks[(last.0, last.1) := last.2])
  }

  /** Records are a lower bound for the watermarks of their tasks. */
  function RaiseMarks(env: Env, marks: Marks, records: seq<Observation>): Marks {
    if records == [] then marks
    else
      var r := records[|records| - 1];
      var m := RaiseMarks(env, marks, records[..|records| - 1]);
      if KeyOf(r) in m && At(env, m[KeyOf(r)]) >= At(env, r.observedAt) then m else m[KeyOf(r) := r.observedAt]
  }

  function ParseMarks(env: Env, saved: Option<SavedMarks>, records: seq<Observation>): Result<Marks, Error> {
    match saved
    case None => Ok(RaiseMarks(env, map[], records))
    case Some(s) =>
      if env.savedLength(s) > MAX_BINDING_BYTES then Err(BadMarks)
      else if s.schema != MARKS_SCHEMA || s.repository != env.repository || |s.observations| > MAX_BINDING_RECORDS then Err(BadMarks)
      else match LoadMarks(env, s.observations)
        case Err(e) => Err(e)
        case Ok(marks) => Ok(RaiseMarks(env, marks, records))
  }

  lemma ListsPrefix(observations: seq<(string, string, string)>, marks: Marks)
    requires observations != [] && Lists(observations, marks)
    ensures var n := |observations| - 1; var key := (observations[n].0, observations[n].1);
            && Lists(observations[..n], marks - {key})
            && (marks - {key})[key := observations[n].2] == marks
  {
    var n := |observations| - 1;
    var fewer := marks - {(observations[n].0, observations[n].1)};
    forall k | k in fewer
      ensures exists i :: 0 <= i < n && (observations[..n][i].0, observations[..n][i].1) == k
    {
      var i :| 0 <= i < |observations| && (observations[i].0, observations[i].1) == k;
      assert observations[..n][i] == observations[i];
    }
  }

  lemma {:induction false} LoadListed(env: Env, observations: seq<(string, string, string)>, marks: Marks)
    requires Lists(observations, marks)
    requires forall i :: 0 <= i < |observations| ==> ValidMark(env, observations[i])
    ensures LoadMarks(env, observations) == Ok(marks)
    decreases |observations|
  {
    if observations == [] {
      assert marks == map[];
    } else {
      var n := |observations| - 1;
      ListsPrefix(observations, marks);
      LoadListed(env, observations[..n], marks - {(observations[n].0, observations[n].1)});
    }
  }

  /** Records of one task have increasing instants, so none is newer than the latest. */
  lemma {:induction false} EarlierIsOlder(env: Env, records: seq<Observation>, i: nat)
    requires ValidJournal(env, records) && i < |records|
    ensures Latest(records, KeyOf(records[i])).Some?
    ensures At(env, records[i].observedAt) <= At(env, Latest(records, KeyOf(records[i])).value.observedAt)
  {
    var n := |records| - 1;
    if i < n {
      ValidPrefix(env, records, n);
      EarlierIsOlder(env, records[..n], i);
      assert Follows(env, Latest(records[..n], KeyOf(records[n])), records[n]);
    }
  }

  lemma {:induction false} RaiseNothing(env: Env, s: State, n: nat)
    requires Consistent(env, s) && n <= |s.records|
    ensures RaiseMarks(env, s.marks, s.records[..n]) == s.marks
  {
    if n > 0 {
      assert s.records[..n][..n - 1] == s.records[..n - 1];
      RaiseNothing(env, s, n - 1);
      EarlierIsOlder(env, s.records, n - 1);
    }
  }

  /** Saved watermarks are read back unchanged beside the journal they belong to. */
  lemma ParseSaved(env: Env, s: State, saved: SavedMarks)
    requires Consistent(env, s) && Lists(saved.observations, s.marks)
    requires saved.schema == MARKS_SCHEMA && saved.repository == env.repository
    requires |saved.observations| <= MAX_BINDING_RECORDS && env.savedLength(saved) <= MAX_BINDING_BYTES
    ensures ParseMarks(env, Some(saved), s.records) == Ok(s.marks)
  {
    LoadListed(env, saved.observations, s.marks);
    RaiseNothing(env, s, |s.records|);
    assert s.records[..|s.records|] == s.records;
  }

  // ----- the store -----

  /** Both files as they would be written are within the limits, and would be read back. */
  ghost predicate WithinLimits(env: Env, s: State) {
    && |s.records| <= MAX_BINDING_RECORDS && |EncodeRecords(env, s.records)| <= MAX_BINDING_BYTES
    && |s.marks| <= MAX_BINDING_RECORDS && MarksFit(env, s.marks)
  }

  ghost predicate MarksFit(env: Env, marks: Marks) {
    forall observations :: Lists(observations, marks) ==>
      env.savedLength(SavedMarks(MARKS_SCHEMA, env.repository, observations)) <= MAX_BINDING_BYTES
  }

  lemma ListedOnce(a: seq<(string, string, string)>, b: seq<(string, string, string)>, marks: Marks)
    requires Lists(a, marks) && Lists(b, marks)
    ensures Distinct(a) && forall o :: o in a ==> o in b
  {
    forall o | o in a
      ensures o in b
    {
      var i :| 0 <= i < |a| && a[i] == o;
      var key := (o.0, o.1);
      assert key in marks;
      var j :| 0 <= j < |b| && (b[j].0, b[j].1) == key;
      assert b[j] == o;
    }
  }

  /** One list decides whether the watermarks fit. */
  lemma FitDecided(env: Env, saved: SavedMarks, marks: Marks)
    requires env.Lawful() && Lists(saved.observations, marks)
    requires saved.schema == MARKS_SCHEMA && saved.repository == env.repository
    ensures env.savedLength(saved) <= MAX_BINDING_BYTES <==> MarksFit(env, marks)
  {
    forall observations | Lists(observations, marks)
      ensures env.savedLength(SavedMarks(MARKS_SCHEMA, env.repository, observations)) == env.savedLength(saved)
    {
      ListedOnce(observations, saved.observations, marks);
      ListedOnce(saved.observations, observations, marks);
      SameElements(observations, saved.observations);
      assert SameButOrder(SavedMarks(MARKS_SCHEMA, env.repository, observations), saved);
    }
  }

  method TotalBytes(env: Env, records: seq<Observation>) returns (total: nat)
    ensures total == |EncodeRecords(env, records)|
  {
    total := 0;
    for i := 0 to |records|
      invariant total == |EncodeRecords(env, records[..i])|
    {
      assert records[..i + 1][..i] == records[..i];
      total := total + |env.encode(records[i])| + 1;
    }
    assert records[..|records|] == records;
  }

  /** The loop of `update_bindings`. */
  method ObserveEach(env: Env, s: State, associations: seq<(string, string, string)>, observedAt: string)
    returns (next: State, changed: bool, additions: Bytes)
    ensures next == ObserveAll(env, s, associations, observedAt)
    ensures !changed ==> next == s
    ensures EncodeRecords(env, next.records) == EncodeRecords(env, s.records) + additions
  {
    var records, marks := s.records, s.marks;
    changed, additions := false, [];
    for i := 0 to |associations|
      invariant State(records, marks) == ObserveAll(env, s, associations[..i], observedAt)
      invariant !changed ==> records == s.records && marks == s.marks
      invariant EncodeRecords(env, records) == EncodeRecords(env, s.records) + additions
    {
      var a := associations[i];
      var key := (a.0, a.1);
      assert associations[..i + 1][..i] == associations[..i];
      if !(key in marks && At(env, marks[key]) >= At(env, observedAt)) {
        var previous := FindLatest(records, key);
        marks := marks[key := observedAt];
        changed := true;
        if !(previous.Some? && previous.value.worktree == a.2) {
          var record := NewRecord(env, previous, a, observedAt);
          assert (records + [record])[..|records|] == records;
          AssociateLine(EncodeRecords(env, s.records) + additions, env.encode(record), []);
          AppendLine(EncodeRecords(env, s.records), additions, env.encode(record));
          additions := additions + env.encode(record) + [NEWLINE];
          records := records + [record];
        }
      }
    }
    assert associations[..|associations|] == associations;
    next := State(records, marks);
  }

  /** What an update leaves to write: the state, whether the watermarks changed, and the new lines of the journal. */
  datatype Update = Update(next: State, saved: SavedMarks, changed: bool, additions: Bytes)

  ghost predicate UpdateOf(env: Env, s: State, next: State, u: Update) {
    && u.next == next && (!u.changed ==> next == s)
    && EncodeRecords(env, next.records) == EncodeRecords(env, s.records) + u.additions
    && u.saved.schema == MARKS_SCHEMA && u.saved.repository == env.repository
    && Lists(u.saved.observations, next.marks) && |u.saved.observations| == |next.marks|
  }

  /** `update_bindings`: nothing is written here, and there is nothing to write exactly when a limit is exceeded. */
  method UpdateBindings(env: Env, s: State, associations: seq<(string, string, string)>, observedAt: string)
    returns (r: Result<Update, Error>)
    requires env.Lawful()
    ensures r.Ok? <==> WithinLimits(env, ObserveAll(env, s, associations, observedAt))
    ensures r.Ok? ==> UpdateOf(env, s, ObserveAll(env, s, associations, observedAt), r.value)
    ensures r.Err? ==> r.error == LimitReached
  {
    var next, changed, additions := ObserveEach(env, s, associations, observedAt);
    var total := TotalBytes(env, next.records);
    var saved := SaveMarks(env, next.marks);
    FitDecided(env, saved, next.marks);
    if |next.records| > MAX_BINDING_RECORDS || total > MAX_BINDING_BYTES
       || |next.marks| > MAX_BINDING_RECORDS || env.savedLength(saved) > MAX_BINDING_BYTES {
      return Err(LimitReached);
    }
    r := Ok(Update(next, saved, changed, additions));
  }

  lemma AppendLine(a: Bytes, b: Bytes, line: Bytes)
    ensures a + b + line + [NEWLINE] == a + (b + line + [NEWLINE])
  {
  }

  method FindLatest(records: seq<Observation>, key: Key) returns (r: Option<Observation>)
    ensures r == Latest(records, key)
  {
    var n := |records|;
    assert records[..n] == records;
    while n > 0
      invariant n <= |records| && Latest(records[..n], key) == Latest(records, key)
    {
      assert records[..n][..n - 1] == records[..n - 1];
      if KeyOf(records[n - 1]) == key {
        return Some(records[n - 1]);
      }
      n := n - 1;
    }
    return None;
  }

  /** The two files stand for `s`: both parse, and what they parse to is consistent. */
  ghost predicate Stands(env: Env, journal: Bytes, saved: Option<SavedMarks>, s: State) {
    && Consistent(env, s)
    && journal == EncodeRecords(env, s.records)
    && |s.records| <= MAX_BINDING_RECORDS && |journal| <= MAX_BINDING_BYTES
    && ParseMarks(env, saved, s.records) == Ok(s.marks)
  }

  class BindingStore {
    const env: Env
    var journal: Bytes
    var saved: Option<SavedMarks>

    /** A repository nobody has reported on. */
    constructor (env: Env)
      ensures this.env == env && Stands(env, journal, saved, State([], map[]))
    {
      this.env, journal, saved := env, [], None;
    }

    /** `observe_task_bindings` under its lock: a report is taken unless it is malformed or would exceed a limit. */
    method Report(associations: seq<(string, string, string)>, observedAt: string, ghost s: State)
      returns (r: Result<seq<Observation>, Error>)
      requires env.Lawful() && Stands(env, journal, saved, s)
      modifies this
      ensures r.Ok? <==> Accepts(env, s, Inventory(associations, observedAt))
      ensures r.Ok? ==> r.value == ObserveAll(env, s, associations, observedAt).records
      ensures r.Ok? ==> Stands(env, journal, saved, ObserveAll(env, s, associations, observedAt))
      ensures r.Err? ==> journal == old(journal) && saved == old(saved)
      ensures r.Err? ==> r.error == if ValidReport(env, associations, observedAt) then LimitReached else BadReport
    {
      ParseEncoded(env, s.records);
      var records := ParseBindingRecords(env, journal);
      if associations == [] {
        return records;
      }
      if !ValidReport(env, associations, observedAt) {
        return Err(BadReport);
      }
      var marks := ParseMarks(env, saved, records.value);
      var update := UpdateBindings(env, State(records.value, marks.value), associations, observedAt);
      if update.Err? {
        return Err(update.error);
      }
      var Update(next, nextSaved, changed, additions) := update.value;
      UpdateStands(env, s, Inventory(associations, observedAt), journal, saved, update.value);
      if |journal| + |additions| > MAX_BINDING_BYTES {
        return Err(LimitReached);
      }
      if changed {
        saved := Some(nextSaved);
      }
      if additions != [] {
        journal := journal + additions;
      }
      return Ok(next.records);
    }

    /**
     * Any run of reports, each of them to its end. The files end up standing for a state whose register is one write per
     * association of the accepted reports, in their order; refused reports leave no trace, and only malformed ones and
     * those over a limit are refused.
     */
    method ReportAll(reports: seq<Inventory>, ghost s0: State) returns (accepted: seq<bool>, ghost s: State)
      requires env.Lawful() && Stands(env, journal, saved, s0)
      modifies this
      ensures Stands(env, journal, saved, s) && s == After(env, s0, reports) && Judged(env, s0, reports, accepted)
      ensures RegisterOf(env, s) == PutAll(RegisterOf(env, s0), Delivered(env, reports, accepted))
    {
      accepted, s := [], s0;
      for i := 0 to |reports|
        invariant Stands(env, journal, saved, s) && s == After(env, s0, reports[..i])
        invariant |accepted| == i && Judged(env, s0, reports[..i], accepted)
        invariant RegisterOf(env, s) == PutAll(RegisterOf(env, s0), Delivered(env, reports[..i], accepted))
      {
        var r := Report(reports[i].associations, reports[i].observedAt, s);
        DeliverOne(env, s0, s, reports, i, accepted, r.Ok?);
        JudgeOne(env, s0, reports, i, accepted, r.Ok?);
        if r.Ok? {
          s := ObserveAll(env, s, reports[i].associations, reports[i].observedAt);
        }
        accepted := accepted + [r.Ok?];
      }
      assert reports[..|reports|] == reports;
    }
  }

  /** One report of a host: where its tasks are, and when that was observed. */
  datatype Inventory = Inventory(associations: seq<(string, string, string)>, observedAt: string)

  /** An empty report asks for nothing; any other has to be well formed and to leave the files within their limits. */
  ghost predicate Accepts(env: Env, s: State, i: Inventory) {
    i.associations == []
    || (ValidReport(env, i.associations, i.observedAt) && WithinLimits(env, ObserveAll(env, s, i.associations, i.observedAt)))
  }

  /** Writing an update leaves files that stand for the state after it. */
  lemma UpdateStands(env: Env, s: State, i: Inventory, journal: Bytes, saved: Option<SavedMarks>, u: Update)
    requires env.Lawful() && Stands(env, journal, saved, s) && ValidReport(env, i.associations, i.observedAt)
    requires var next := ObserveAll(env, s, i.associations, i.observedAt); WithinLimits(env, next) && UpdateOf(env, s, next, u)
    ensures |journal| + |u.additions| <= MAX_BINDING_BYTES
    ensures Stands(env, journal + u.additions, if u.changed then Some(u.saved) else saved, u.next)
    ensures u.additions == [] ==> journal + u.additions == journal
  {
    ObserveAllConsistent(env, s, i.associations, i.observedAt);
    FitDecided(env, u.saved, u.next.marks);
    ParseSaved(env, u.next, u.saved);
  }

  /** The state after a run of reports. */
  ghost function After(env: Env, s: State, reports: seq<Inventory>): State {
    if reports == [] then s
    else
      var n := |reports| - 1;
      var before := After(env, s, reports[..n]);
      if Accepts(env, before, reports[n]) then ObserveAll(env, before, reports[n].associations, reports[n].observedAt) else before
  }

  /** A report is accepted exactly if the state it meets lets it be. */
  ghost predicate Judged(env: Env, s: State, reports: seq<Inventory>, accepted: seq<bool>) {
    && |accepted| == |reports|
    && forall i :: 0 <= i < |reports| ==> (accepted[i] <==> Accepts(env, After(env, s, reports[..i]), reports[i]))
  }

  lemma JudgeOne(env: Env, s0: State, reports: seq<Inventory>, i: nat, accepted: seq<bool>, ok: bool)
    requires i < |reports| && Judged(env, s0, reports[..i], accepted)
    requires ok <==> Accepts(env, After(env, s0, reports[..i]), reports[i])
    ensures Judged(env, s0, reports[..i + 1], accepted + [ok])
    ensures var s := After(env, s0, reports[..i]);
            After(env, s0, reports[..i + 1]) == if ok then ObserveAll(env, s, reports[i].associations, reports[i].observedAt) else s
  {
    var now := reports[..i + 1];
    assert now[..i] == reports[..i];
    forall k | 0 <= k < i
      ensures now[..k] == reports[..i][..k]
    {
    }
  }

  /** The associations of the accepted reports, one after the other. */
  function Delivered(env: Env, reports: seq<Inventory>, accepted: seq<bool>): seq<Report>
    requires |accepted| == |reports|
  {
    if reports == [] then []
    else
      var n := |reports| - 1;
      Delivered(env, reports[..n], accepted[..n])
      + if accepted[n] then ReportsOf(env, reports[n].associations, reports[n].observedAt) else []
  }

  lemma {:induction false} PutAllConcat(reg: Register, xs: seq<Report>, ys: seq<Report>)
    ensures PutAll(reg, xs + ys) == PutAll(PutAll(reg, xs), ys)
    decreases |ys|
  {
    if ys == [] {
      assert xs + ys == xs;
    } else {
      var n := |ys| - 1;
      assert (xs + ys)[..|xs + ys| - 1] == xs + ys[..n];
      PutAllConcat(reg, xs, ys[..n]);
    }
  }

  lemma DeliverOne(env: Env, s0: State, s: State, reports: seq<Inventory>, i: nat, accepted: seq<bool>, ok: bool)
    requires i < |reports| && |accepted| == i
    requires RegisterOf(env, s) == PutAll(RegisterOf(env, s0), Delivered(env, reports[..i], accepted))
    ensures RegisterOf(env, if ok then ObserveAll(env, s, reports[i].associations, reports[i].observedAt) else s)
         == PutAll(RegisterOf(env, s0), Delivered(env, reports[..i + 1], accepted + [ok]))
  {
    var now, oks, before := reports[..i + 1], accepted + [ok], Delivered(env, reports[..i], accepted);
    assert now[..i] == reports[..i] && oks[..i] == accepted && now[i] == reports[i] && oks[i] == ok;
    assert Delivered(env, now, oks)
        == before + if ok then ReportsOf(env, reports[i].associations, reports[i].observedAt) else [];
    assert before + [] == before;
    ObserveAllRefinesPutAll(env, s, reports[i].associations, reports[i].observedAt);
    PutAllConcat(RegisterOf(env, s0), Delivered(env, reports[..i], accepted),
                 ReportsOf(env, reports[i].associations, reports[i].observedAt));
  }
  // ----- a report that was cut short -----

  /** What the files stand for when the watermarks were replaced and the journal was not yet extended. */
  function HalfReported(env: Env, s: State, i: Inventory): State {
    State(s.records, ObserveAll(env, s, i.associations, i.observedAt).marks)
  }

  /** Marks never move back, and those of the report's tasks have reached it. */
  lemma {:induction false} MarksReached(env: Env, s: State, associations: seq<(string, string, string)>, observedAt: string)
    ensures var marks := ObserveAll(env, s, associations, observedAt).marks;
            && (forall k :: k in s.marks ==> k in marks && At(env, s.marks[k]) <= At(env, marks[k]))
            && (forall a :: a in associations ==> (a.0, a.1) in marks && At(env, observedAt) <= At(env, marks[(a.0, a.1)]))
  {
    if associations != [] {
      var n := |associations| - 1;
      MarksReached(env, s, associations[..n], observedAt);
      assert associations == associations[..n] + [associations[n]];
    }
  }

  lemma {:induction false} NothingNewer(env: Env, s: State, associations: seq<(string, string, string)>, observedAt: string)
    requires forall a :: a in associations ==> (a.0, a.1) in s.marks && At(env, observedAt) <= At(env, s.marks[(a.0, a.1)])
    ensures ObserveAll(env, s, associations, observedAt) == s
  {
    if associations != [] {
      var n := |associations| - 1;
      NothingNewer(env, s, associations[..n], observedAt);
      assert associations[n] in associations;
    }
  }

  /** Either a task's latest record stays, or the report moved the task elsewhere and its mark has reached the report. */
  ghost predicate MovedOrNot(env: Env, s: State, next: State, observedAt: string) {
    && (forall k :: Latest(next.records, k) == Latest(s.records, k) || Moved(env, s, next, observedAt, k))
    && (next.records != s.records ==> exists k :: Moved(env, s, next, observedAt, k))
  }

  ghost predicate Moved(env: Env, s: State, next: State, observedAt: string, k: Key) {
    && WorktreeOf(Latest(next.records, k)) != WorktreeOf(Latest(s.records, k))
    && k in next.marks && At(env, observedAt) <= At(env, next.marks[k])
  }

  lemma {:induction false} ReportMoves(env: Env, s: State, associations: seq<(string, string, string)>, observedAt: string)
    ensures MovedOrNot(env, s, ObserveAll(env, s, associations, observedAt), observedAt)
  {
    if associations != [] {
      var n := |associations| - 1;
      ReportMoves(env, s, associations[..n], observedAt);
      MovesOne(env, s, ObserveAll(env, s, associations[..n], observedAt), associations[n], observedAt);
    }
  }

  lemma MovesOne(env: Env, s: State, mid: State, a: (string, string, string), observedAt: string)
    requires MovedOrNot(env, s, mid, observedAt)
    ensures MovedOrNot(env, s, Observe(env, mid, a, observedAt), observedAt)
  {
    var key, next := (a.0, a.1), Observe(env, mid, a, observedAt);
    if next.records != mid.records {
      var r := NewRecord(env, Latest(mid.records, key), a, observedAt);
      forall k
        ensures Latest(next.records, k) == if KeyOf(r) == k then Some(r) else Latest(mid.records, k)
      {
        LatestSnoc(mid.records, r, k);
      }
      assert !Moved(env, s, mid, observedAt, key);
      assert Moved(env, s, next, observedAt, key);
    } else if mid.records != s.records {
      var k :| Moved(env, s, mid, observedAt, k);
      assert Moved(env, s, next, observedAt, k);
    }
  }

  lemma HalfStands(env: Env, s: State, i: Inventory, journal: Bytes, saved: Option<SavedMarks>, u: Update)
    requires env.Lawful() && Stands(env, journal, saved, s) && ValidReport(env, i.associations, i.observedAt)
    requires var next := ObserveAll(env, s, i.associations, i.observedAt); WithinLimits(env, next) && UpdateOf(env, s, next, u)
    ensures Stands(env, journal, Some(u.saved), HalfReported(env, s, i))
  {
    var half := HalfReported(env, s, i);
    MarksReached(env, s, i.associations, i.observedAt);
    ObserveAllConsistent(env, s, i.associations, i.observedAt);
    assert Consistent(env, half);
    FitDecided(env, u.saved, half.marks);
    ParseSaved(env, half, u.saved);
  }

  /**
   * A report cut short between its two writes leaves files that are read without complaint, and repeating it changes
   * nothing. So its register comes about if and only if the report had no move to record.
   */
  lemma HalfReportStays(env: Env, s: State, i: Inventory, journal: Bytes, saved: Option<SavedMarks>, u: Update)
    requires env.Lawful() && Stands(env, journal, saved, s) && ValidReport(env, i.associations, i.observedAt)
    requires var next := ObserveAll(env, s, i.associations, i.observedAt); WithinLimits(env, next) && UpdateOf(env, s, next, u)
    ensures var half, next := HalfReported(env, s, i), ObserveAll(env, s, i.associations, i.observedAt);
            && Stands(env, journal, Some(u.saved), half)
            && ObserveAll(env, half, i.associations, i.observedAt) == half
            && (RegisterOf(env, half) == RegisterOf(env, next) <==> next.records == s.records)
  {
    var half, next := HalfReported(env, s, i), ObserveAll(env, s, i.associations, i.observedAt);
    MarksReached(env, s, i.associations, i.observedAt);
    HalfStands(env, s, i, journal, saved, u);
    NothingNewer(env, half, i.associations, i.observedAt);
    ReportMoves(env, s, i.associations, i.observedAt);
    if next.records != s.records {
      var k :| Moved(env, s, next, i.observedAt, k);
      assert RegisterOf(env, half)[k] != RegisterOf(env, next)[k];
    }
  }
  /** The first report of a repository is such a case: cut short, it leaves the task without a worktree, however often it is repeated. */
  lemma FirstReportLost(env: Env, a: (string, string, string), observedAt: string)
    ensures var start, i := State([], map[]), Inventory([a], observedAt);
            var half, key := HalfReported(env, start, i), (a.0, a.1);
            && key in half.marks && RegisterOf(env, half)[key].worktree == None
            && RegisterOf(env, ObserveAll(env, half, [a], observedAt))[key].worktree == None
            && RegisterOf(env, ObserveAll(env, start, [a], observedAt))[key].worktree == Some(a.2)
  {
    var start, i := State([], map[]), Inventory([a], observedAt);
    assert [a][..0] == [];
    MarksReached(env, start, [a], observedAt);
    NothingNewer(env, HalfReported(env, start, i), [a], observedAt);
    LatestSnoc([], NewRecord(env, None, a, observedAt), (a.0, a.1));
  }
}
