/** Replay, the bounded tail read and the journal index with its Bloom filter (src/journal.rs). */
module JournalIndexing {
  import opened Prelude
  import opened Events
  import opened JournalCodec

  const MAX_INTENT_BYTES: nat := 1024 * 1024
  const MAX_INDEX_BYTES: nat := 256 * 1024
  const INDEX_VERSION: nat := 1
  const BLOOM_WORDS: nat := 4096
  const BLOOM_BITS: nat := 262_144  // BLOOM_WORDS * 64

  // ----- replay -----

  function Replay(c: Codec, session: string, bytes: Bytes): Result<seq<Record>, Error> {
    if |bytes| > MAX_JOURNAL_BYTES then Err(JournalTooLarge)
    else match Parse(c, bytes)
      case Err(e) => Err(e)
      case Ok((records, completeLen)) =>
        if completeLen != |bytes| then Err(MissingNewline)
        else if |records| > MAX_SESSION_RECORDS then Err(TooManyRecords)
        else if exists r :: r in records && r.event.context.session != session then Err(SessionMismatch)
        else Ok(records)
  }

  /** A history one session journal may hold. */
  ghost predicate History(c: Codec, session: string, rs: seq<Record>) {
    && Chain(c, rs) && Sized(c, rs)
    && (forall i :: 0 <= i < |rs| ==> rs[i].event.context.session == session)
    && |rs| <= MAX_SESSION_RECORDS
    && |EncodeAll(c, rs)| <= MAX_JOURNAL_BYTES
  }

  /** Replay accepts exactly the encodings of valid histories of the session. */
  lemma ReplayExact(c: Codec, session: string, bytes: Bytes, rs: seq<Record>)
    requires c.Lawful()
    ensures Replay(c, session, bytes) == Ok(rs) <==> History(c, session, rs) && bytes == EncodeAll(c, rs)
  {
    assert bytes[..|bytes|] == bytes && bytes[|bytes|..] == [];
    ParseExact(c, bytes, rs, |bytes|);
    assert (exists r :: r in rs && r.event.context.session != session) <==>
           !(forall i :: 0 <= i < |rs| ==> rs[i].event.context.session == session);
  }

  // ----- the bounded tail read -----

  function ReadTail(c: Codec, bytes: Bytes): Result<Record, Error> {
    if |bytes| == 0 || |bytes| > MAX_JOURNAL_BYTES then Err(TailLength)
    else
      var start := if |bytes| > MAX_RECORD_BYTES then |bytes| - MAX_RECORD_BYTES else 0;
      var window := bytes[start..];
      if window[|window| - 1] != NEWLINE then Err(MissingNewline)
      else
        var withoutFinal := window[..|window| - 1];
        var lineStart := CompleteLength(withoutFinal);
        if start > 0 && lineStart == 0 then Err(RecordTooLarge)
        else ParseRecord(c, withoutFinal[lineStart..])
  }

  /** The window holds the last record together with the newline before it, or the whole file. */
  predicate TailReadable(c: Codec, rs: seq<Record>)
    requires rs != []
  {
    |EncodeAll(c, rs)| <= MAX_RECORD_BYTES || |c.encode(rs[|rs| - 1])| <= MAX_RECORD_BYTES - 2
  }

  lemma TailWindow(pre: Bytes, line: Bytes)
    requires WholeLines(pre) && NoNewline(line)
    ensures CompleteLength(pre + line) == |pre|
  {
    var all := pre + line;
    assert all[..|pre|] == pre && all[|pre|..] == line;
    CompleteLengthUnique(all, |pre|);
  }

  lemma TailSplit(c: Codec, rs: seq<Record>) returns (pre: Bytes, line: Bytes)
    requires c.Lawful() && Chain(c, rs) && Sized(c, rs) && rs != []
    ensures EncodeAll(c, rs) == pre + line + [NEWLINE]
    ensures line == c.encode(rs[|rs| - 1]) && WholeLines(pre) && NoNewline(line)
    ensures ParseRecord(c, line) == Ok(rs[|rs| - 1])
  {
    var n := |rs| - 1;
    pre, line := EncodeAll(c, rs[..n]), c.encode(rs[n]);
    assert rs == rs[..n] + [rs[n]];
    EncodeAllSnoc(c, rs[..n], rs[n]);
    EncodedWhole(c, rs[..n]);
    assert LinkedAt(c, rs, n);
  }

  /**
   * On a stored history the tail read returns the last record exactly when the window reaches the
   * newline before it; otherwise it refuses.
   */
  lemma TailExact(c: Codec, rs: seq<Record>)
    requires c.Lawful() && Chain(c, rs) && Sized(c, rs) && rs != []
    requires |EncodeAll(c, rs)| <= MAX_JOURNAL_BYTES
    ensures ReadTail(c, EncodeAll(c, rs)) ==
            if TailReadable(c, rs) then Ok(rs[|rs| - 1]) else Err(RecordTooLarge)
  {
    var pre, line := TailSplit(c, rs);
    if |line| + 1 <= MAX_RECORD_BYTES || |EncodeAll(c, rs)| <= MAX_RECORD_BYTES {
      WindowReachesLine(c, pre, line);
    } else {
      WindowInsideLine(c, pre, line);
    }
  }

  /**
   * In a stored history the window always reaches: the limit on events keeps every record far below the
   * limit on records.
   */
  lemma TailReachable(c: Codec, session: string, rs: seq<Record>)
    requires c.Lawful() && History(c, session, rs) && rs != []
    ensures TailReadable(c, rs) && ReadTail(c, EncodeAll(c, rs)) == Ok(rs[|rs| - 1])
  {
    LastIsSmall(c, rs);
    TailExact(c, rs);
  }

  lemma LastIsSmall(c: Codec, rs: seq<Record>)
    requires c.Lawful() && Chain(c, rs) && Sized(c, rs) && 0 < |rs| <= MAX_SESSION_RECORDS
    ensures |c.encode(rs[|rs| - 1])| <= MAX_RECORD_BYTES - 2
  {
    var n := |rs| - 1;
    assert LinkedAt(c, rs, n) && (n > 0 ==> LinkedAt(c, rs, n - 1));
    assert SmallFields(rs[n]) && c.Fits(rs[n].event);
  }

  lemma WindowReachesLine(c: Codec, pre: Bytes, line: Bytes)
    requires WholeLines(pre) && NoNewline(line) && |pre + line + [NEWLINE]| <= MAX_JOURNAL_BYTES
    requires |line| + 1 <= MAX_RECORD_BYTES || |pre + line + [NEWLINE]| <= MAX_RECORD_BYTES
    ensures ReadTail(c, pre + line + [NEWLINE]) ==
            if |pre + line + [NEWLINE]| <= MAX_RECORD_BYTES || |line| <= MAX_RECORD_BYTES - 2 then ParseRecord(c, line)
            else Err(RecordTooLarge)
  {
    var bytes := pre + line + [NEWLINE];
    var start := if |bytes| > MAX_RECORD_BYTES then |bytes| - MAX_RECORD_BYTES else 0;
    var cut := pre[start..];
    assert bytes[start..] == cut + line + [NEWLINE];
    assert bytes[start..][..|bytes| - start - 1] == cut + line;
    TailWindow(cut, line);
    assert (cut + line)[|cut|..] == line;
  }

  lemma WindowInsideLine(c: Codec, pre: Bytes, line: Bytes)
    requires NoNewline(line) && |line| + 1 > MAX_RECORD_BYTES && |pre + line + [NEWLINE]| <= MAX_JOURNAL_BYTES
    ensures ReadTail(c, pre + line + [NEWLINE]) == Err(RecordTooLarge)
  {
    var bytes := pre + line + [NEWLINE];
    var start := |bytes| - MAX_RECORD_BYTES;
    var cut := line[start - |pre|..];
    assert bytes[start..] == cut + [NEWLINE];
    assert bytes[start..][..|bytes| - start - 1] == cut;
    assert [] + cut == cut;
    TailWindow([], cut);
  }

  // ----- the index -----

  datatype IndexData = IndexData(
    version: nat, journalBytes: nat, records: nat, lastRecord: Option<Record>, bloom: seq<bv64>)

  function Positions(c: Codec, id: string): (ps: seq<nat>)
    ensures |ps| == 4 && forall i :: 0 <= i < 4 ==> ps[i] < BLOOM_BITS
  {
    var (a, b, d, e) := c.idWords(id);
    [a % BLOOM_BITS, b % BLOOM_BITS, d % BLOOM_BITS, e % BLOOM_BITS]
  }

  function Mask(p: nat): bv64 {
    1 << (p % 64)
  }

  predicate HasBit(bloom: seq<bv64>, p: nat)
    requires |bloom| == BLOOM_WORDS && p < BLOOM_BITS
  {
    bloom[p / 64] & Mask(p) != 0
  }

  function SetBit(bloom: seq<bv64>, p: nat): (r: seq<bv64>)
    requires |bloom| == BLOOM_WORDS && p < BLOOM_BITS
    ensures |r| == BLOOM_WORDS
  {
    bloom[p / 64 := bloom[p / 64] | Mask(p)]
  }

  lemma WordBits(w: bv64, i: nat, j: nat)
    requires i < 64 && j < 64
    ensures (w | (1 << i)) & (1 << j) != 0 <==> i == j || w & (1 << j) != 0
  {
    SingleBits(i, j);
    JoinedBits(w, 1 << i, 1 << j);
  }

  lemma JoinedBits(w: bv64, a: bv64, b: bv64)
    ensures (w | a) & b == (w & b) | (a & b)
  {
  }

  lemma SingleBits(i: nat, j: nat)
    requires i < 64 && j < 64
    ensures (1 as bv64 << i) & (1 as bv64 << j) == if i == j then 1 as bv64 << j else 0
    ensures 1 as bv64 << j != 0
  {
  }

  /** Setting one bit changes that bit and no other. */
  lemma SetBitExact(bloom: seq<bv64>, p: nat, q: nat)
    requires |bloom| == BLOOM_WORDS && p < BLOOM_BITS && q < BLOOM_BITS
    ensures HasBit(SetBit(bloom, p), q) <==> p == q || HasBit(bloom, q)
  {
    if p / 64 == q / 64 {
      WordBits(bloom[p / 64], p % 64, q % 64);
    }
  }

  function InsertId(c: Codec, bloom: seq<bv64>, id: string): (r: seq<bv64>)
    requires |bloom| == BLOOM_WORDS
    ensures |r| == BLOOM_WORDS
  {
    var ps := Positions(c, id);
    SetBit(SetBit(SetBit(SetBit(bloom, ps[0]), ps[1]), ps[2]), ps[3])
  }

  lemma InsertIdExact(c: Codec, bloom: seq<bv64>, id: string, q: nat)
    requires |bloom| == BLOOM_WORDS && q < BLOOM_BITS
    ensures HasBit(InsertId(c, bloom, id), q) <==> q in Positions(c, id) || HasBit(bloom, q)
  {
    var ps := Positions(c, id);
    var b1 := SetBit(bloom, ps[0]);
    var b2 := SetBit(b1, ps[1]);
    var b3 := SetBit(b2, ps[2]);
    SetBitExact(bloom, ps[0], q);
    SetBitExact(b1, ps[1], q);
    SetBitExact(b2, ps[2], q);
    SetBitExact(b3, ps[3], q);
  }

  function EmptyBloom(): (b: seq<bv64>)
    ensures |b| == BLOOM_WORDS
  {
    seq(BLOOM_WORDS, i => 0)
  }

  function BloomOf(c: Codec, rs: seq<Record>): (b: seq<bv64>)
    ensures |b| == BLOOM_WORDS
  {
    if rs == [] then EmptyBloom()
    else InsertId(c, BloomOf(c, rs[..|rs| - 1]), rs[|rs| - 1].event.id)
  }

  predicate MightContain(c: Codec, bloom: seq<bv64>, id: string)
    requires |bloom| == BLOOM_WORDS
  {
    forall i :: 0 <= i < 4 ==> HasBit(bloom, Positions(c, id)[i])
  }

  ghost predicate Hashed(c: Codec, rs: seq<Record>, q: nat) {
    exists i :: 0 <= i < |rs| && q in Positions(c, rs[i].event.id)
  }

  lemma HashedStep(c: Codec, rs: seq<Record>, q: nat)
    requires rs != []
    ensures Hashed(c, rs, q) <==>
            q in Positions(c, rs[|rs| - 1].event.id) || Hashed(c, rs[..|rs| - 1], q)
  {
    var n := |rs| - 1;
    if Hashed(c, rs, q) {
      var i :| 0 <= i < |rs| && q in Positions(c, rs[i].event.id);
      assert i < n ==> rs[..n][i] == rs[i];
    }
    if Hashed(c, rs[..n], q) {
      var i :| 0 <= i < n && q in Positions(c, rs[..n][i].event.id);
      assert rs[..n][i] == rs[i];
    }
  }

  lemma NoBitInEmpty(q: nat)
    requires q < BLOOM_BITS
    ensures !HasBit(EmptyBloom(), q)
  {
    assert EmptyBloom()[q / 64] == 0;
  }

  lemma BloomStep(c: Codec, rs: seq<Record>, q: nat)
    requires rs != [] && q < BLOOM_BITS
    ensures HasBit(BloomOf(c, rs), q) <==>
            q in Positions(c, rs[|rs| - 1].event.id) || HasBit(BloomOf(c, rs[..|rs| - 1]), q)
  {
    InsertIdExact(c, BloomOf(c, rs[..|rs| - 1]), rs[|rs| - 1].event.id, q);
  }

  /** A bit of the filter is set exactly when some stored ID hashes to it. */
  lemma {:induction false} BloomExact(c: Codec, rs: seq<Record>, q: nat)
    requires q < BLOOM_BITS
    ensures HasBit(BloomOf(c, rs), q) <==> Hashed(c, rs, q)
  {
    if rs == [] {
      NoBitInEmpty(q);
    } else {
      var n := |rs| - 1;
      BloomStep(c, rs, q);
      HashedStep(c, rs, q);
      BloomExact(c, rs[..n], q);
    }
  }

  /** The filter has no false negatives. */
  lemma NoFalseNegatives(c: Codec, rs: seq<Record>, i: nat)
    requires i < |rs|
    ensures MightContain(c, BloomOf(c, rs), rs[i].event.id)
  {
    var ps := Positions(c, rs[i].event.id);
    forall k | 0 <= k < 4
      ensures HasBit(BloomOf(c, rs), ps[k])
    {
      BloomExact(c, rs, ps[k]);
      assert ps[k] in Positions(c, rs[i].event.id);
    }
  }

  function LastRecord(rs: seq<Record>): Option<Record> {
    if rs == [] then None else Some(rs[|rs| - 1])
  }

  function FromRecords(c: Codec, rs: seq<Record>, journalBytes: nat): IndexData {
    IndexData(INDEX_VERSION, journalBytes, |rs|, LastRecord(rs), BloomOf(c, rs))
  }

  function Pushed(c: Codec, index: IndexData, r: Record, encodedLen: nat): IndexData
    requires |index.bloom| == BLOOM_WORDS
  {
    IndexData(index.version, index.journalBytes + encodedLen, index.records + 1, Some(r),
              InsertId(c, index.bloom, r.event.id))
  }

  /** Updating the index record by record gives the index built from the whole replay. */
  lemma PushExtends(c: Codec, rs: seq<Record>, journalBytes: nat, r: Record, encodedLen: nat)
    ensures Pushed(c, FromRecords(c, rs, journalBytes), r, encodedLen)
         == FromRecords(c, rs + [r], journalBytes + encodedLen)
  {
    BloomPush(c, rs, r);
  }

  lemma BloomPush(c: Codec, rs: seq<Record>, r: Record)
    ensures BloomOf(c, rs + [r]) == InsertId(c, BloomOf(c, rs), r.event.id)
  {
    assert (rs + [r])[..|rs|] == rs;
  }

  /** The index a session keeps in memory while it appends. */
  class JournalIndex {
    const codec: Codec
    var journalBytes: nat
    var records: nat
    var lastRecord: Option<Record>
    var bloom: array<bv64>

    ghost predicate Valid()
      reads this
    {
      bloom.Length == BLOOM_WORDS
    }

    ghost function View(): (v: IndexData)
      requires Valid()
      reads this, bloom
      ensures |v.bloom| == BLOOM_WORDS
    {
      IndexData(INDEX_VERSION, journalBytes, records, lastRecord, bloom[..])
    }

    constructor Load(c: Codec, saved: IndexData)
      requires |saved.bloom| == BLOOM_WORDS && saved.version == INDEX_VERSION
      ensures Valid() && fresh(bloom) && codec == c
      ensures View() == saved
    {
      codec, journalBytes, records, lastRecord := c, saved.journalBytes, saved.records, saved.lastRecord;
      bloom := new bv64[BLOOM_WORDS](i requires 0 <= i < BLOOM_WORDS => saved.bloom[i]);
      new;
      assert bloom[..] == saved.bloom;
    }

    method Mark(p: nat)
      requires Valid() && p < BLOOM_BITS
      modifies bloom
      ensures bloom[..] == SetBit(old(bloom[..]), p)
    {
      bloom[p / 64] := bloom[p / 64] | Mask(p);
    }

    method Insert(id: string)
      requires Valid()
      modifies bloom
      ensures bloom[..] == InsertId(codec, old(bloom[..]), id)
    {
      var positions := Positions(codec, id);
      Mark(positions[0]);
      Mark(positions[1]);
      Mark(positions[2]);
      Mark(positions[3]);
    }

    method Query(id: string) returns (b: bool)
      requires Valid()
      ensures b == MightContain(codec, View().bloom, id)
    {
      var positions := Positions(codec, id);
      b := true;
      for i := 0 to 4
        invariant b == forall k :: 0 <= k < i ==> HasBit(bloom[..], positions[k])
      {
        b := b && bloom[positions[i] / 64] & Mask(positions[i]) != 0;
      }
    }

    method Push(r: Record, encodedLen: nat)
      requires Valid()
      modifies this, bloom
      ensures Valid() && bloom == old(bloom)
      ensures View() == Pushed(codec, old(View()), r, encodedLen)
    {
      journalBytes := journalBytes + encodedLen;
      records := records + 1;
      lastRecord := Some(r);
      Insert(r.event.id);
    }

    method ToData() returns (data: IndexData)
      requires Valid()
      ensures data == View()
    {
      data := IndexData(INDEX_VERSION, journalBytes, records, lastRecord, bloom[..]);
    }

    /** `from_records`: one insertion per record into an empty filter. */
    constructor FromHistory(c: Codec, rs: seq<Record>, length: nat)
      ensures Valid() && fresh(bloom) && codec == c
      ensures View() == FromRecords(c, rs, length)
    {
      codec, journalBytes, records, lastRecord := c, length, |rs|, LastRecord(rs);
      bloom := new bv64[BLOOM_WORDS](i => 0);
      new;
      InsertAll(rs);
    }

    method InsertAll(rs: seq<Record>)
      requires Valid() && forall k :: 0 <= k < BLOOM_WORDS ==> bloom[k] == 0
      modifies bloom
      ensures bloom[..] == BloomOf(codec, rs)
    {
      assert bloom[..] == EmptyBloom();
      for i := 0 to |rs|
        invariant bloom[..] == BloomOf(codec, rs[..i])
      {
        assert rs[..i + 1][..i] == rs[..i];
        Insert(rs[i].event.id);
      }
      assert rs[..|rs|] == rs;
    }
  }
}
