/** Cutting a snapshot into linked pages that reassemble exactly (src/summary.rs). */
module Summary {
  import opened Prelude

  const RESULT_LIMIT: nat := 32768
  const SESSION_LIMIT: nat := 8 * 1024 * 1024
  const TOKEN_LIMIT: nat := 4096
  const PAGE_ITEMS: nat := 8
  const CHUNK: nat := 4096
  const TTL: nat := 60
  const TOKEN_LENGTH: nat := 64

  /** An item or document, as the text of its JSON. */
  type Value = string

  datatype Body =
    | Detail(offset: nat, total: nat, hash: string, content: string)
    | List(total: nat, included: nat, items: seq<Value>)

  /** A page; `next` is the cursor of the one that follows. */
  datatype Page = Page(body: Body, next: Option<string>, incomplete: bool)

  /** A page as it is kept: under the name of its collection, in the summary's envelope. */
  datatype Kept = Kept(name: string, page: Page)

  datatype Error = ItemTooLarge | SessionTooLarge | Collision | Encoding

  /** The size of a result, the random tokens in the order they are drawn, and the hash. */
  datatype Env = Env(size: Kept -> nat, nonce: nat -> string, hash: string -> string)

  /** What stands for a cursor while a page is being measured. */
  function Zeros(n: nat): (s: string)
    ensures |s| == n
  {
    seq(n, i => '0')
  }

  function SizeOf(env: Env, name: string, body: Body, next: Option<string>): nat {
    env.size(Kept(name, Page(body, next, next.Some?)))
  }

  /** 32 random bytes in hexadecimal. */
  predicate Token(t: string) {
    |t| == TOKEN_LENGTH && AllHex(t)
  }

  /** Tokens are hexadecimal, so they all weigh the same in a page; the end of a chain weighs no more, nor an item by itself. */
  ghost predicate Lawful(env: Env) {
    && (forall i :: Token(env.nonce(i)))
    && (forall name, body, t :: Token(t) ==> SizeOf(env, name, body, Some(t)) == SizeOf(env, name, body, Some(Zeros(TOKEN_LENGTH))))
    && (forall name, body :: SizeOf(env, name, body, None) <= SizeOf(env, name, body, Some(Zeros(TOKEN_LENGTH))))
    && (forall name, total, rows: seq<Value>, v :: v in rows ==> RowsSize(env, name, total, [v]) <= RowsSize(env, name, total, rows))
  }

  /** The first `n` tokens differ. Nothing needs this but the promise that no collision is reported. */
  ghost predicate FreshDraws(env: Env, n: nat) {
    forall i, j :: 0 <= i < j < n ==> env.nonce(i) != env.nonce(j)
  }

  predicate Fits(env: Env, k: Kept) {
    env.size(k) <= RESULT_LIMIT
  }

  // ----- text -----

  /** No character is longer than four bytes. */
  ghost predicate Utf8(s: string) {
    forall i :: 0 <= i && i + 3 < |s| ==> BoundaryNear(s, i)
  }

  ghost predicate AllUtf8(texts: seq<string>) {
    forall s :: s in texts ==> Utf8(s)
  }

  ghost predicate BoundaryNear(s: string, i: nat) {
    CharBoundary(s, i) || CharBoundary(s, i + 1) || CharBoundary(s, i + 2) || CharBoundary(s, i + 3)
  }

  /** The last place up to `end` that is not within a character. */
  function LastBoundary(s: string, end: nat): (b: nat)
    requires end <= |s|
    ensures b <= end && CharBoundary(s, b) && forall j :: b < j <= end ==> !CharBoundary(s, j)
  {
    if CharBoundary(s, end) then end else LastBoundary(s, end - 1)
  }

  /** Where the chunk from `offset` on ends; in UTF-8 there is always a place to cut. */
  function CutAt(s: string, offset: nat): (end: nat)
    requires offset < |s|
    ensures offset < end <= |s| && end <= offset + CHUNK
  {
    var top := Min(offset + CHUNK, |s|);
    var b := LastBoundary(s, top);
    if b > offset then b else top
  }

  /** The end of the chunk that starts at `offset`: at most `CHUNK` bytes on, moved back to a character. */
  method ChunkEnd(s: string, offset: nat) returns (end: nat)
    requires Utf8(s) && offset < |s|
    ensures offset < end <= |s| && end <= offset + CHUNK && CharBoundary(s, end)
    ensures forall j :: end < j <= offset + CHUNK && j <= |s| ==> !CharBoundary(s, j)
    ensures end == CutAt(s, offset)
  {
    end := Min(offset + CHUNK, |s|);
    ghost var top := end;
    while !CharBoundary(s, end)
      invariant offset < end <= top && top - end <= 3
      invariant forall j :: end < j <= top ==> !CharBoundary(s, j)
      invariant end < top ==> top == offset + CHUNK < |s|
      decreases end
    {
      assert top < |s|;
      NoLongRun(s, end, top);
      end := end - 1;
    }
  }

  lemma NoLongRun(s: string, end: nat, top: nat)
    requires Utf8(s) && end <= top < |s| && forall j :: end <= j <= top ==> !CharBoundary(s, j)
    ensures top - end < 3
  {
    assert end + 3 < |s| ==> BoundaryNear(s, end);
  }

  // ----- chains of pages -----

  ghost function NextToken(tokens: seq<string>, i: nat): Option<string>
    requires i < |tokens|
  {
    if i + 1 < |tokens| then Some(tokens[i + 1]) else None
  }

  /** The pages are kept under their tokens, each pointing to the next. */
  ghost predicate Chained(results: map<string, Kept>, name: string, tokens: seq<string>, pages: seq<Page>) {
    && |tokens| == |pages| > 0
    && forall i :: 0 <= i < |pages| ==> Link(results, name, tokens, pages, i)
  }

  ghost predicate Link(results: map<string, Kept>, name: string, tokens: seq<string>, pages: seq<Page>, i: nat)
    requires i < |pages| == |tokens|
  {
    && tokens[i] in results && results[tokens[i]] == Kept(name, pages[i])
    && pages[i].next == NextToken(tokens, i) && (pages[i].incomplete <==> i + 1 < |pages|)
  }

  /** What a client sees that follows `next` at most `limit` times. */
  function Follow(results: map<string, Kept>, token: string, limit: nat): seq<Page>
    decreases limit
  {
    if limit == 0 || token !in results then []
    else
      var page := results[token].page;
      [page] + if page.next.Some? then Follow(results, page.next.value, limit - 1) else []
  }

  /** Following the cursors visits exactly the pages of the chain, each once, in order, and then stops. */
  lemma {:induction false} FollowVisits(results: map<string, Kept>, name: string, tokens: seq<string>, pages: seq<Page>, i: nat, limit: nat)
    requires Chained(results, name, tokens, pages) && i < |pages| && limit >= |pages| - i
    ensures Follow(results, tokens[i], limit) == pages[i..]
    decreases |pages| - i
  {
    assert Link(results, name, tokens, pages, i);
    DropOne(pages, i);
    if i + 1 < |pages| {
      FollowVisits(results, name, tokens, pages, i + 1, limit - 1);
    }
  }

  function Contents(pages: seq<Page>): string {
    if pages == [] then ""
    else
      var body := pages[|pages| - 1].body;
      Contents(pages[..|pages| - 1]) + if body.Detail? then body.content else ""
  }

  function Items(pages: seq<Page>): seq<Value> {
    if pages == [] then []
    else
      var body := pages[|pages| - 1].body;
      Items(pages[..|pages| - 1]) + if body.List? then body.items else []
  }

  // ----- cutting -----

  datatype Piece = Piece(token: string, start: nat, end: nat)

  /** Pieces of the text, one after the other from its beginning, cut between characters, under fresh tokens. */
  ghost predicate Pieces(env: Env, s: string, pieces: seq<Piece>, first: nat, offset: nat) {
    && offset <= |s| && CharBoundary(s, offset)
    && (if pieces == [] then offset == 0 else pieces[0].start == 0 && pieces[|pieces| - 1].end == offset)
    && PiecesOk(env, s, pieces, first)
  }

  ghost predicate PiecesOk(env: Env, s: string, pieces: seq<Piece>, first: nat) {
    forall i :: 0 <= i < |pieces| ==> PieceOk(env, s, pieces, first, i)
  }

  predicate InText(s: string, pieces: seq<Piece>) {
    forall i :: 0 <= i < |pieces| ==> pieces[i].start < pieces[i].end <= |s|
  }

  ghost predicate PieceOk(env: Env, s: string, pieces: seq<Piece>, first: nat, i: nat)
    requires i < |pieces|
  {
    && pieces[i].token == env.nonce(first + i)
    && pieces[i].start < pieces[i].end <= |s| && pieces[i].end <= pieces[i].start + CHUNK
    && CharBoundary(s, pieces[i].start) && CharBoundary(s, pieces[i].end)
    && (i + 1 < |pieces| ==> pieces[i].end == pieces[i + 1].start)
  }

  lemma PieceMore(env: Env, s: string, pieces: seq<Piece>, first: nat, offset: nat, end: nat)
    requires Pieces(env, s, pieces, first, offset)
    requires offset < end <= |s| && end <= offset + CHUNK && CharBoundary(s, end)
    ensures Pieces(env, s, pieces + [Piece(env.nonce(first + |pieces|), offset, end)], first, end)
  {
    var more := pieces + [Piece(env.nonce(first + |pieces|), offset, end)];
    forall i | 0 <= i < |more|
      ensures PieceOk(env, s, more, first, i)
    {
      if i < |pieces| {
        assert PieceOk(env, s, pieces, first, i);
      }
    }
  }

  /** The pieces before `offset` and all that follow. */
  function PiecesOn(env: Env, s: string, first: nat, pieces: seq<Piece>, offset: nat): (all: seq<Piece>)
    requires InText(s, pieces)
    ensures InText(s, all) && |pieces| <= |all| && (offset < |s| ==> all != []) && (offset >= |s| ==> all == pieces)
    decreases |s| - offset
  {
    if offset >= |s| then pieces
    else PiecesOn(env, s, first, pieces + [Piece(env.nonce(first + |pieces|), offset, CutAt(s, offset))], CutAt(s, offset))
  }

  function AllPieces(env: Env, s: string, first: nat): (all: seq<Piece>)
    ensures InText(s, all) && (all == [] <==> s == "")
  {
    PiecesOn(env, s, first, [], 0)
  }

  /** The pieces up to `offset` are the ones to come first. */
  ghost predicate Cutting(env: Env, s: string, pieces: seq<Piece>, first: nat, offset: nat) {
    Pieces(env, s, pieces, first, offset) && InText(s, pieces) && PiecesOn(env, s, first, pieces, offset) == AllPieces(env, s, first)
  }

  lemma CuttingMore(env: Env, s: string, pieces: seq<Piece>, first: nat, offset: nat)
    requires Cutting(env, s, pieces, first, offset) && offset < |s| && CharBoundary(s, CutAt(s, offset))
    ensures Cutting(env, s, pieces + [Piece(env.nonce(first + |pieces|), offset, CutAt(s, offset))], first, CutAt(s, offset))
  {
    PieceMore(env, s, pieces, first, offset, CutAt(s, offset));
  }

  /** Everything that is kept for a text, if it is. */
  function DetailKepts(env: Env, s: string, pieces: seq<Piece>): (ks: seq<Kept>)
    requires InText(s, pieces)
    ensures |ks| == |pieces| && forall i :: 0 <= i < |ks| ==> ks[i] == Kept("details", DetailPage(env, s, pieces, i))
  {
    seq(|pieces|, i requires 0 <= i < |pieces| => Kept("details", DetailPage(env, s, pieces, i)))
  }

  function DetailPage(env: Env, s: string, pieces: seq<Piece>, i: nat): Page
    requires i < |pieces| && pieces[i].start <= pieces[i].end <= |s|
  {
    Page(Detail(pieces[i].start, |s|, env.hash(s), s[pieces[i].start..pieces[i].end]),
         if i + 1 < |pieces| then Some(pieces[i + 1].token) else None, i + 1 < |pieces|)
  }

  ghost function DetailPages(env: Env, s: string, pieces: seq<Piece>, n: nat): (pages: seq<Page>)
    requires InText(s, pieces) && n <= |pieces|
    ensures |pages| == n && forall i :: 0 <= i < n ==> pages[i] == DetailPage(env, s, pieces, i)
  {
    if n == 0 then [] else DetailPages(env, s, pieces, n - 1) + [DetailPage(env, s, pieces, n - 1)]
  }

  /** Each piece starts where the one before it ended. */
  ghost predicate Adjacent(pieces: seq<Piece>) {
    forall i :: 0 <= i < |pieces| ==> StartsWhereLastEnded(pieces, i)
  }

  ghost predicate StartsWhereLastEnded(pieces: seq<Piece>, i: nat)
    requires i < |pieces|
  {
    pieces[i].start == if i == 0 then 0 else pieces[i - 1].end
  }

  lemma PiecesAdjacent(env: Env, s: string, pieces: seq<Piece>, first: nat, offset: nat)
    requires Pieces(env, s, pieces, first, offset)
    ensures InText(s, pieces) && Adjacent(pieces)
  {
    forall i | 0 <= i < |pieces|
      ensures pieces[i].start < pieces[i].end <= |s| && StartsWhereLastEnded(pieces, i)
    {
      assert PieceOk(env, s, pieces, first, i);
      if i > 0 {
        assert PieceOk(env, s, pieces, first, i - 1);
      }
    }
  }

  /** The contents of the first pages are the text up to where they end. */
  lemma {:induction false} ContentsReassemble(env: Env, s: string, pieces: seq<Piece>, n: nat)
    requires InText(s, pieces) && Adjacent(pieces) && n <= |pieces|
    ensures Contents(DetailPages(env, s, pieces, n)) == s[..if n == 0 then 0 else pieces[n - 1].end]
  {
    if n > 0 {
      ContentsReassemble(env, s, pieces, n - 1);
      assert StartsWhereLastEnded(pieces, n - 1);
      ContentsStep(DetailPages(env, s, pieces, n - 1), DetailPage(env, s, pieces, n - 1), s,
                   pieces[n - 1].start, pieces[n - 1].end);
    }
  }

  lemma ContentsStep(pages: seq<Page>, p: Page, s: string, a: nat, b: nat)
    requires a <= b <= |s| && Contents(pages) == s[..a] && p.body.Detail? && p.body.content == s[a..b]
    ensures Contents(pages + [p]) == s[..b]
  {
    ContentsMore(pages, p);
    Slices(s, a, b);
  }

  lemma ContentsMore(pages: seq<Page>, p: Page)
    ensures Contents(pages + [p]) == Contents(pages) + if p.body.Detail? then p.body.content else ""
  {
    assert (pages + [p])[..|pages|] == pages;
  }

  lemma Slices(s: string, a: nat, b: nat)
    requires a <= b <= |s|
    ensures s[..a] + s[a..b] == s[..b]
  {
  }

  ghost function TokensOf(pieces: seq<Piece>): (s: seq<string>)
    ensures |s| == |pieces| && forall i :: 0 <= i < |s| ==> s[i] == pieces[i].token
  {
    seq(|pieces|, i requires 0 <= i < |pieces| => pieces[i].token)
  }

  /** A detail chain: its contents are the text, each at its offset, cut only between characters. */
  ghost predicate DetailChain(env: Env, results: map<string, Kept>, tokens: seq<string>, pages: seq<Page>, s: string) {
    && Chained(results, "details", tokens, pages) && Contents(pages) == s
    && forall i :: 0 <= i < |pages| ==> DetailOk(env, pages, i, s)
  }

  ghost predicate DetailOk(env: Env, pages: seq<Page>, i: nat, s: string)
    requires i < |pages|
  {
    var b := pages[i].body;
    && b.Detail? && b.total == |s| && b.hash == env.hash(s) && b.content != ""
    && b.offset == |Contents(pages[..i])| && CharBoundary(s, b.offset) && Fits(env, Kept("details", pages[i]))
  }

  /** A list chain: its items are the collection, a few at a time. */
  ghost predicate ListChain(env: Env, results: map<string, Kept>, name: string, tokens: seq<string>, pages: seq<Page>, items: seq<Value>) {
    && Chained(results, name, tokens, pages) && Items(pages) == items
    && forall i :: 0 <= i < |pages| ==> ListOk(env, name, pages[i], |items|)
  }

  ghost predicate ListOk(env: Env, name: string, page: Page, total: nat) {
    && page.body.List? && page.body.total == total && 0 < page.body.included == |page.body.items| <= PAGE_ITEMS
    && Fits(env, Kept(name, page))
  }

  // ----- what there is room for -----

  /** The bytes and results kept so far; every token drawn was used. */
  datatype Tally = Tally(bytes: nat, count: nat)

  /** What results and their tokens add to the session. */
  function Load(env: Env, ks: seq<Kept>): nat {
    if ks == [] then 0 else Load(env, ks[..|ks| - 1]) + env.size(ks[|ks| - 1]) + TOKEN_LENGTH
  }

  function Add(env: Env, t: Tally, ks: seq<Kept>): Tally {
    Tally(t.bytes + Load(env, ks), t.count + |ks|)
  }

  predicate Room(env: Env, t: Tally, ks: seq<Kept>) {
    t.bytes + Load(env, ks) <= SESSION_LIMIT && t.count + |ks| <= TOKEN_LIMIT
  }

  predicate AllFits(env: Env, ks: seq<Kept>) {
    forall i :: 0 <= i < |ks| ==> Fits(env, ks[i])
  }

  lemma {:induction false} LoadGrows(env: Env, ks: seq<Kept>, i: nat)
    requires i < |ks|
    ensures Load(env, ks[..i + 1]) == Load(env, ks[..i]) + env.size(ks[i]) + TOKEN_LENGTH
    ensures Load(env, ks[..i + 1]) <= Load(env, ks)
    decreases |ks|
  {
    var n := |ks| - 1;
    assert ks[..i + 1][..i] == ks[..i];
    if i < n {
      LoadGrows(env, ks[..n], i);
      assert ks[..n][..i + 1] == ks[..i + 1];
    } else {
      assert ks[..i + 1] == ks;
    }
  }

  /** One more result did not find room, so all of them do not. */
  lemma NoRoom(env: Env, t: Tally, ks: seq<Kept>, i: nat)
    requires i < |ks|
    requires t.bytes + Load(env, ks[..i]) + env.size(ks[i]) + TOKEN_LENGTH > SESSION_LIMIT || t.count + i >= TOKEN_LIMIT
    ensures !Room(env, t, ks)
  {
    LoadGrows(env, ks, i);
  }

  // ----- building -----

  /** What was kept before is still there, under the same tokens. */
  ghost predicate Extends(before: map<string, Kept>, after: map<string, Kept>) {
    forall t :: t in before ==> t in after && after[t] == before[t]
  }

  class Builder {
    const env: Env
    var results: map<string, Kept>
    var bytes: nat
    var drawn: nat

    /** Every kept result fits the limit, and its token was drawn. */
    ghost predicate Valid()
      reads this
    {
      Keeping(drawn)
    }

    /** The same, with the first `n` drawn in use. */
    ghost predicate Keeping(n: nat)
      reads this
    {
      && Lawful(env) && n <= drawn && bytes <= SESSION_LIMIT && |results| == n <= TOKEN_LIMIT
      && AllFit(env, results, n)
    }

    ghost function Filled(): Tally
      reads this
    {
      Tally(bytes, |results|)
    }

    constructor (env: Env)
      requires Lawful(env)
      ensures Valid() && this.env == env && results == map[] && Filled() == Tally(0, 0)
    {
      this.env := env;
      results, bytes, drawn := map[], 0, 0;
    }

    /** Draws a token. */
    method Nonce() returns (token: string)
      modifies this`drawn
      ensures token == env.nonce(old(drawn)) && drawn == old(drawn) + 1
    {
      token := env.nonce(drawn);
      drawn := drawn + 1;
    }

    /** `retain`: keeps a result under a token drawn before but not used yet. */
    method Retain(token: string, k: Kept) returns (r: Result<bool, Error>)
      requires Lawful(env) && Fits(env, k)
      modifies this`results, this`bytes
      ensures r.Ok? <==> old(bytes) + env.size(k) + |token| <= SESSION_LIMIT && |old(results)| < TOKEN_LIMIT && token !in old(results)
      ensures r.Ok? ==> results == old(results)[token := k] && bytes == old(bytes) + env.size(k) + |token|
      ensures r.Err? ==> r.error == if old(bytes) + env.size(k) + |token| > SESSION_LIMIT || |old(results)| >= TOKEN_LIMIT
                                    then SessionTooLarge else Collision
    {
      bytes := bytes + env.size(k) + |token|;
      if bytes > SESSION_LIMIT || |results| >= TOKEN_LIMIT {
        return Err(SessionTooLarge);
      }
      if token in results {
        return Err(Collision);
      }
      results := results[token := k];
      r := Ok(true);
    }

    /** One piece more. */
    method CutPiece(s: string, pieces: seq<Piece>, offset: nat, ghost first: nat) returns (more: seq<Piece>, end: nat)
      requires Utf8(s) && offset < |s| && Cutting(env, s, pieces, first, offset) && drawn == first + |pieces|
      modifies this`drawn
      ensures offset < end <= |s| && |more| == |pieces| + 1 && drawn == first + |more|
      ensures Cutting(env, s, more, first, end) && |more| <= |AllPieces(env, s, first)|
    {
      end := ChunkEnd(s, offset);
      CuttingMore(env, s, pieces, first, offset);
      var token := Nonce();
      more := pieces + [Piece(token, offset, end)];
    }

    /** The first loop of `detail`: where to cut. */
    method Cut(s: string) returns (r: Result<seq<Piece>, Error>)
      requires Utf8(s)
      modifies this`drawn
      ensures old(drawn) <= drawn
      ensures r.Ok? ==> Pieces(env, s, r.value, old(drawn), |s|) && drawn == old(drawn) + |r.value| && |r.value| <= TOKEN_LIMIT
      ensures r.Ok? ==> r.value == AllPieces(env, s, old(drawn))
      ensures r.Err? ==> r.error == SessionTooLarge && |AllPieces(env, s, old(drawn))| > TOKEN_LIMIT
    {
      ghost var first := drawn;
      var pieces, offset := [], 0;
      while offset < |s|
        invariant Cutting(env, s, pieces, first, offset) && drawn == first + |pieces| && |pieces| <= TOKEN_LIMIT
        decreases |s| - offset
      {
        pieces, offset := CutPiece(s, pieces, offset, first);
        if |pieces| > TOKEN_LIMIT {
          return Err(SessionTooLarge);
        }
      }
      r := Ok(pieces);
    }

    /** Keeps a page, if it fits, under the token that was drawn as the `n`th. */
    method KeepPage(name: string, token: string, page: Page, ghost n: nat) returns (r: Result<bool, Error>)
      requires Keeping(n) && token == env.nonce(n) && n < drawn
      modifies this`results, this`bytes
      ensures r.Ok? ==> Keeping(n + 1) && Fits(env, Kept(name, page)) && token !in old(results)
                        && results == old(results)[token := Kept(name, page)]
                        && Filled() == AddOne(env, old(Filled()), Kept(name, page))
      ensures r.Err? ==> OneRefused(env, old(Filled()), Kept(name, page), drawn, r.error)
    {
      if !Fits(env, Kept(name, page)) {
        return Err(ItemTooLarge);
      }
      NotUsedYet(env, results, n, drawn);
      r := Retain(token, Kept(name, page));
      if r.Ok? {
        MapGrows(old(results), token, Kept(name, page));
        OneMoreDrawn(env, old(results), token, Kept(name, page), n);
      }
    }

    /** One round of it. */
    method KeepPiece(s: string, pieces: seq<Piece>, ghost first: nat, i: nat, ghost t: Tally, ghost ks: seq<Kept>)
      returns (r: Result<bool, Error>)
      requires i < |pieces| == |ks| && Keeping(first + i) && first + i < drawn && PieceOk(env, s, pieces, first, i)
      requires PiecesKept(env, results, s, pieces, first, i) && ks[i] == Kept("details", DetailPage(env, s, pieces, i))
      requires AllFits(env, ks[..i]) && Filled() == Add(env, t, ks[..i])
      modifies this`results, this`bytes
      ensures r.Ok? ==> Keeping(first + i + 1) && Extends(old(results), results) && PiecesKept(env, results, s, pieces, first, i + 1)
      ensures r.Ok? ==> AllFits(env, ks[..i + 1]) && Filled() == Add(env, t, ks[..i + 1])
      ensures r.Err? ==> NotTaken(env, t, ks, drawn, r.error)
    {
      ghost var before := results;
      r := KeepPage("details", pieces[i].token, DetailPage(env, s, pieces, i), first + i);
      TakenOne(env, t, ks, i, r, drawn);
      if r.Ok? {
        OneMorePiece(env, before, s, pieces, first, i);
      }
    }

    /** The second loop of `detail`: keeps every piece. */
    method KeepPieces(s: string, pieces: seq<Piece>, ghost first: nat) returns (r: Result<bool, Error>)
      requires Keeping(first) && PiecesOk(env, s, pieces, first) && drawn == first + |pieces| && InText(s, pieces)
      modifies this`results, this`bytes
      ensures r.Ok? ==> Valid() && Extends(old(results), results)
      ensures r.Ok? ==> PiecesKept(env, results, s, pieces, first, |pieces|)
      ensures Taken(env, old(Filled()), DetailKepts(env, s, pieces), drawn, Filled(), r)
    {
      ghost var t, ks := Filled(), DetailKepts(env, s, pieces);
      for i := 0 to |pieces|
        invariant Keeping(first + i) && Extends(old(results), results)
        invariant PiecesKept(env, results, s, pieces, first, i)
        invariant AllFits(env, ks[..i]) && Filled() == Add(env, t, ks[..i])
      {
        assert PieceOk(env, s, pieces, first, i);
        var kept := KeepPiece(s, pieces, first, i, t, ks);
        if kept.Err? {
          return Err(kept.error);
        }
      }
      assert ks[..|pieces|] == ks;
      r := Ok(true);
    }

    /** `detail`: keeps a text as a chain of pages and returns the first cursor. */
    method KeepDetail(s: string) returns (r: Result<string, Error>, ghost tokens: seq<string>, ghost pages: seq<Page>)
      requires Valid() && Utf8(s)
      modifies this
      ensures r.Ok? ==> Valid() && Extends(old(results), results)
      ensures r.Ok? ==> DetailChain(env, results, tokens, pages, s) && r.value == tokens[0] == env.nonce(old(drawn))
      ensures r.Ok? ==> AfterDetail(env, old(Filled()), s) == Some(Filled())
      ensures r.Err? ==> DetailRefused(env, old(Filled()), s, r.error)
    {
      tokens, pages := [], [];
      ghost var first, before := drawn, results;
      var cut := Cut(s);
      if cut.Err? {
        return Err(cut.error), [], [];
      }
      var pieces := cut.value;
      if pieces == [] {
        return Err(Encoding), [], [];
      }
      var kept := KeepPieces(s, pieces, first);
      if kept.Err? {
        MoreDraws(env, drawn, first + TOKEN_LIMIT);
        return Err(kept.error), [], [];
      }
      tokens, pages := TokensOf(pieces), DetailPages(env, s, pieces, |pieces|);
      assert PieceOk(env, s, pieces, first, 0);
      PiecesChain(env, results, s, pieces, first);
      r := Ok(pieces[0].token);
    }

    /** The next group, unless its first item is too large. */
    method GroupOne(name: string, items: seq<Value>, groups: seq<seq<Value>>, offset: nat)
      returns (ok: bool, more: seq<seq<Value>>, end: nat)
      requires Grouping(env, name, items, groups, offset) && offset < |items|
      modifies this`drawn
      ensures !ok ==> Oversized(env, name, items) && drawn == old(drawn)
      ensures ok ==> offset < end <= |items| && drawn == old(drawn) + 1 && |more| == |groups| + 1
      ensures ok ==> Grouping(env, name, items, more, end) && |more| <= |AllGroups(env, name, items)|
    {
      var next := TakeRows(env, name, items, offset);
      if next == [] {
        return false, groups, offset;
      }
      GroupingMore(env, name, items, groups, offset, next);
      var _ := Nonce();
      ok, more, end := true, groups + [next], offset + |next|;
    }

    /** The first loop of `collection`: which items go together. */
    method Group(name: string, items: seq<Value>) returns (r: Result<seq<seq<Value>>, Error>)
      modifies this`drawn
      ensures old(drawn) <= drawn
      ensures r.Ok? ==> Grouped(env, name, items, r.value, |items|) && r.value == AllGroups(env, name, items)
      ensures r.Ok? ==> drawn == old(drawn) + |r.value| && |r.value| <= TOKEN_LIMIT
      ensures r.Err? ==> || (r.error == SessionTooLarge && |AllGroups(env, name, items)| > TOKEN_LIMIT)
                         || (r.error == ItemTooLarge && Oversized(env, name, items))
    {
      var groups, offset := [], 0;
      while offset < |items|
        invariant Grouping(env, name, items, groups, offset) && drawn == old(drawn) + |groups| && |groups| <= TOKEN_LIMIT
        decreases |items| - offset
      {
        var ok;
        ok, groups, offset := GroupOne(name, items, groups, offset);
        if !ok {
          return Err(ItemTooLarge);
        }
        if |groups| > TOKEN_LIMIT {
          return Err(SessionTooLarge);
        }
      }
      r := Ok(groups);
    }

    /** One round of the second loop. */
    method KeepListPage(name: string, items: seq<Value>, groups: seq<seq<Value>>, ghost first: nat, i: nat, token: string,
                        page: Page, ghost t: Tally, ghost ks: seq<Kept>)
      returns (r: Result<bool, Error>)
      requires i < |groups| == |ks| && Keeping(first + i) && first + i < drawn && token == env.nonce(first + i)
      requires page == ListPage(env, |items|, groups, first, i) && ks[i] == Kept(name, page) && Fits(env, ks[i])
      requires PagesKept(env, results, name, |items|, groups, first, i)
      requires AllFits(env, ks[..i]) && Filled() == Add(env, t, ks[..i])
      modifies this`results, this`bytes
      ensures r.Ok? ==> Keeping(first + i + 1) && Extends(old(results), results)
      ensures r.Ok? ==> PagesKept(env, results, name, |items|, groups, first, i + 1)
      ensures r.Ok? ==> AllFits(env, ks[..i + 1]) && Filled() == Add(env, t, ks[..i + 1])
      ensures r.Err? ==> r.error != ItemTooLarge && NotTaken(env, t, ks, drawn, r.error)
    {
      ghost var before := results;
      r := KeepPage(name, token, page, first + i);
      TakenOne(env, t, ks, i, r, drawn);
      if r.Ok? {
        OneMorePage(env, before, name, |items|, groups, first, i);
      }
    }

    /** The second loop of `collection`: keeps every page. */
    method KeepPages(name: string, items: seq<Value>, groups: seq<seq<Value>>, first: nat) returns (r: Result<bool, Error>)
      requires Keeping(first) && Grouped(env, name, items, groups, |items|) && drawn == first + |groups|
      modifies this`results, this`bytes
      ensures r.Ok? ==> Valid() && Extends(old(results), results)
      ensures r.Ok? ==> PagesKept(env, results, name, |items|, groups, first, |groups|)
      ensures Taken(env, old(Filled()), ListKepts(env, name, |items|, groups, first), drawn, Filled(), r)
      ensures r.Err? ==> r.error != ItemTooLarge
    {
      ghost var t, ks := Filled(), ListKepts(env, name, |items|, groups, first);
      ListFits(env, name, items, groups, first);
      for i := 0 to |groups|
        invariant Keeping(first + i) && Extends(old(results), results)
        invariant PagesKept(env, results, name, |items|, groups, first, i)
        invariant AllFits(env, ks[..i]) && Filled() == Add(env, t, ks[..i])
      {
        var kept := KeepListPage(name, items, groups, first, i, env.nonce(first + i), ListPage(env, |items|, groups, first, i), t, ks);
        if kept.Err? {
          return Err(kept.error);
        }
      }
      assert ks[..|groups|] == ks;
      r := Ok(true);
    }

    /**
     * `collection`: keeps the items as a chain of pages; returns the first page and its cursor. It fails only when the
     * session has no room for them, some item is too large for a page of its own, or a token was drawn twice.
     */
    method KeepCollection(name: string, items: seq<Value>)
      returns (r: Result<(Page, Option<string>), Error>, ghost tokens: seq<string>, ghost pages: seq<Page>)
      requires Valid()
      modifies this
      ensures r.Ok? ==> Valid() && Extends(old(results), results)
      ensures r.Ok? && items != [] ==> ListChain(env, results, name, tokens, pages, items) && r.value == (pages[0], Some(tokens[0]))
      ensures r.Ok? ==> r.value == FirstPage(env, name, items, old(drawn))
      ensures r.Ok? ==> AfterCollection(env, old(Filled()), name, items) == Some(Filled())
      ensures r.Err? ==> CollectionRefused(env, old(Filled()), name, items, r.error)
    {
      tokens, pages := [], [];
      if items == [] {
        return Ok((Page(List(0, 0, []), None, false), None)), [], [];
      }
      var first := drawn;
      ghost var t := Filled();
      var grouped := Group(name, items);
      if grouped.Err? {
        return Err(grouped.error), [], [];
      }
      var groups := grouped.value;
      var kept := KeepPages(name, items, groups, first);
      if kept.Err? {
        MoreDraws(env, drawn, first + TOKEN_LIMIT);
        return Err(kept.error), [], [];
      }
      NotOversized(env, name, items, groups);
      PagesChain(env, results, name, items, groups, first);
      tokens, pages := DrawnTokens(env, first, |groups|), ListPages(env, |items|, groups, first, |groups|);
      r := Ok((ListPage(env, |items|, groups, first, 0), Some(env.nonce(first))));
    }
  }

  lemma MoreDraws(env: Env, m: nat, n: nat)
    requires m <= n
    ensures FreshDraws(env, n) ==> FreshDraws(env, m)
  {
  }

  /** Every result was taken in, or why one was not. */
  ghost predicate Taken(env: Env, t: Tally, ks: seq<Kept>, drawn: nat, after: Tally, r: Result<bool, Error>) {
    if r.Ok? then AllFits(env, ks) && Room(env, t, ks) && after == Add(env, t, ks) else NotTaken(env, t, ks, drawn, r.error)
  }

  ghost predicate NotTaken(env: Env, t: Tally, ks: seq<Kept>, drawn: nat, e: Error) {
    match e
    case ItemTooLarge => !AllFits(env, ks)
    case SessionTooLarge => !Room(env, t, ks)
    case Collision => !FreshDraws(env, drawn)
    case Encoding => false
  }

  function AddOne(env: Env, t: Tally, k: Kept): Tally {
    Tally(t.bytes + env.size(k) + TOKEN_LENGTH, t.count + 1)
  }

  ghost predicate OneRefused(env: Env, t: Tally, k: Kept, drawn: nat, e: Error) {
    match e
    case ItemTooLarge => !Fits(env, k)
    case SessionTooLarge => t.bytes + env.size(k) + TOKEN_LENGTH > SESSION_LIMIT || t.count >= TOKEN_LIMIT
    case Collision => !FreshDraws(env, drawn)
    case Encoding => false
  }

  lemma TakenOne(env: Env, t: Tally, ks: seq<Kept>, i: nat, r: Result<bool, Error>, drawn: nat)
    requires i < |ks| && AllFits(env, ks[..i])
    requires if r.Ok? then Fits(env, ks[i]) else OneRefused(env, Add(env, t, ks[..i]), ks[i], drawn, r.error)
    ensures r.Ok? ==> AllFits(env, ks[..i + 1]) && Add(env, t, ks[..i + 1]) == AddOne(env, Add(env, t, ks[..i]), ks[i])
    ensures r.Err? ==> NotTaken(env, t, ks, drawn, r.error)
  {
    LoadGrows(env, ks, i);
    if r.Err? && r.error == SessionTooLarge {
      NoRoom(env, t, ks, i);
    }
  }

  /** The session after a text was kept, if it can be. */
  function AfterDetail(env: Env, t: Tally, s: string): Option<Tally> {
    var ks := DetailKepts(env, s, AllPieces(env, s, t.count));
    if s != "" && AllFits(env, ks) && Room(env, t, ks) then Some(Add(env, t, ks)) else None
  }

  /** Why a text was not kept. */
  ghost predicate DetailRefused(env: Env, t: Tally, s: string, e: Error) {
    var ks := DetailKepts(env, s, AllPieces(env, s, t.count));
    match e
    case ItemTooLarge => !AllFits(env, ks)
    case SessionTooLarge => !Room(env, t, ks)
    case Collision => !FreshDraws(env, t.count + TOKEN_LIMIT)
    case Encoding => s == ""
  }

  /** The session after a collection was kept, if it can be. */
  ghost function AfterCollection(env: Env, t: Tally, name: string, items: seq<Value>): Option<Tally> {
    var ks := ListKepts(env, name, |items|, AllGroups(env, name, items), t.count);
    if !Oversized(env, name, items) && Room(env, t, ks) then Some(Add(env, t, ks)) else None
  }

  /** Why a collection was not kept. */
  ghost predicate CollectionRefused(env: Env, t: Tally, name: string, items: seq<Value>, e: Error) {
    match e
    case ItemTooLarge => Oversized(env, name, items)
    case SessionTooLarge => !Room(env, t, ListKepts(env, name, |items|, AllGroups(env, name, items), t.count))
    case Collision => !FreshDraws(env, t.count + TOKEN_LIMIT)
    case Encoding => false
  }

  ghost predicate Drawn(env: Env, t: string, n: nat) {
    exists i :: 0 <= i < n && t == env.nonce(i)
  }

  ghost predicate AllFit(env: Env, results: map<string, Kept>, n: nat) {
    forall t :: t in results ==> Fits(env, results[t]) && Drawn(env, t, n)
  }

  lemma NotUsedYet(env: Env, results: map<string, Kept>, n: nat, drawn: nat)
    requires AllFit(env, results, n) && n < drawn
    ensures FreshDraws(env, drawn) ==> env.nonce(n) !in results
  {
    forall t | t in results && FreshDraws(env, drawn)
      ensures t != env.nonce(n)
    {
      assert Drawn(env, t, n);
      var i :| 0 <= i < n && t == env.nonce(i);
    }
  }

  lemma OneMoreDrawn(env: Env, results: map<string, Kept>, token: string, k: Kept, n: nat)
    requires AllFit(env, results, n) && Fits(env, k) && token == env.nonce(n)
    ensures AllFit(env, results[token := k], n + 1)
  {
    assert Drawn(env, token, n + 1);
    forall t | t in results
      ensures Drawn(env, t, n + 1)
    {
      assert Drawn(env, t, n);
    }
  }

  ghost predicate PiecesKept(env: Env, results: map<string, Kept>, s: string, pieces: seq<Piece>, first: nat, i: nat)
    requires i <= |pieces|
  {
    forall k :: 0 <= k < i ==> KeptPiece(env, results, s, pieces, first, k)
  }

  lemma OneMorePiece(env: Env, results: map<string, Kept>, s: string, pieces: seq<Piece>, first: nat, i: nat)
    requires i < |pieces| && PiecesKept(env, results, s, pieces, first, i) && PieceOk(env, s, pieces, first, i)
    requires pieces[i].token !in results && Fits(env, Kept("details", DetailPage(env, s, pieces, i)))
    ensures PiecesKept(env, results[pieces[i].token := Kept("details", DetailPage(env, s, pieces, i))], s, pieces, first, i + 1)
  {
    var after := results[pieces[i].token := Kept("details", DetailPage(env, s, pieces, i))];
    forall k | 0 <= k < i + 1
      ensures KeptPiece(env, after, s, pieces, first, k)
    {
      if k < i {
        assert KeptPiece(env, results, s, pieces, first, k);
      }
    }
  }

  ghost predicate KeptPiece(env: Env, results: map<string, Kept>, s: string, pieces: seq<Piece>, first: nat, k: nat)
    requires k < |pieces|
  {
    && PieceOk(env, s, pieces, first, k) && pieces[k].token in results
    && results[pieces[k].token] == Kept("details", DetailPage(env, s, pieces, k))
    && Fits(env, results[pieces[k].token])
  }

  lemma PiecesChain(env: Env, results: map<string, Kept>, s: string, pieces: seq<Piece>, first: nat)
    requires Pieces(env, s, pieces, first, |s|) && InText(s, pieces) && pieces != []
    requires PiecesKept(env, results, s, pieces, first, |pieces|)
    ensures DetailChain(env, results, TokensOf(pieces), DetailPages(env, s, pieces, |pieces|), s)
  {
    var tokens, pages := TokensOf(pieces), DetailPages(env, s, pieces, |pieces|);
    PiecesAdjacent(env, s, pieces, first, |s|);
    ContentsReassemble(env, s, pieces, |pieces|);
    assert s[..|s|] == s;
    forall i | 0 <= i < |pages|
      ensures Link(results, "details", tokens, pages, i) && DetailOk(env, pages, i, s)
    {
      PieceLinked(env, results, s, pieces, first, i);
    }
  }

  lemma PieceLinked(env: Env, results: map<string, Kept>, s: string, pieces: seq<Piece>, first: nat, i: nat)
    requires InText(s, pieces) && Adjacent(pieces) && i < |pieces| && KeptPiece(env, results, s, pieces, first, i)
    ensures var pages := DetailPages(env, s, pieces, |pieces|);
            Link(results, "details", TokensOf(pieces), pages, i) && DetailOk(env, pages, i, s)
  {
    PagePrefix(env, s, pieces, |pieces|, i);
    ContentsReassemble(env, s, pieces, i);
    assert StartsWhereLastEnded(pieces, i);
  }

  lemma {:induction false} PagePrefix(env: Env, s: string, pieces: seq<Piece>, n: nat, i: nat)
    requires InText(s, pieces) && i <= n <= |pieces|
    ensures DetailPages(env, s, pieces, n)[..i] == DetailPages(env, s, pieces, i)
  {
    assert forall k :: 0 <= k < i ==> DetailPages(env, s, pieces, n)[k] == DetailPages(env, s, pieces, i)[k];
  }

  lemma MapGrows(m: map<string, Kept>, t: string, k: Kept)
    requires t !in m
    ensures |m[t := k]| == |m| + 1
  {
    assert m[t := k].Keys == m.Keys + {t};
    assert |m[t := k]| == |m[t := k].Keys| && |m| == |m.Keys|;
  }

  // ----- collections -----

  /** The groups of items that go on one page each. */
  function Concat(groups: seq<seq<Value>>): seq<Value> {
    if groups == [] then [] else Concat(groups[..|groups| - 1]) + groups[|groups| - 1]
  }

  function ListBody(total: nat, rows: seq<Value>): Body {
    List(total, |rows|, rows)
  }

  /** The size of a page with these rows and a further cursor. */
  function RowsSize(env: Env, name: string, total: nat, rows: seq<Value>): nat {
    SizeOf(env, name, ListBody(total, rows), Some(Zeros(TOKEN_LENGTH)))
  }

  /** Such a page would fit. */
  predicate RowsFit(env: Env, name: string, total: nat, rows: seq<Value>) {
    RowsSize(env, name, total, rows) <= RESULT_LIMIT
  }

  /** How many items go on the page that starts at `offset`, when `n` do already. */
  function RowsEnd(env: Env, name: string, items: seq<Value>, offset: nat, n: nat): (m: nat)
    requires n <= PAGE_ITEMS && offset + n <= |items|
    ensures n <= m <= PAGE_ITEMS && offset + m <= |items|
    decreases PAGE_ITEMS - n
  {
    if n < PAGE_ITEMS && offset + n < |items| && RowsFit(env, name, |items|, items[offset..offset + n + 1])
    then RowsEnd(env, name, items, offset, n + 1) else n
  }

  /** The groups before `offset` and all that follow, up to an item that is too large. */
  function GroupsOn(env: Env, name: string, items: seq<Value>, groups: seq<seq<Value>>, offset: nat): (all: seq<seq<Value>>)
    requires offset <= |items|
    ensures |groups| <= |all| && (offset == |items| ==> all == groups)
    decreases |items| - offset
  {
    var n := RowsEnd(env, name, items, offset, 0);
    if n == 0 then groups else GroupsOn(env, name, items, groups + [items[offset..offset + n]], offset + n)
  }

  function AllGroups(env: Env, name: string, items: seq<Value>): seq<seq<Value>> {
    GroupsOn(env, name, items, [], 0)
  }

  lemma RowsMore(env: Env, name: string, items: seq<Value>, offset: nat, rows: seq<Value>)
    requires |rows| < PAGE_ITEMS && offset + |rows| < |items| && rows == items[offset..offset + |rows|]
    ensures var more := rows + [items[offset + |rows|]];
            more == items[offset..offset + |rows| + 1]
            && RowsEnd(env, name, items, offset, |rows|) ==
               if RowsFit(env, name, |items|, more) then RowsEnd(env, name, items, offset, |rows| + 1) else |rows|
  {
    assert rows + [items[offset + |rows|]] == items[offset..offset + |rows| + 1];
  }

  lemma FirstTooLarge(env: Env, name: string, items: seq<Value>, offset: nat)
    requires offset < |items| && !RowsFit(env, name, |items|, [] + [items[offset]])
    ensures Oversized(env, name, items)
  {
    assert [] + [items[offset]] == [items[offset]];
  }

  /** The rows of the next page: as many of the next items as fit, at most `PAGE_ITEMS`. */
  method TakeRows(env: Env, name: string, items: seq<Value>, offset: nat) returns (rows: seq<Value>)
    requires offset < |items|
    ensures |rows| <= PAGE_ITEMS && offset + |rows| <= |items| && rows == items[offset..offset + |rows|]
    ensures rows != [] ==> RowsFit(env, name, |items|, rows)
    ensures |rows| < PAGE_ITEMS && offset + |rows| < |items| ==> !RowsFit(env, name, |items|, rows + [items[offset + |rows|]])
    ensures |rows| == RowsEnd(env, name, items, offset, 0) && (rows == [] ==> Oversized(env, name, items))
  {
    rows := [];
    while |rows| < PAGE_ITEMS && offset + |rows| < |items|
      invariant |rows| <= PAGE_ITEMS && offset + |rows| <= |items| && rows == items[offset..offset + |rows|]
      invariant RowsEnd(env, name, items, offset, |rows|) == RowsEnd(env, name, items, offset, 0)
      invariant rows != [] ==> RowsFit(env, name, |items|, rows)
      decreases |items| - offset - |rows|
    {
      RowsMore(env, name, items, offset, rows);
      if !RowsFit(env, name, |items|, rows + [items[offset + |rows|]]) {
        if rows == [] {
          FirstTooLarge(env, name, items, offset);
        }
        return;
      }
      rows := rows + [items[offset + |rows|]];
    }
  }

  /** Groups that together are the first items, each small enough for its page. */
  ghost predicate Grouped(env: Env, name: string, items: seq<Value>, groups: seq<seq<Value>>, offset: nat) {
    && offset <= |items| && Concat(groups) == items[..offset] && (groups == [] ==> offset == 0)
    && GroupsFit(env, name, |items|, groups)
  }

  ghost predicate GroupsFit(env: Env, name: string, total: nat, groups: seq<seq<Value>>) {
    forall i :: 0 <= i < |groups| ==> 0 < |groups[i]| <= PAGE_ITEMS && RowsFit(env, name, total, groups[i])
  }

  /** The groups up to `offset` are the ones to come first. */
  ghost predicate Grouping(env: Env, name: string, items: seq<Value>, groups: seq<seq<Value>>, offset: nat) {
    Grouped(env, name, items, groups, offset) && GroupsOn(env, name, items, groups, offset) == AllGroups(env, name, items)
  }

  lemma GroupingMore(env: Env, name: string, items: seq<Value>, groups: seq<seq<Value>>, offset: nat, rows: seq<Value>)
    requires Grouping(env, name, items, groups, offset) && 0 < |rows| <= PAGE_ITEMS && RowsFit(env, name, |items|, rows)
    requires offset + |rows| <= |items| && rows == items[offset..offset + |rows|] && |rows| == RowsEnd(env, name, items, offset, 0)
    ensures Grouping(env, name, items, groups + [rows], offset + |rows|)
  {
    GroupMore(env, name, items, groups, offset, rows);
  }

  lemma {:induction false} InSomeGroup(groups: seq<seq<Value>>, v: Value)
    requires v in Concat(groups)
    ensures exists j :: 0 <= j < |groups| && v in groups[j]
    decreases |groups|
  {
    var n := |groups| - 1;
    if v !in groups[n] {
      InSomeGroup(groups[..n], v);
      var j :| 0 <= j < n && v in groups[..n][j];
      assert v in groups[j];
    }
  }

  /** What fits on a page with others fits on one of its own. */
  lemma NotOversized(env: Env, name: string, items: seq<Value>, groups: seq<seq<Value>>)
    requires Lawful(env) && Grouped(env, name, items, groups, |items|)
    ensures !Oversized(env, name, items)
  {
    forall k | 0 <= k < |items|
      ensures RowsFit(env, name, |items|, [items[k]])
    {
      assert items[..|items|] == items && items[k] in Concat(groups);
      InSomeGroup(groups, items[k]);
      var j :| 0 <= j < |groups| && items[k] in groups[j];
      assert RowsSize(env, name, |items|, [items[k]]) <= RowsSize(env, name, |items|, groups[j]);
    }
  }

  lemma GroupMore(env: Env, name: string, items: seq<Value>, groups: seq<seq<Value>>, offset: nat, rows: seq<Value>)
    requires Grouped(env, name, items, groups, offset) && 0 < |rows| <= PAGE_ITEMS && RowsFit(env, name, |items|, rows)
    requires offset + |rows| <= |items| && rows == items[offset..offset + |rows|]
    ensures Grouped(env, name, items, groups + [rows], offset + |rows|)
  {
    ConcatMore(groups, rows);
    assert items[..offset] + items[offset..offset + |rows|] == items[..offset + |rows|];
  }

  /** Some item is too large for a page of its own. */
  ghost predicate Oversized(env: Env, name: string, items: seq<Value>) {
    exists k :: 0 <= k < |items| && !RowsFit(env, name, |items|, [items[k]])
  }

  function ListPage(env: Env, total: nat, groups: seq<seq<Value>>, first: nat, i: nat): Page
    requires i < |groups|
  {
    Page(ListBody(total, groups[i]), if i + 1 < |groups| then Some(env.nonce(first + i + 1)) else None, i + 1 < |groups|)
  }

  /** Everything that is kept for a collection, if it is. */
  function ListKepts(env: Env, name: string, total: nat, groups: seq<seq<Value>>, first: nat): (ks: seq<Kept>)
    ensures |ks| == |groups| && forall i :: 0 <= i < |ks| ==> ks[i] == Kept(name, ListPage(env, total, groups, first, i))
  {
    seq(|groups|, i requires 0 <= i < |groups| => Kept(name, ListPage(env, total, groups, first, i)))
  }

  /** The first page of a collection, and its cursor. */
  function FirstPage(env: Env, name: string, items: seq<Value>, first: nat): (Page, Option<string>) {
    var groups := AllGroups(env, name, items);
    if groups == [] then (Page(List(0, 0, []), None, false), None)
    else (ListPage(env, |items|, groups, first, 0), Some(env.nonce(first)))
  }

  function ListPages(env: Env, total: nat, groups: seq<seq<Value>>, first: nat, n: nat): (pages: seq<Page>)
    requires n <= |groups|
    ensures |pages| == n && forall i :: 0 <= i < n ==> pages[i] == ListPage(env, total, groups, first, i)
  {
    if n == 0 then [] else ListPages(env, total, groups, first, n - 1) + [ListPage(env, total, groups, first, n - 1)]
  }

  lemma {:induction false} ItemsReassemble(env: Env, total: nat, groups: seq<seq<Value>>, first: nat, n: nat)
    requires n <= |groups|
    ensures Items(ListPages(env, total, groups, first, n)) == Concat(groups[..n])
  {
    if n > 0 {
      var before, page := ListPages(env, total, groups, first, n - 1), ListPage(env, total, groups, first, n - 1);
      ItemsReassemble(env, total, groups, first, n - 1);
      ItemsStep(before, page, groups[..n - 1]);
      TakeMore(groups, n - 1);
      assert ListPages(env, total, groups, first, n) == before + [page];
      assert groups[..n] == groups[..n - 1] + [page.body.items];
    } else {
      assert groups[..n] == [];
    }
  }

  lemma ItemsStep(pages: seq<Page>, p: Page, groups: seq<seq<Value>>)
    requires Items(pages) == Concat(groups) && p.body.List?
    ensures Items(pages + [p]) == Concat(groups + [p.body.items])
  {
    ItemsMore(pages, p);
    ConcatMore(groups, p.body.items);
  }

  lemma ConcatMore(groups: seq<seq<Value>>, rows: seq<Value>)
    ensures Concat(groups + [rows]) == Concat(groups) + rows
  {
    assert (groups + [rows])[..|groups|] == groups;
  }

  lemma ItemsMore(pages: seq<Page>, p: Page)
    ensures Items(pages + [p]) == Items(pages) + if p.body.List? then p.body.items else []
  {
    assert (pages + [p])[..|pages|] == pages;
  }

  ghost predicate PageKept(env: Env, results: map<string, Kept>, name: string, total: nat, groups: seq<seq<Value>>, first: nat, k: nat)
    requires k < |groups|
  {
    && env.nonce(first + k) in results
    && results[env.nonce(first + k)] == Kept(name, ListPage(env, total, groups, first, k))
    && Fits(env, results[env.nonce(first + k)])
  }

  ghost predicate PagesKept(env: Env, results: map<string, Kept>, name: string, total: nat, groups: seq<seq<Value>>, first: nat, i: nat)
    requires i <= |groups|
  {
    forall k :: 0 <= k < i ==> PageKept(env, results, name, total, groups, first, k)
  }

  lemma OneMorePage(env: Env, results: map<string, Kept>, name: string, total: nat, groups: seq<seq<Value>>, first: nat, i: nat)
    requires i < |groups| && PagesKept(env, results, name, total, groups, first, i)
    requires env.nonce(first + i) !in results && Fits(env, Kept(name, ListPage(env, total, groups, first, i)))
    ensures PagesKept(env, results[env.nonce(first + i) := Kept(name, ListPage(env, total, groups, first, i))], name, total, groups, first, i + 1)
  {
    var after := results[env.nonce(first + i) := Kept(name, ListPage(env, total, groups, first, i))];
    forall k | 0 <= k < i + 1
      ensures PageKept(env, after, name, total, groups, first, k)
    {
      if k < i {
        assert PageKept(env, results, name, total, groups, first, k);
      }
    }
  }

  /** A page whose rows fit with a further cursor fits as it is kept. */
  lemma PageFits(env: Env, name: string, items: seq<Value>, groups: seq<seq<Value>>, offset: nat, first: nat, i: nat)
    requires Lawful(env) && Grouped(env, name, items, groups, offset) && i < |groups|
    ensures Fits(env, Kept(name, ListPage(env, |items|, groups, first, i)))
  {
    var body := ListBody(|items|, groups[i]);
    assert RowsFit(env, name, |items|, groups[i]);
    assert SizeOf(env, name, body, None) <= SizeOf(env, name, body, Some(Zeros(TOKEN_LENGTH)));
    assert SizeOf(env, name, body, Some(env.nonce(first + i + 1))) == SizeOf(env, name, body, Some(Zeros(TOKEN_LENGTH)));
  }

  lemma ListFits(env: Env, name: string, items: seq<Value>, groups: seq<seq<Value>>, first: nat)
    requires Lawful(env) && Grouped(env, name, items, groups, |items|)
    ensures AllFits(env, ListKepts(env, name, |items|, groups, first))
  {
    forall i | 0 <= i < |groups|
      ensures Fits(env, ListKepts(env, name, |items|, groups, first)[i])
    {
      PageFits(env, name, items, groups, |items|, first, i);
    }
  }

  ghost function DrawnTokens(env: Env, first: nat, n: nat): (s: seq<string>)
    ensures |s| == n && forall i :: 0 <= i < n ==> s[i] == env.nonce(first + i)
  {
    if n == 0 then [] else DrawnTokens(env, first, n - 1) + [env.nonce(first + n - 1)]
  }

  lemma PagesChain(env: Env, results: map<string, Kept>, name: string, items: seq<Value>, groups: seq<seq<Value>>, first: nat)
    requires Grouped(env, name, items, groups, |items|) && groups != []
    requires PagesKept(env, results, name, |items|, groups, first, |groups|)
    ensures ListChain(env, results, name, DrawnTokens(env, first, |groups|), ListPages(env, |items|, groups, first, |groups|), items)
  {
    var tokens, pages := DrawnTokens(env, first, |groups|), ListPages(env, |items|, groups, first, |groups|);
    ItemsReassemble(env, |items|, groups, first, |groups|);
    assert groups[..|groups|] == groups && items[..|items|] == items;
    forall i | 0 <= i < |pages|
      ensures Link(results, name, tokens, pages, i) && ListOk(env, name, pages[i], |items|)
    {
      assert PageKept(env, results, name, |items|, groups, first, i);
    }
  }

  // ----- what a client reads -----

  /** Reading a detail from its cursor restores the text. */
  lemma ReadingRestoresText(env: Env, results: map<string, Kept>, tokens: seq<string>, pages: seq<Page>, s: string, limit: nat)
    requires DetailChain(env, results, tokens, pages, s) && limit >= |pages|
    ensures Contents(Follow(results, tokens[0], limit)) == s
  {
    FollowVisits(results, "details", tokens, pages, 0, limit);
    assert pages[0..] == pages;
  }

  /** Reading a collection from its cursor visits every item once, in order. */
  lemma ReadingVisitsItems(env: Env, results: map<string, Kept>, name: string, tokens: seq<string>, pages: seq<Page>,
                           items: seq<Value>, limit: nat)
    requires ListChain(env, results, name, tokens, pages, items) && limit >= |pages|
    ensures Items(Follow(results, tokens[0], limit)) == items
  {
    FollowVisits(results, name, tokens, pages, 0, limit);
    assert pages[0..] == pages;
  }

  /** What is kept later disturbs no chain. */
  lemma ChainSurvives(env: Env, before: map<string, Kept>, after: map<string, Kept>, name: string, tokens: seq<string>,
                      pages: seq<Page>, items: seq<Value>)
    requires ListChain(env, before, name, tokens, pages, items) && Extends(before, after)
    ensures ListChain(env, after, name, tokens, pages, items)
  {
    forall i | 0 <= i < |pages|
      ensures Link(after, name, tokens, pages, i)
    {
      assert Link(before, name, tokens, pages, i);
    }
  }

  /** The page of a collection in the first answer: its first page, or only the way to it when that would be too much. */
  function Placed(page: Page, first: Option<string>, total: nat, fits: bool): Page {
    if fits then page else Page(List(total, 0, []), first, total > 0)
  }

  /** From the page shown first, the cursors lead to every item once, in order. */
  ghost predicate Reaches(results: map<string, Kept>, page: Page, items: seq<Value>) {
    Items([page] + if page.next.Some? then Follow(results, page.next.value, |items|) else []) == items
  }

  lemma {:induction false} ItemsConcat(a: seq<Page>, b: seq<Page>)
    ensures Items(a + b) == Items(a) + Items(b)
    decreases |b|
  {
    if b == [] {
      assert a + b == a;
    } else {
      var n := |b| - 1;
      assert (a + b)[..|a + b| - 1] == a + b[..n];
      ItemsConcat(a, b[..n]);
    }
  }

  /** Every page has an item, so there are no more pages than items. */
  lemma {:induction false} PagesFew(env: Env, name: string, pages: seq<Page>, total: nat)
    requires forall i :: 0 <= i < |pages| ==> ListOk(env, name, pages[i], total)
    ensures |pages| <= |Items(pages)|
    decreases |pages|
  {
    if pages != [] {
      PagesFew(env, name, pages[..|pages| - 1], total);
      assert ListOk(env, name, pages[|pages| - 1], total);
    }
  }

  lemma PlacedReaches(env: Env, results: map<string, Kept>, name: string, tokens: seq<string>, pages: seq<Page>,
                      items: seq<Value>, fits: bool)
    requires ListChain(env, results, name, tokens, pages, items)
    ensures Reaches(results, Placed(pages[0], Some(tokens[0]), |items|, fits), items)
  {
    PagesFew(env, name, pages, |items|);
    var page := Placed(pages[0], Some(tokens[0]), |items|, fits);
    if fits {
      assert Link(results, name, tokens, pages, 0);
      if |pages| > 1 {
        FollowVisits(results, name, tokens, pages, 1, |items|);
        assert [pages[0]] + pages[1..] == pages;
      } else {
        assert [pages[0]] + [] == pages;
      }
    } else {
      ReadingVisitsItems(env, results, name, tokens, pages, items, |items|);
      ItemsConcat([page], Follow(results, tokens[0], |items|));
      assert [page][..0] == [] && Items([page]) == [];
    }
  }

  lemma EmptyReaches(results: map<string, Kept>, fits: bool)
    ensures Reaches(results, Placed(Page(List(0, 0, []), None, false), None, 0, fits), [])
  {
    var page := Placed(Page(List(0, 0, []), None, false), None, 0, fits);
    assert [page] + [] == [page] && [page][..0] == [];
  }

  datatype Collection = Collection(name: string, items: seq<Value>)

  /** The collection is kept, and the page shown first is its first page or the way to it. */
  ghost predicate Served(env: Env, results: map<string, Kept>, c: Collection, page: Page) {
    if c.items == [] then exists fits :: page == Placed(Page(List(0, 0, []), None, false), None, 0, fits)
    else exists tokens, pages, fits ::
      ListChain(env, results, c.name, tokens, pages, c.items) && page == Placed(pages[0], Some(tokens[0]), |c.items|, fits)
  }

  ghost predicate AllServed(env: Env, results: map<string, Kept>, shown: seq<Page>, collections: seq<Collection>) {
    |shown| <= |collections| && forall i :: 0 <= i < |shown| ==> Served(env, results, collections[i], shown[i])
  }

  lemma ServedReaches(env: Env, results: map<string, Kept>, c: Collection, page: Page)
    requires Served(env, results, c, page)
    ensures Reaches(results, page, c.items)
  {
    if c.items == [] {
      var fits :| page == Placed(Page(List(0, 0, []), None, false), None, 0, fits);
      EmptyReaches(results, fits);
    } else {
      var tokens, pages, fits :|
        ListChain(env, results, c.name, tokens, pages, c.items) && page == Placed(pages[0], Some(tokens[0]), |c.items|, fits);
      PlacedReaches(env, results, c.name, tokens, pages, c.items, fits);
    }
  }

  lemma StillServed(env: Env, before: map<string, Kept>, after: map<string, Kept>, c: Collection, page: Page)
    requires Served(env, before, c, page) && Extends(before, after)
    ensures Served(env, after, c, page)
  {
    if c.items != [] {
      var tokens, pages, fits :|
        ListChain(env, before, c.name, tokens, pages, c.items) && page == Placed(pages[0], Some(tokens[0]), |c.items|, fits);
      ChainSurvives(env, before, after, c.name, tokens, pages, c.items);
    }
  }

  lemma ServeMore(env: Env, before: map<string, Kept>, after: map<string, Kept>, shown: seq<Page>, collections: seq<Collection>, page: Page)
    requires AllServed(env, before, shown, collections) && Extends(before, after)
    requires |shown| < |collections| && Served(env, after, collections[|shown|], page)
    ensures AllServed(env, after, shown + [page], collections)
  {
    forall i | 0 <= i < |shown|
      ensures Served(env, after, collections[i], (shown + [page])[i])
    {
      StillServed(env, before, after, collections[i], shown[i]);
    }
  }

  /** The text is kept as a chain of pages that starts at the cursor. */
  ghost predicate Detailed(env: Env, results: map<string, Kept>, cursor: string, text: string) {
    exists tokens, pages :: DetailChain(env, results, tokens, pages, text) && cursor == tokens[0]
  }

  ghost predicate AllDetailed(env: Env, results: map<string, Kept>, cursors: seq<string>, texts: seq<string>) {
    |cursors| <= |texts| && forall k :: 0 <= k < |cursors| ==> Detailed(env, results, cursors[k], texts[k])
  }

  lemma StillDetailed(env: Env, before: map<string, Kept>, after: map<string, Kept>, cursor: string, text: string)
    requires Detailed(env, before, cursor, text) && Extends(before, after)
    ensures Detailed(env, after, cursor, text)
  {
    var tokens, pages :| DetailChain(env, before, tokens, pages, text) && cursor == tokens[0];
    forall i | 0 <= i < |pages|
      ensures Link(after, "details", tokens, pages, i)
    {
      assert Link(before, "details", tokens, pages, i);
    }
    assert DetailChain(env, after, tokens, pages, text);
  }

  lemma AllStillDetailed(env: Env, before: map<string, Kept>, after: map<string, Kept>, cursors: seq<string>, texts: seq<string>)
    requires AllDetailed(env, before, cursors, texts) && Extends(before, after)
    ensures AllDetailed(env, after, cursors, texts)
  {
    forall k | 0 <= k < |cursors|
      ensures Detailed(env, after, cursors[k], texts[k])
    {
      StillDetailed(env, before, after, cursors[k], texts[k]);
    }
  }

  lemma DetailMore(env: Env, before: map<string, Kept>, after: map<string, Kept>, cursors: seq<string>, texts: seq<string>, cursor: string)
    requires AllDetailed(env, before, cursors, texts) && Extends(before, after)
    requires |cursors| < |texts| && Detailed(env, after, cursor, texts[|cursors|])
    ensures AllDetailed(env, after, cursors + [cursor], texts)
  {
    AllStillDetailed(env, before, after, cursors, texts);
  }

  /** Every page has text, so there are no more pages than bytes. */
  lemma {:induction false} ChunksFew(env: Env, pages: seq<Page>, n: nat, s: string)
    requires n <= |pages| && forall i :: 0 <= i < |pages| ==> DetailOk(env, pages, i, s)
    ensures n <= |Contents(pages[..n])|
  {
    if n > 0 {
      ChunksFew(env, pages, n - 1, s);
      assert pages[..n][..n - 1] == pages[..n - 1] && pages[..n][n - 1] == pages[n - 1];
      assert DetailOk(env, pages, n - 1, s);
    }
  }

  lemma DetailedReads(env: Env, results: map<string, Kept>, cursor: string, text: string)
    requires Detailed(env, results, cursor, text)
    ensures Contents(Follow(results, cursor, |text|)) == text
  {
    var tokens, pages :| DetailChain(env, results, tokens, pages, text) && cursor == tokens[0];
    ChunksFew(env, pages, |pages|, text);
    assert pages[..|pages|] == pages;
    ReadingRestoresText(env, results, tokens, pages, text, |text|);
  }

  /** The session after some texts were kept, and their cursors. */
  datatype Texts = Texts(tally: Tally, cursors: seq<string>)

  /** What keeping the texts one after the other comes to, if there is room for them. */
  function AfterTexts(env: Env, texts: seq<string>): Option<Texts> {
    if texts == [] then Some(Texts(Tally(0, 0), []))
    else
      var n := |texts| - 1;
      var before := AfterTexts(env, texts[..n]);
      if before.None? then None
      else
        var t := before.value.tally;
        var after := AfterDetail(env, t, texts[n]);
        if after.None? then None else Some(Texts(after.value, before.value.cursors + [env.nonce(t.count)]))
  }

  lemma {:induction false} NoRoomLater(env: Env, texts: seq<string>, k: nat)
    requires k <= |texts| && AfterTexts(env, texts[..k]).None?
    ensures AfterTexts(env, texts).None?
    decreases |texts|
  {
    if k == |texts| {
      assert texts[..k] == texts;
    } else {
      assert texts[..|texts| - 1][..k] == texts[..k];
      NoRoomLater(env, texts[..|texts| - 1], k);
    }
  }

  /** The first texts are kept, as far as there are cursors. */
  ghost predicate TextsKept(env: Env, results: map<string, Kept>, t: Tally, texts: seq<string>, cursors: seq<string>) {
    AllDetailed(env, results, cursors, texts) && AfterTexts(env, texts[..|cursors|]) == Some(Texts(t, cursors))
  }

  lemma TextsStep(env: Env, results: map<string, Kept>, t: Tally, texts: seq<string>, cursors: seq<string>)
    requires TextsKept(env, results, t, texts, cursors) && |cursors| < |texts|
    ensures AfterDetail(env, t, texts[|cursors|]).None? ==> AfterTexts(env, texts).None?
    ensures AfterDetail(env, t, texts[|cursors|]).Some? ==>
              AfterTexts(env, texts[..|cursors| + 1]) ==
              Some(Texts(AfterDetail(env, t, texts[|cursors|]).value, cursors + [env.nonce(t.count)]))
  {
    var k := |cursors|;
    assert texts[..k + 1][..k] == texts[..k];
    if AfterDetail(env, t, texts[k]).None? {
      NoRoomLater(env, texts, k + 1);
    }
  }

  lemma TextsMore(env: Env, before: map<string, Kept>, t: Tally, after: map<string, Kept>, u: Tally, texts: seq<string>,
                  cursors: seq<string>, cursor: string)
    requires TextsKept(env, before, t, texts, cursors) && |cursors| < |texts| && Extends(before, after)
    requires Detailed(env, after, cursor, texts[|cursors|]) && cursor == env.nonce(t.count)
    requires AfterDetail(env, t, texts[|cursors|]) == Some(u)
    ensures TextsKept(env, after, u, texts, cursors + [cursor])
  {
    DetailMore(env, before, after, cursors, texts, cursor);
    TextsStep(env, before, t, texts, cursors);
  }

  lemma TextsDone(env: Env, results: map<string, Kept>, t: Tally, texts: seq<string>, cursors: seq<string>)
    requires TextsKept(env, results, t, texts, cursors) && |cursors| == |texts|
    ensures AfterTexts(env, texts) == Some(Texts(t, cursors))
  {
    assert texts[..|texts|] == texts;
  }

  lemma RefusedIsNone(env: Env, t: Tally, s: string, e: Error)
    requires DetailRefused(env, t, s, e) && e != Collision
    ensures AfterDetail(env, t, s).None?
  {
  }

  /** The details of every lane and chat. */
  method KeepTexts(builder: Builder, texts: seq<string>) returns (r: Result<seq<string>, Error>)
    requires builder.Valid() && builder.Filled() == Tally(0, 0) && AllUtf8(texts)
    modifies builder
    ensures r.Ok? ==> builder.Valid() && |r.value| == |texts| && AllDetailed(builder.env, builder.results, r.value, texts)
    ensures r.Ok? ==> AfterTexts(builder.env, texts) == Some(Texts(builder.Filled(), r.value))
    ensures r.Err? ==> if r.error == Collision then !FreshDraws(builder.env, 2 * TOKEN_LIMIT) else AfterTexts(builder.env, texts).None?
  {
    var cursors: seq<string> := [];
    for k := 0 to |texts|
      invariant builder.Valid() && |cursors| == k && TextsKept(builder.env, builder.results, builder.Filled(), texts, cursors)
    {
      ghost var before, t := builder.results, builder.Filled();
      TextsStep(builder.env, before, t, texts, cursors);
      var kept := KeepText(builder, texts[k]);
      if kept.Err? {
        return Err(kept.error);
      }
      TextsMore(builder.env, before, t, builder.results, builder.Filled(), texts, cursors, kept.value);
      cursors := cursors + [kept.value];
    }
    TextsDone(builder.env, builder.results, builder.Filled(), texts, cursors);
    r := Ok(cursors);
  }

  /** One round of it. */
  method KeepText(builder: Builder, s: string) returns (r: Result<string, Error>)
    requires builder.Valid() && Utf8(s)
    modifies builder
    ensures r.Ok? ==> builder.Valid() && Extends(old(builder.results), builder.results)
    ensures r.Ok? ==> Detailed(builder.env, builder.results, r.value, s) && r.value == builder.env.nonce(old(builder.Filled()).count)
    ensures r.Ok? ==> AfterDetail(builder.env, old(builder.Filled()), s) == Some(builder.Filled())
    ensures r.Err? ==> if r.error == Collision then !FreshDraws(builder.env, 2 * TOKEN_LIMIT)
                       else AfterDetail(builder.env, old(builder.Filled()), s).None?
  {
    ghost var t := builder.Filled();
    ghost var tokens, pages;
    r, tokens, pages := builder.KeepDetail(s);
    if r.Ok? {
      assert Detailed(builder.env, builder.results, r.value, s);
    } else if r.error == Collision {
      MoreDraws(builder.env, t.count + TOKEN_LIMIT, 2 * TOKEN_LIMIT);
    } else {
      RefusedIsNone(builder.env, t, s, r.error);
    }
  }

  /** The session after some collections were kept, and what is shown of them. */
  datatype Shown = Shown(tally: Tally, pages: seq<Page>)

  /** The page of a collection that joins those shown already. */
  function PlacedNext(env: Env, weight: seq<Page> -> nat, shown: seq<Page>, c: Collection, first: nat): Page {
    var (page, cursor) := FirstPage(env, c.name, c.items, first);
    Placed(page, cursor, |c.items|, weight(shown + [page]) <= RESULT_LIMIT)
  }

  /** What keeping and showing the collections one after the other comes to, if there is room for them. */
  ghost function AfterShowing(env: Env, weight: seq<Page> -> nat, t: Tally, collections: seq<Collection>): Option<Shown> {
    if collections == [] then Some(Shown(t, []))
    else
      var n := |collections| - 1;
      var before := AfterShowing(env, weight, t, collections[..n]);
      if before.None? then None else ShowNext(env, weight, before.value, collections[n])
  }

  ghost function ShowNext(env: Env, weight: seq<Page> -> nat, s: Shown, c: Collection): Option<Shown> {
    var after, pages := AfterCollection(env, s.tally, c.name, c.items), s.pages + [PlacedNext(env, weight, s.pages, c, s.tally.count)];
    if after.None? || weight(pages) > RESULT_LIMIT then None else Some(Shown(after.value, pages))
  }

  lemma {:induction false} NoShowLater(env: Env, weight: seq<Page> -> nat, t: Tally, collections: seq<Collection>, k: nat)
    requires k <= |collections| && AfterShowing(env, weight, t, collections[..k]).None?
    ensures AfterShowing(env, weight, t, collections).None?
    decreases |collections|
  {
    if k == |collections| {
      assert collections[..k] == collections;
    } else {
      assert collections[..|collections| - 1][..k] == collections[..k];
      NoShowLater(env, weight, t, collections[..|collections| - 1], k);
    }
  }

  /** The first collections are kept and shown, as far as there are pages. */
  ghost predicate ShownKept(env: Env, results: map<string, Kept>, weight: seq<Page> -> nat, t: Tally, u: Tally,
                            collections: seq<Collection>, shown: seq<Page>) {
    && AllServed(env, results, shown, collections) && weight(shown) <= RESULT_LIMIT
    && AfterShowing(env, weight, t, collections[..|shown|]) == Some(Shown(u, shown))
  }

  lemma ShowStep(env: Env, results: map<string, Kept>, weight: seq<Page> -> nat, t: Tally, u: Tally,
                 collections: seq<Collection>, shown: seq<Page>)
    requires ShownKept(env, results, weight, t, u, collections, shown) && |shown| < |collections|
    ensures var next := ShowNext(env, weight, Shown(u, shown), collections[|shown|]);
            if next.None? then AfterShowing(env, weight, t, collections).None?
            else AfterShowing(env, weight, t, collections[..|shown| + 1]) == next
  {
    var k := |shown|;
    assert collections[..k + 1][..k] == collections[..k];
    if ShowNext(env, weight, Shown(u, shown), collections[k]).None? {
      NoShowLater(env, weight, t, collections, k + 1);
    }
  }

  lemma ShowMore(env: Env, before: map<string, Kept>, after: map<string, Kept>, weight: seq<Page> -> nat, t: Tally, u: Tally,
                 v: Tally, collections: seq<Collection>, shown: seq<Page>, page: Page)
    requires ShownKept(env, before, weight, t, u, collections, shown) && |shown| < |collections| && Extends(before, after)
    requires Served(env, after, collections[|shown|], page) && weight(shown + [page]) <= RESULT_LIMIT
    requires ShowNext(env, weight, Shown(u, shown), collections[|shown|]) == Some(Shown(v, shown + [page]))
    ensures ShownKept(env, after, weight, t, v, collections, shown + [page])
  {
    ServeMore(env, before, after, shown, collections, page);
    ShowStep(env, before, weight, t, u, collections, shown);
  }

  lemma ShowDone(env: Env, results: map<string, Kept>, weight: seq<Page> -> nat, t: Tally, u: Tally,
                 collections: seq<Collection>, shown: seq<Page>)
    requires ShownKept(env, results, weight, t, u, collections, shown) && |shown| == |collections|
    ensures AfterShowing(env, weight, t, collections) == Some(Shown(u, shown))
  {
    assert collections[..|collections|] == collections;
  }

  lemma RefusedCollectionIsNone(env: Env, t: Tally, c: Collection, e: Error)
    requires CollectionRefused(env, t, c.name, c.items, e) && e != Collision
    ensures AfterCollection(env, t, c.name, c.items).None?
  {
  }

  /** Keeps every collection and shows its first page, or only the way to it. */
  method ShowCollections(builder: Builder, weight: seq<Page> -> nat, collections: seq<Collection>) returns (r: Result<seq<Page>, Error>)
    requires builder.Valid() && weight([]) <= RESULT_LIMIT
    modifies builder
    ensures r.Ok? ==> builder.Valid() && Extends(old(builder.results), builder.results) && weight(r.value) <= RESULT_LIMIT
    ensures r.Ok? ==> |r.value| == |collections| && AllServed(builder.env, builder.results, r.value, collections)
    ensures r.Ok? ==> AfterShowing(builder.env, weight, old(builder.Filled()), collections) == Some(Shown(builder.Filled(), r.value))
    ensures r.Err? ==> if r.error == Collision then !FreshDraws(builder.env, 2 * TOKEN_LIMIT)
                       else AfterShowing(builder.env, weight, old(builder.Filled()), collections).None?
  {
    var shown: seq<Page> := [];
    ghost var t := builder.Filled();
    for i := 0 to |collections|
      invariant builder.Valid() && Extends(old(builder.results), builder.results)
      invariant |shown| == i && ShownKept(builder.env, builder.results, weight, t, builder.Filled(), collections, shown)
    {
      ghost var before, u := builder.results, builder.Filled();
      ShowStep(builder.env, before, weight, t, u, collections, shown);
      var placed := ShowOne(builder, weight, collections[i], shown);
      if placed.Err? {
        return Err(placed.error);
      }
      ShowMore(builder.env, before, builder.results, weight, t, u, builder.Filled(), collections, shown, placed.value);
      shown := shown + [placed.value];
    }
    ShowDone(builder.env, builder.results, weight, t, builder.Filled(), collections, shown);
    r := Ok(shown);
  }

  /** One round of it. */
  method ShowOne(builder: Builder, weight: seq<Page> -> nat, c: Collection, shown: seq<Page>) returns (r: Result<Page, Error>)
    requires builder.Valid()
    modifies builder
    ensures r.Ok? ==> builder.Valid() && Extends(old(builder.results), builder.results)
    ensures r.Ok? ==> Served(builder.env, builder.results, c, r.value) && weight(shown + [r.value]) <= RESULT_LIMIT
    ensures r.Ok? ==> ShowNext(builder.env, weight, Shown(old(builder.Filled()), shown), c) == Some(Shown(builder.Filled(), shown + [r.value]))
    ensures r.Err? ==> if r.error == Collision then !FreshDraws(builder.env, 2 * TOKEN_LIMIT)
                       else ShowNext(builder.env, weight, Shown(old(builder.Filled()), shown), c).None?
  {
    ghost var t := builder.Filled();
    var kept, tokens, pages := builder.KeepCollection(c.name, c.items);
    if kept.Err? {
      if kept.error == Collision {
        MoreDraws(builder.env, t.count + TOKEN_LIMIT, 2 * TOKEN_LIMIT);
      } else {
        RefusedCollectionIsNone(builder.env, t, c, kept.error);
      }
      return Err(kept.error);
    }
    var (page, first) := kept.value;
    var fits := weight(shown + [page]) <= RESULT_LIMIT;
    var placed := Placed(page, first, |c.items|, fits);
    assert placed == PlacedNext(builder.env, weight, shown, c, t.count);
    if weight(shown + [placed]) > RESULT_LIMIT {
      return Err(ItemTooLarge);
    }
    r := Ok(placed);
  }

  /** What the client is given, and what is kept for it. */
  datatype Built = Built(shown: seq<Page>, cursors: seq<string>, results: map<string, Kept>)

  /** The limits that a summary has to keep, and what is shown when it does. */
  ghost function Buildable(env: Env, source: nat, weight: seq<Page> -> nat, texts: seq<string>, list: seq<string> -> seq<Collection>)
    : Option<seq<Page>>
  {
    var kept := AfterTexts(env, texts);
    if source > SESSION_LIMIT || weight([]) > RESULT_LIMIT || kept.None? then None
    else
      var shown := AfterShowing(env, weight, kept.value.tally, list(kept.value.cursors));
      if shown.None? || shown.value.tally.bytes + weight(shown.value.pages) > SESSION_LIMIT then None else Some(shown.value.pages)
  }

  /**
   * `build`: the texts of lanes and chats are kept first, and their cursors go into the items of the collections, which
   * `list` makes of them. From what is shown, every item of every collection is reached once and in order; from every
   * cursor its text is read back; and everything kept fits. It fails only when a limit is exceeded or a token repeats.
   */
  method Build(env: Env, source: nat, weight: seq<Page> -> nat, texts: seq<string>, list: seq<string> -> seq<Collection>)
    returns (r: Result<Built, Error>)
    requires Lawful(env) && AllUtf8(texts)
    ensures r.Ok? ==> weight(r.value.shown) <= RESULT_LIMIT && forall t :: t in r.value.results ==> Fits(env, r.value.results[t])
    ensures r.Ok? ==> |r.value.cursors| == |texts| && forall k :: 0 <= k < |texts| ==>
                        Contents(Follow(r.value.results, r.value.cursors[k], |texts[k]|)) == texts[k]
    ensures r.Ok? ==> var collections := list(r.value.cursors);
                      |r.value.shown| == |collections| && forall i :: 0 <= i < |collections| ==>
                        Reaches(r.value.results, r.value.shown[i], collections[i].items)
    ensures r.Ok? ==> Buildable(env, source, weight, texts, list) == Some(r.value.shown)
    ensures r.Err? && r.error != Collision ==> Buildable(env, source, weight, texts, list).None?
    ensures FreshDraws(env, 2 * TOKEN_LIMIT) ==> (r.Ok? <==> Buildable(env, source, weight, texts, list).Some?)
  {
    if source > SESSION_LIMIT {
      return Err(SessionTooLarge);
    }
    if weight([]) > RESULT_LIMIT {
      return Err(ItemTooLarge);
    }
    var builder := new Builder(env);
    var cursors := KeepTexts(builder, texts);
    if cursors.Err? {
      return Err(cursors.error);
    }
    ghost var before := builder.results;
    var collections := list(cursors.value);
    var shown := ShowCollections(builder, weight, collections);
    if shown.Err? {
      return Err(shown.error);
    }
    if builder.bytes + weight(shown.value) > SESSION_LIMIT {
      return Err(SessionTooLarge);
    }
    AllStillDetailed(env, before, builder.results, cursors.value, texts);
    AllRead(env, builder.results, cursors.value, texts, shown.value, collections);
    r := Ok(Built(shown.value, cursors.value, builder.results));
  }

  lemma AllRead(env: Env, results: map<string, Kept>, cursors: seq<string>, texts: seq<string>, shown: seq<Page>,
                collections: seq<Collection>)
    requires AllDetailed(env, results, cursors, texts) && AllServed(env, results, shown, collections)
    ensures forall k :: 0 <= k < |cursors| ==> Contents(Follow(results, cursors[k], |texts[k]|)) == texts[k]
    ensures forall i :: 0 <= i < |shown| ==> Reaches(results, shown[i], collections[i].items)
  {
    forall k | 0 <= k < |cursors|
      ensures Contents(Follow(results, cursors[k], |texts[k]|)) == texts[k]
    {
      DetailedReads(env, results, cursors[k], texts[k]);
    }
    forall i | 0 <= i < |shown|
      ensures Reaches(results, shown[i], collections[i].items)
    {
      ServedReaches(env, results, collections[i], shown[i]);
    }
  }

  // ----- the session -----

  datatype Session = Session(created: nat, results: map<string, Kept>)
  datatype CursorError = InvalidCursor | ExpiredOrUnknown

  class SummaryState {
    var session: Option<Session>

    constructor ()
      ensures session == None
    {
      session := None;
    }

    method Capture(results: map<string, Kept>, now: nat)
      modifies this
      ensures session == Some(Session(now, results))
    {
      session := Some(Session(now, results));
    }

    /**
     * `page`: within the lifetime of the snapshot a cursor always gives the same page, however often it is asked; after
     * that the whole snapshot is gone.
     */
    method GetPage(cursor: string, now: nat) returns (r: Result<Kept, CursorError>)
      modifies this
      ensures var live := old(session).Some? && now < old(session).value.created + TTL;
              && (r.Ok? <==> |cursor| == TOKEN_LENGTH && live && cursor in old(session).value.results)
              && (r.Ok? ==> r.value == old(session).value.results[cursor] && session == old(session))
              && (r == Err(InvalidCursor) <==> |cursor| != TOKEN_LENGTH)
              && session == (if |cursor| == TOKEN_LENGTH && !live then None else old(session))
    {
      if |cursor| != TOKEN_LENGTH {
        return Err(InvalidCursor);
      }
      if session.Some? && now >= session.value.created + TTL {
        session := None;
      }
      if session.None? || cursor !in session.value.results {
        return Err(ExpiredOrUnknown);
      }
      r := Ok(session.value.results[cursor]);
    }
  }

  // ----- the assumptions can be met -----

  /** Sizes and tokens as assumed, with more different tokens than a session keeps. */
  lemma LawfulEnvExists() returns (env: Env)
    ensures Lawful(env) && FreshDraws(env, 2 * TOKEN_LIMIT)
  {
    env := Env((k: Kept) => if k.page.next.None? then 4 else 66, (i: nat) => Hex(i, TOKEN_LENGTH), s => s);
    forall i, j | 0 <= i < j < 2 * TOKEN_LIMIT
      ensures env.nonce(i) != env.nonce(j)
    {
      HexDiffer(i, j, TOKEN_LENGTH);
    }
  }
}
