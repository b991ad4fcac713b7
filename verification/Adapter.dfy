/** Installing hook bindings into a configuration file shared with others, and taking them out again (src/adapter.rs). */
module Adapter {
  import opened Prelude

  const OWNED_PREFIX := "devmap/v1/"
  const CODEX_END := "devmap/v1/codex/SessionEnd"
  const NEWLINE: byte := 10
  const MAX_ADAPTER_CONFIG_BYTES := 0x40_0000

  // ----- documents -----

  /** A handler: its type, its command, and the rest of its members in canonical form. */
  datatype Handler = Handler(kind: string, command: Option<string>, rest: string)

  /** A group of handlers for one event; `rest` is whatever else its author wrote into it. */
  datatype Group = Group(matcher: Option<string>, rest: string, handlers: seq<Handler>)

  type Hooks = map<string, seq<Group>>

  /** A configuration; `rest` is every other member of the top level. */
  datatype Document = Document(rest: string, hooks: Option<Hooks>)

  datatype Error = Malformed | TooLarge

  datatype Host = Codex | Claude

  /**
   * JSON and what this model leaves to it: reading a document of the right shapes, pretty printing, the checks on a
   * handler's other members (`fields`), and which texts are members in canonical form (`members`); `recording` and
   * `withTimeout` are the members of generated handlers.
   */
  datatype Env = Env(
    host: Host, read: Bytes -> Option<Document>, pretty: Document -> Bytes, fields: Handler -> bool, members: string -> bool,
    empty: Document, recording: string, withTimeout: string)

  /** Valid documents can be printed and read back; the empty document and generated handlers are valid. */
  ghost predicate Lawful(env: Env) {
    && (forall d :: Valid(env, d) ==> env.read(env.pretty(d) + [NEWLINE]) == Some(d))
    && env.empty.hooks == None && env.members(env.empty.rest) && env.members("")
    && (forall c :: env.fields(Handler("command", Some(c), env.recording)))
    && (forall c :: env.fields(Handler("command", Some(c), env.withTimeout)))
  }

  // ----- which documents are valid? -----

  const CODEX_EVENTS: set<string> := {
    "SessionStart", "UserPromptSubmit", "PreToolUse", "PermissionRequest", "PostToolUse", "PreCompact", "PostCompact",
    "SubagentStart", "SubagentStop", "Stop", "SessionEnd"}

  const CLAUDE_EVENTS: set<string> := {
    "Setup", "SessionStart", "UserPromptSubmit", "UserPromptExpansion", "PreToolUse", "PermissionRequest", "PermissionDenied",
    "PostToolUse", "PostToolUseFailure", "PostToolBatch", "SubagentStart", "SubagentStop", "TaskCreated", "TaskCompleted",
    "Stop", "StopFailure", "TeammateIdle", "PreCompact", "PostCompact", "SessionEnd", "Elicitation", "ElicitationResult",
    "WorktreeCreate", "WorktreeRemove", "Notification", "ConfigChange", "InstructionsLoaded", "CwdChanged", "FileChanged",
    "DirectoryAdded", "PreModelSwitch", "PostModelSwitch", "MessageDisplay"}

  /** The events of Claude whose handlers may also ask a model. */
  const CLAUDE_PROMPTED: set<string> := {
    "PermissionDenied", "PermissionRequest", "PostToolBatch", "PostToolUse", "PostToolUseFailure", "PreToolUse", "Stop",
    "SubagentStop", "TaskCompleted", "TaskCreated", "TeammateIdle", "UserPromptExpansion", "UserPromptSubmit"}

  /** `validate_event`. */
  predicate SupportedEvent(host: Host, event: string) {
    event in if host == Codex then CODEX_EVENTS else CLAUDE_EVENTS
  }

  /** `handler_type_supported`. */
  predicate SupportedKind(host: Host, event: string, kind: string) {
    || kind == "command"
    || (kind == "mcp_tool" && !(host == Codex && event == "SessionEnd"))
    || (kind == "http" && host == Claude && event != "SessionStart" && event != "Setup")
    || ((kind == "prompt" || kind == "agent") && host == Claude && event in CLAUDE_PROMPTED)
  }

  /** `validate_handler`: commands have a command, and no other handler has one. */
  predicate HandlerValid(env: Env, event: string, h: Handler) {
    SupportedKind(env.host, event, h.kind) && (h.command.Some? <==> h.kind == "command") && env.fields(h)
  }

  predicate GroupValid(env: Env, event: string, g: Group) {
    env.members(g.rest) && forall h :: h in g.handlers ==> HandlerValid(env, event, h)
  }

  predicate GroupsValid(env: Env, event: string, groups: seq<Group>) {
    forall g :: g in groups ==> GroupValid(env, event, g)
  }

  predicate HooksValid(env: Env, hooks: Hooks) {
    forall e :: e in hooks ==> SupportedEvent(env.host, e) && GroupsValid(env, e, hooks[e])
  }

  /** `validate_document`; whatever was read has its members in canonical form. */
  predicate Valid(env: Env, d: Document) {
    env.members(d.rest) && (d.hooks.Some? ==> HooksValid(env, d.hooks.value))
  }

  /** `parse_native_document`. */
  function Parse(env: Env, b: Bytes): Option<Document> {
    var d := env.read(b);
    if d.Some? && Valid(env, d.value) then d else None
  }

  datatype Binding = Binding(id: string, event: string, matcher: Option<string>, command: string)

  function ExpectedHandler(env: Env, b: Binding): Handler {
    Handler("command", Some(b.command), if b.id == CODEX_END then env.withTimeout else env.recording)
  }

  function ExpectedGroup(env: Env, b: Binding): Group {
    Group(b.matcher, "", [ExpectedHandler(env, b)])
  }

  // ----- whose handler is it? -----

  predicate Space(c: char) {
    c == ' ' || c == '\t' || c == '\n' || c == '\r' || c == '\U{000C}'
  }

  function WordsFrom(word: string, rest: string): seq<string>
    decreases |rest|
  {
    if rest == "" then (if word == "" then [] else [word])
    else if Space(rest[0]) then (if word == "" then [] else [word]) + WordsFrom("", rest[1..])
    else WordsFrom(word + [rest[0]], rest[1..])
  }

  function Words(s: string): seq<string> {
    WordsFrom("", s)
  }

  predicate StartsWith(s: string, prefix: string) {
    prefix <= s
  }

  /** The value of the first `--binding-id`, in either form. */
  function IdAmong(words: seq<string>): Option<string> {
    if words == [] then None
    else if words[0] == "--binding-id" then (if |words| > 1 then Some(words[1]) else None)
    else if StartsWith(words[0], "--binding-id=") then Some(words[0][|"--binding-id="|..])
    else IdAmong(words[1..])
  }

  /** `handler_binding_id`. */
  function BindingId(h: Handler): Option<string> {
    if h.command.None? then None
    else
      var words := Words(h.command.value);
      if |words| < 3 || words[0] != "devmap" || words[1] != "hook" || words[2] != "handle" then None
      else IdAmong(words[3..])
  }

  predicate Owned(ids: set<string>, h: Handler) {
    var id := BindingId(h);
    id.Some? && StartsWith(id.value, OWNED_PREFIX) && id.value in ids
  }

  function Ids(bindings: seq<Binding>): set<string> {
    set b | b in bindings :: b.id
  }

  /** Bindings with identifiers of their own, each found again in its own command. */
  ghost predicate BindingsOk(env: Env, bindings: seq<Binding>) {
    && (forall i, j :: 0 <= i < j < |bindings| ==> bindings[i].id != bindings[j].id)
    && (forall b :: b in bindings ==> StartsWith(b.id, OWNED_PREFIX) && BindingId(ExpectedHandler(env, b)) == Some(b.id))
    && forall b :: b in bindings ==> SupportedEvent(env.host, b.event)
  }

  // ----- the bindings that are installed -----

  predicate PlainWord(s: string) {
    s != "" && forall i :: 0 <= i < |s| ==> !Space(s[i])
  }

  lemma {:induction false} WordThenSpace(word: string, text: string, rest: string)
    requires forall i :: 0 <= i < |text| ==> !Space(text[i])
    requires word + text != ""
    ensures WordsFrom(word, text + " " + rest) == [word + text] + WordsFrom("", rest)
    decreases |text|
  {
    var all := text + " " + rest;
    if text == "" {
      assert all == " " + rest && all[1..] == rest && word + text == word;
    } else {
      assert all[0] == text[0] && all[1..] == text[1..] + " " + rest;
      assert word + [text[0]] + text[1..] == word + text;
      WordThenSpace(word + [text[0]], text[1..], rest);
    }
  }

  lemma {:induction false} LastWord(word: string, text: string)
    requires forall i :: 0 <= i < |text| ==> !Space(text[i])
    ensures WordsFrom(word, text) == if word + text == "" then [] else [word + text]
    decreases |text|
  {
    if text == "" {
      assert word + text == word;
    } else {
      assert word + [text[0]] + text[1..] == word + text;
      LastWord(word + [text[0]], text[1..]);
    }
  }

  function JoinWords(words: seq<string>): string {
    if words == [] then "" else if |words| == 1 then words[0] else words[0] + " " + JoinWords(words[1..])
  }

  lemma {:induction false} WordsOfJoined(words: seq<string>)
    requires forall w :: w in words ==> PlainWord(w)
    ensures Words(JoinWords(words)) == words
    decreases |words|
  {
    if |words| == 1 {
      assert PlainWord(words[0]);
      LastWord("", words[0]);
      assert "" + words[0] == words[0];
    } else if |words| > 1 {
      assert PlainWord(words[0]);
      WordThenSpace("", words[0], JoinWords(words[1..]));
      assert "" + words[0] == words[0];
      WordsOfJoined(words[1..]);
    }
  }

  function IdFor(host: string, event: string): string {
    OWNED_PREFIX + host + "/" + event
  }

  function CommandWords(host: string, event: string): seq<string> {
    ["devmap", "hook", "handle", "--host", host, "--event", event, "--binding-id", IdFor(host, event)]
  }

  function BindingFor(host: string, event: string): Binding {
    Binding(IdFor(host, event), event, None, JoinWords(CommandWords(host, event)))
  }

  /** A name that cannot be mistaken for an option. */
  predicate Name(s: string) {
    PlainWord(s) && s[0] != '-'
  }

  lemma IdIsPlain(host: string, event: string)
    requires Name(host) && Name(event)
    ensures PlainWord(IdFor(host, event)) && StartsWith(IdFor(host, event), OWNED_PREFIX)
  {
    var id := IdFor(host, event);
    assert PlainWord(OWNED_PREFIX);
    forall i | 0 <= i < |id|
      ensures !Space(id[i])
    {
      if i < |OWNED_PREFIX| {
        assert id[i] == OWNED_PREFIX[i];
      } else if i < |OWNED_PREFIX| + |host| {
        assert id[i] == host[i - |OWNED_PREFIX|];
      } else if i > |OWNED_PREFIX| + |host| {
        assert id[i] == event[i - |OWNED_PREFIX| - |host| - 1];
      }
    }
  }

  /** The command of an installed binding names that binding. */
  lemma CommandNamesBinding(env: Env, host: string, event: string)
    requires Name(host) && Name(event)
    ensures BindingId(ExpectedHandler(env, BindingFor(host, event))) == Some(IdFor(host, event))
  {
    var words := CommandWords(host, event);
    IdIsPlain(host, event);
    forall w | w in words
      ensures PlainWord(w)
    {
    }
    WordsOfJoined(words);
    var tail := words[3..];
    assert tail == ["--host", host, "--event", event, "--binding-id", IdFor(host, event)];
    assert tail[1..] == [host, "--event", event, "--binding-id", IdFor(host, event)];
    assert tail[1..][1..] == ["--event", event, "--binding-id", IdFor(host, event)];
    assert tail[1..][1..][1..] == [event, "--binding-id", IdFor(host, event)];
    assert tail[1..][1..][1..][1..] == ["--binding-id", IdFor(host, event)];
    NotTheOption("--host");
    NotTheOption(host);
    NotTheOption("--event");
    NotTheOption(event);
    assert IdAmong(tail) == IdAmong(tail[1..]) == IdAmong(tail[1..][1..]);
    assert IdAmong(tail[1..][1..]) == IdAmong(tail[1..][1..][1..]) == IdAmong(tail[1..][1..][1..][1..]);
  }

  lemma NotTheOption(s: string)
    requires s == "--host" || s == "--event" || Name(s)
    ensures s != "--binding-id" && !StartsWith(s, "--binding-id=")
  {
    var option := "--binding-id=";
    assert option[0] == '-' && option[2] == 'b';
  }

  function BindingsFor(host: string, events: seq<string>): (s: seq<Binding>)
    ensures |s| == |events| && forall i :: 0 <= i < |s| ==> s[i] == BindingFor(host, events[i])
  {
    seq(|events|, i requires 0 <= i < |events| => BindingFor(host, events[i]))
  }

  /** Whatever the host and its events are called, their bindings can be told apart and found again. */
  lemma BindingsForOk(env: Env, host: string, events: seq<string>)
    requires Name(host) && (forall e :: e in events ==> Name(e) && SupportedEvent(env.host, e)) && Distinct(events)
    ensures BindingsOk(env, BindingsFor(host, events))
  {
    var bindings := BindingsFor(host, events);
    forall i | 0 <= i < |bindings|
      ensures StartsWith(bindings[i].id, OWNED_PREFIX) && BindingId(ExpectedHandler(env, bindings[i])) == Some(bindings[i].id)
    {
      assert events[i] in events;
      IdIsPlain(host, events[i]);
      CommandNamesBinding(env, host, events[i]);
    }
    forall i, j | 0 <= i < j < |bindings|
      ensures bindings[i].id != bindings[j].id
    {
      var n := |OWNED_PREFIX + host + "/"|;
      assert IdFor(host, events[i])[n..] == events[i] && IdFor(host, events[j])[n..] == events[j];
    }
  }

  const EVENTS: seq<string> := [
    "SessionStart", "UserPromptSubmit", "PreToolUse", "PostToolUse", "PreCompact", "PostCompact",
    "SubagentStart", "SubagentStop", "Stop", "SessionEnd"]

  function HostName(host: Host): string {
    if host == Codex then "codex" else "claude"
  }

  lemma EventsSupported(host: Host)
    ensures forall e :: e in EVENTS ==> SupportedEvent(host, e)
  {
  }

  lemma EventsAreNames()
    ensures forall e :: e in EVENTS ==> Name(e)
  {
    forall i | 0 <= i < |EVENTS|
      ensures Name(EVENTS[i])
    {
    }
  }

  lemma EventsDiffer()
    ensures Distinct(EVENTS)
  {
    assert |EVENTS[0]| == 12 && |EVENTS[1]| == 16 && |EVENTS[2]| == 10 && |EVENTS[3]| == 11 && |EVENTS[4]| == 10;
    assert |EVENTS[5]| == 11 && |EVENTS[6]| == 13 && |EVENTS[7]| == 12 && |EVENTS[8]| == 4 && |EVENTS[9]| == 10;
    assert EVENTS[0][1] == 'e' && EVENTS[7][1] == 'u' && EVENTS[2][0] == 'P' && EVENTS[9][0] == 'S';
    assert EVENTS[2][3] == 'T' && EVENTS[4][3] == 'C' && EVENTS[3][4] == 'T' && EVENTS[5][4] == 'C';
  }

  /** In particular those of the two supported hosts. */
  lemma StandardBindingsOk(env: Env)
    ensures BindingsOk(env, BindingsFor(HostName(env.host), EVENTS))
  {
    EventsSupported(env.host);
    EventsAreNames();
    EventsDiffer();
    assert Name("codex") && Name("claude");
    BindingsForOk(env, HostName(env.host), EVENTS);
  }

  // ----- handlers in their places -----

  /** A handler with the group it stands in. */
  datatype Entry = Entry(matcher: Option<string>, rest: string, handler: Handler)

  function EntriesOf(g: Group): (s: seq<Entry>)
    ensures |s| == |g.handlers| && forall i :: 0 <= i < |s| ==> s[i] == Entry(g.matcher, g.rest, g.handlers[i])
  {
    seq(|g.handlers|, i requires 0 <= i < |g.handlers| => Entry(g.matcher, g.rest, g.handlers[i]))
  }

  function Flat(groups: seq<Group>): seq<Entry> {
    if groups == [] then [] else Flat(groups[..|groups| - 1]) + EntriesOf(groups[|groups| - 1])
  }

  function HooksOf(d: Document): Hooks {
    if d.hooks.Some? then d.hooks.value else map[]
  }

  /** The handlers of an event, in order. */
  function FlatAt(hooks: Hooks, event: string): seq<Entry> {
    if event in hooks then Flat(hooks[event]) else []
  }

  function Foreign(entries: seq<Entry>, ids: set<string>): seq<Entry> {
    if entries == [] then []
    else
      var n := |entries| - 1;
      Foreign(entries[..n], ids) + if Owned(ids, entries[n].handler) then [] else [entries[n]]
  }

  function Named(entries: seq<Entry>, id: string): seq<Entry> {
    if entries == [] then []
    else
      var n := |entries| - 1;
      Named(entries[..n], id) + if BindingId(entries[n].handler) == Some(id) then [entries[n]] else []
  }

  lemma {:induction false} ForeignConcat(a: seq<Entry>, b: seq<Entry>, ids: set<string>)
    ensures Foreign(a + b, ids) == Foreign(a, ids) + Foreign(b, ids)
    decreases |b|
  {
    if b == [] {
      assert a + b == a;
    } else {
      var n := |b| - 1;
      assert (a + b)[..|a + b| - 1] == a + b[..n];
      ForeignConcat(a, b[..n], ids);
    }
  }

  lemma {:induction false} NamedConcat(a: seq<Entry>, b: seq<Entry>, id: string)
    ensures Named(a + b, id) == Named(a, id) + Named(b, id)
    decreases |b|
  {
    if b == [] {
      assert a + b == a;
    } else {
      var n := |b| - 1;
      assert (a + b)[..|a + b| - 1] == a + b[..n];
      NamedConcat(a, b[..n], id);
    }
  }

  lemma {:induction false} ForeignTwice(a: seq<Entry>, ids: set<string>)
    ensures Foreign(Foreign(a, ids), ids) == Foreign(a, ids)
    decreases |a|
  {
    if a != [] {
      var n := |a| - 1;
      ForeignTwice(a[..n], ids);
      ForeignConcat(Foreign(a[..n], ids), if Owned(ids, a[n].handler) then [] else [a[n]], ids);
    }
  }

  lemma {:induction false} ForeignUnnamed(a: seq<Entry>, ids: set<string>, id: string)
    requires id in ids && StartsWith(id, OWNED_PREFIX)
    ensures Named(Foreign(a, ids), id) == []
    decreases |a|
  {
    if a != [] {
      var n := |a| - 1;
      ForeignUnnamed(a[..n], ids, id);
      NamedConcat(Foreign(a[..n], ids), if Owned(ids, a[n].handler) then [] else [a[n]], id);
    }
  }

  // ----- taking bindings out -----

  function Keep(handlers: seq<Handler>, ids: set<string>): seq<Handler> {
    if handlers == [] then []
    else
      var n := |handlers| - 1;
      Keep(handlers[..n], ids) + if Owned(ids, handlers[n]) then [] else [handlers[n]]
  }

  /** The group is one DevMap generated, in its present form or, for the end of a Codex session, its previous one. */
  predicate Generated(env: Env, event: string, g: Group, bindings: seq<Binding>) {
    exists b :: b in bindings && b.event == event
      && (g == ExpectedGroup(env, b)
          || (b.id == CODEX_END && g == Group(b.matcher, "", [Handler("command", Some(b.command), env.recording)])))
  }

  /** Owned handlers go; a group goes with them only if it was generated and nothing is left in it. */
  function RemoveGroups(env: Env, event: string, groups: seq<Group>, bindings: seq<Binding>): seq<Group> {
    if groups == [] then []
    else
      var n := |groups| - 1;
      var before := RemoveGroups(env, event, groups[..n], bindings);
      var kept := Keep(groups[n].handlers, Ids(bindings));
      if |kept| < |groups[n].handlers| && kept == [] && Generated(env, event, groups[n], bindings) then before
      else before + [groups[n].(handlers := kept)]
  }

  predicate Touches(groups: seq<Group>, ids: set<string>) {
    exists i :: 0 <= i < |groups| && |Keep(groups[i].handlers, ids)| < |groups[i].handlers|
  }

  function RemoveEvent(env: Env, hooks: Hooks, event: string, bindings: seq<Binding>): Hooks
    requires event in hooks
  {
    var groups := RemoveGroups(env, event, hooks[event], bindings);
    if Touches(hooks[event], Ids(bindings)) && groups == [] then hooks - {event} else hooks[event := groups]
  }

  lemma {:induction false} KeepIsForeign(g: Group, ids: set<string>, n: nat)
    requires n <= |g.handlers|
    ensures EntriesOf(g.(handlers := Keep(g.handlers[..n], ids))) == Foreign(EntriesOf(g)[..n], ids)
  {
    if n > 0 {
      KeepIsForeign(g, ids, n - 1);
      assert g.handlers[..n][..n - 1] == g.handlers[..n - 1] && EntriesOf(g)[..n][..n - 1] == EntriesOf(g)[..n - 1];
    }
  }

  /** What remains of an event's handlers are those of others, in their order and with their groups' matchers and members. */
  lemma {:induction false} RemovalKeepsForeign(env: Env, event: string, groups: seq<Group>, bindings: seq<Binding>)
    ensures Flat(RemoveGroups(env, event, groups, bindings)) == Foreign(Flat(groups), Ids(bindings))
    decreases |groups|
  {
    if groups != [] {
      var n, ids := |groups| - 1, Ids(bindings);
      var g, before := groups[n], RemoveGroups(env, event, groups[..n], bindings);
      var kept := g.(handlers := Keep(g.handlers, ids));
      RemovalKeepsForeign(env, event, groups[..n], bindings);
      KeptEntries(g, ids);
      ForeignConcat(Flat(groups[..n]), EntriesOf(g), ids);
      FlatMore(before, kept);
    }
  }

  lemma FlatMore(groups: seq<Group>, g: Group)
    ensures Flat(groups + [g]) == Flat(groups) + EntriesOf(g)
    ensures g.handlers == [] ==> Flat(groups + [g]) == Flat(groups)
  {
    assert (groups + [g])[..|groups|] == groups;
    if g.handlers == [] {
      assert EntriesOf(g) == [];
    }
  }

  lemma KeptEntries(g: Group, ids: set<string>)
    ensures EntriesOf(g.(handlers := Keep(g.handlers, ids))) == Foreign(EntriesOf(g), ids)
  {
    KeepIsForeign(g, ids, |g.handlers|);
    assert g.handlers[..|g.handlers|] == g.handlers && EntriesOf(g)[..|g.handlers|] == EntriesOf(g);
  }

  /** A group without owned handlers is not touched. */
  lemma {:induction false} ForeignGroupStays(env: Env, event: string, groups: seq<Group>, bindings: seq<Binding>, g: Group)
    requires g in groups && Keep(g.handlers, Ids(bindings)) == g.handlers
    ensures g in RemoveGroups(env, event, groups, bindings)
    decreases |groups|
  {
    var n := |groups| - 1;
    if g == groups[n] {
      assert g.(handlers := Keep(g.handlers, Ids(bindings))) == g;
    } else {
      assert groups == groups[..n] + [groups[n]];
      ForeignGroupStays(env, event, groups[..n], bindings, g);
    }
  }

  // ----- putting bindings in -----

  function Append(env: Env, hooks: Hooks, b: Binding): Hooks {
    hooks[b.event := (if b.event in hooks then hooks[b.event] else []) + [ExpectedGroup(env, b)]]
  }

  function AppendAll(env: Env, hooks: Hooks, bindings: seq<Binding>): Hooks {
    if bindings == [] then hooks
    else Append(env, AppendAll(env, hooks, bindings[..|bindings| - 1]), bindings[|bindings| - 1])
  }

  function EntryFor(env: Env, b: Binding): Entry {
    Entry(b.matcher, "", ExpectedHandler(env, b))
  }

  /** The entries that bindings add to an event. */
  function Added(env: Env, bindings: seq<Binding>, event: string): seq<Entry> {
    if bindings == [] then []
    else
      var n := |bindings| - 1;
      Added(env, bindings[..n], event) + if bindings[n].event == event then [EntryFor(env, bindings[n])] else []
  }

  lemma {:induction false} AppendExact(env: Env, hooks: Hooks, bindings: seq<Binding>, event: string)
    ensures FlatAt(AppendAll(env, hooks, bindings), event) == FlatAt(hooks, event) + Added(env, bindings, event)
    decreases |bindings|
  {
    if bindings != [] {
      var n := |bindings| - 1;
      var b, before := bindings[n], AppendAll(env, hooks, bindings[..n]);
      AppendExact(env, hooks, bindings[..n], event);
      if b.event == event {
        var groups := if event in before then before[event] else [];
        assert (groups + [ExpectedGroup(env, b)])[..|groups|] == groups;
        assert EntriesOf(ExpectedGroup(env, b)) == [EntryFor(env, b)];
        assert Flat(groups) == FlatAt(before, event);
      }
    }
  }

  // ----- exactly one of each -----

  /** The binding stands in exactly one place, its own, in its exact form. */
  predicate ExactlyOne(env: Env, hooks: Hooks, b: Binding) {
    && (forall e :: e in hooks && e != b.event ==> Named(FlatAt(hooks, e), b.id) == [])
    && |Named(FlatAt(hooks, b.event), b.id)| == 1 && Matches(env, Named(FlatAt(hooks, b.event), b.id)[0], b)
  }

  predicate Matches(env: Env, x: Entry, b: Binding) {
    x.matcher == b.matcher && x.handler == ExpectedHandler(env, b)
  }

  predicate OneFound(env: Env, found: seq<Occurrence>, b: Binding) {
    |found| == 1 && found[0].event == b.event && Matches(env, found[0].entry, b)
  }

  predicate AllExact(env: Env, hooks: Hooks, bindings: seq<Binding>) {
    forall b :: b in bindings ==> ExactlyOne(env, hooks, b)
  }

  /** An occurrence as the check collects it. */
  datatype Occurrence = Occurrence(event: string, entry: Entry)

  function Tagged(event: string, entries: seq<Entry>): (s: seq<Occurrence>)
    ensures |s| == |entries| && forall i :: 0 <= i < |s| ==> s[i] == Occurrence(event, entries[i])
  {
    seq(|entries|, i requires 0 <= i < |entries| => Occurrence(event, entries[i]))
  }

  /** The occurrences of an identifier, event after event. */
  function NamedOver(hooks: Hooks, events: seq<string>, id: string): seq<Occurrence> {
    if events == [] then []
    else
      var n := |events| - 1;
      NamedOver(hooks, events[..n], id) + Tagged(events[n], Named(FlatAt(hooks, events[n]), id))
  }

  lemma {:induction false} OthersEmpty(hooks: Hooks, events: seq<string>, id: string, event: string)
    requires Distinct(events) && forall e :: e in events && e != event ==> Named(FlatAt(hooks, e), id) == []
    ensures NamedOver(hooks, events, id) == if event in events then Tagged(event, Named(FlatAt(hooks, event), id)) else []
    decreases |events|
  {
    if events != [] {
      var n := |events| - 1;
      var part := Tagged(events[n], Named(FlatAt(hooks, events[n]), id));
      LastIsNew(events);
      OthersEmpty(hooks, events[..n], id, event);
      if events[n] == event {
        assert [] + part == part;
      } else {
        assert part == [] && NamedOver(hooks, events[..n], id) + part == NamedOver(hooks, events[..n], id);
      }
    }
  }

  /** Each event contributes its own part. */
  lemma {:induction false} PartOf(hooks: Hooks, events: seq<string>, id: string, e: string)
    requires e in events
    ensures |Named(FlatAt(hooks, e), id)| <= |NamedOver(hooks, events, id)|
    ensures forall x :: x in Named(FlatAt(hooks, e), id) ==> Occurrence(e, x) in NamedOver(hooks, events, id)
    decreases |events|
  {
    var n := |events| - 1;
    if events[n] == e {
      var part := Named(FlatAt(hooks, e), id);
      forall x | x in part
        ensures Occurrence(e, x) in Tagged(e, part)
      {
        var i :| 0 <= i < |part| && part[i] == x;
        assert Tagged(e, part)[i] == Occurrence(e, x);
      }
    } else {
      assert events == events[..n] + [events[n]];
      PartOf(hooks, events[..n], id, e);
    }
  }

  /** One matching occurrence in all means exactly one, in its place. */
  lemma OneOccurrence(env: Env, hooks: Hooks, events: seq<string>, b: Binding)
    requires Distinct(events) && forall e :: e in events <==> e in hooks
    ensures OneFound(env, NamedOver(hooks, events, b.id), b) <==> ExactlyOne(env, hooks, b)
  {
    if OneFound(env, NamedOver(hooks, events, b.id), b) {
      NoneElsewhere(env, hooks, events, b);
    }
    if forall e :: e in hooks && e != b.event ==> Named(FlatAt(hooks, e), b.id) == [] {
      OthersEmpty(hooks, events, b.id, b.event);
    }
  }

  lemma NoneElsewhere(env: Env, hooks: Hooks, events: seq<string>, b: Binding)
    requires (forall e :: e in events <==> e in hooks) && OneFound(env, NamedOver(hooks, events, b.id), b)
    ensures forall e :: e in hooks && e != b.event ==> Named(FlatAt(hooks, e), b.id) == []
  {
    forall e | e in hooks && e != b.event
      ensures Named(FlatAt(hooks, e), b.id) == []
    {
      NotThere(NamedOver(hooks, events, b.id), hooks, events, b, e);
    }
  }

  lemma NotThere(found: seq<Occurrence>, hooks: Hooks, events: seq<string>, b: Binding, e: string)
    requires found == NamedOver(hooks, events, b.id) && |found| == 1 && found[0].event == b.event && e in events && e != b.event
    ensures Named(FlatAt(hooks, e), b.id) == []
  {
    PartOf(hooks, events, b.id, e);
    OnlyThere(Named(FlatAt(hooks, e), b.id), found, e);
  }

  lemma OnlyThere(part: seq<Entry>, found: seq<Occurrence>, e: string)
    requires |found| == 1 && forall x :: x in part ==> Occurrence(e, x) in found
    ensures part != [] ==> found[0].event == e
  {
    if part != [] {
      assert part[0] in part && Occurrence(e, part[0]) in found;
    }
  }

  method Events(hooks: Hooks) returns (events: seq<string>)
    ensures Distinct(events) && forall e :: e in events <==> e in hooks
  {
    events := [];
    var left := hooks.Keys;
    while left != {}
      invariant left <= hooks.Keys && Distinct(events) && forall e :: e in events <==> e in hooks && e !in left
      decreases |left|
    {
      var e :| e in left;
      events := events + [e];
      left := left - {e};
    }
  }

  method CheckOne(env: Env, hooks: Hooks, events: seq<string>, b: Binding) returns (exact: bool)
    requires Distinct(events) && forall e :: e in events <==> e in hooks
    ensures exact <==> ExactlyOne(env, hooks, b)
  {
    OneOccurrence(env, hooks, events, b);
    exact := OneFound(env, NamedOver(hooks, events, b.id), b);
  }

  /** Counts over `binding_occurrences`. */
  method CheckExact(env: Env, hooks: Hooks, bindings: seq<Binding>) returns (all: bool)
    ensures all <==> AllExact(env, hooks, bindings)
  {
    var events := Events(hooks);
    for i := 0 to |bindings|
      invariant AllExact(env, hooks, bindings[..i])
    {
      var exact := CheckOne(env, hooks, events, bindings[i]);
      ExactSoFar(env, hooks, bindings, i);
      if !exact {
        return false;
      }
    }
    assert bindings[..|bindings|] == bindings;
    all := true;
  }

  lemma ExactSoFar(env: Env, hooks: Hooks, bindings: seq<Binding>, i: nat)
    requires i < |bindings| && AllExact(env, hooks, bindings[..i])
    ensures ExactlyOne(env, hooks, bindings[i]) ==> AllExact(env, hooks, bindings[..i + 1])
    ensures AllExact(env, hooks, bindings) ==> ExactlyOne(env, hooks, bindings[i])
  {
    TakeMore(bindings, i);
    assert bindings[i] in bindings;
  }

  // ----- the edit -----

  function RemoveAll(env: Env, hooks: Hooks, bindings: seq<Binding>): Hooks {
    map e | e in hooks && !(Touches(hooks[e], Ids(bindings)) && RemoveGroups(env, e, hooks[e], bindings) == []) ::
      RemoveGroups(env, e, hooks[e], bindings)
  }

  function Removed(env: Env, d: Document, bindings: seq<Binding>): Document {
    if d.hooks.None? then d else d.(hooks := Some(RemoveAll(env, d.hooks.value, bindings)))
  }

  function Appended(env: Env, d: Document, bindings: seq<Binding>): Document {
    if bindings == [] then d else d.(hooks := Some(AppendAll(env, HooksOf(d), bindings)))
  }

  function Installed(env: Env, d: Document, bindings: seq<Binding>): Document {
    if AllExact(env, HooksOf(d), bindings) then d else Appended(env, Removed(env, d, bindings), bindings)
  }

  lemma RemovedFlat(env: Env, hooks: Hooks, bindings: seq<Binding>, event: string)
    ensures FlatAt(RemoveAll(env, hooks, bindings), event) == Foreign(FlatAt(hooks, event), Ids(bindings))
  {
    if event in hooks {
      RemovalKeepsForeign(env, event, hooks[event], bindings);
    }
  }

  lemma {:induction false} AddedForeign(env: Env, all: seq<Binding>, bindings: seq<Binding>, event: string)
    requires BindingsOk(env, all) && bindings <= all
    ensures Foreign(Added(env, bindings, event), Ids(all)) == []
    decreases |bindings|
  {
    if bindings != [] {
      var n := |bindings| - 1;
      AddedForeign(env, all, bindings[..n], event);
      assert all[n] in all && bindings[n].id in Ids(all);
      ForeignConcat(Added(env, bindings[..n], event), if bindings[n].event == event then [EntryFor(env, bindings[n])] else [], Ids(all));
    }
  }

  lemma EmptyParts(s: seq<Entry>)
    ensures s + [] == s && [] + s == s
  {
  }

  function AddedOne(env: Env, b: Binding, event: string): seq<Entry> {
    if b.event == event then [EntryFor(env, b)] else []
  }

  lemma {:induction false} AddedConcat(env: Env, a: seq<Binding>, b: seq<Binding>, event: string)
    ensures Added(env, a + b, event) == Added(env, a, event) + Added(env, b, event)
    decreases |b|
  {
    if b == [] {
      assert a + b == a;
    } else {
      assert (a + b)[..|a + b| - 1] == a + b[..|b| - 1];
      AddedConcat(env, a, b[..|b| - 1], event);
    }
  }

  lemma NamedOne(env: Env, b: Binding, event: string, id: string)
    requires BindingId(ExpectedHandler(env, b)) == Some(b.id)
    ensures Named(AddedOne(env, b, event), id) == if b.id == id then AddedOne(env, b, event) else []
  {
    assert [EntryFor(env, b)][..0] == [];
  }

  /** Bindings of other identifiers add nothing of that name. */
  lemma {:induction false} NotAdded(env: Env, bindings: seq<Binding>, event: string, id: string)
    requires forall b :: b in bindings ==> BindingId(ExpectedHandler(env, b)) == Some(b.id) && b.id != id
    ensures Named(Added(env, bindings, event), id) == []
    decreases |bindings|
  {
    if bindings != [] {
      var n := |bindings| - 1;
      NotAdded(env, bindings[..n], event, id);
      NamedOne(env, bindings[n], event, id);
      NamedConcat(Added(env, bindings[..n], event), AddedOne(env, bindings[n], event), id);
    }
  }

  /** Of that name exactly the one binding is added. */
  lemma AddedNamed(env: Env, all: seq<Binding>, event: string, k: nat)
    requires BindingsOk(env, all) && k < |all|
    ensures Named(Added(env, all, event), all[k].id) == AddedOne(env, all[k], event)
  {
    var id, before, after := all[k].id, all[..k], all[k + 1..];
    var here := AddedOne(env, all[k], event);
    assert all == before + [all[k]] + after && all[k] in all;
    assert [all[k]][..0] == [] && Added(env, [all[k]], event) == here;
    AddedConcat(env, before + [all[k]], after, event);
    AddedConcat(env, before, [all[k]], event);
    NotAdded(env, before, event, id);
    NotAdded(env, after, event, id);
    NamedOne(env, all[k], event, id);
    NamedConcat(Added(env, before, event) + here, Added(env, after, event), id);
    NamedConcat(Added(env, before, event), here, id);
    EmptyParts(here);
  }

  /** After an installation every binding stands in exactly one place, in its exact form. */
  lemma InstallIsExact(env: Env, d: Document, bindings: seq<Binding>)
    requires BindingsOk(env, bindings)
    ensures AllExact(env, HooksOf(Installed(env, d, bindings)), bindings)
  {
    if !AllExact(env, HooksOf(d), bindings) {
      forall k | 0 <= k < |bindings|
        ensures ExactlyOne(env, HooksOf(Installed(env, d, bindings)), bindings[k])
      {
        InstalledOnce(env, d, bindings, k);
      }
    }
  }

  lemma InstalledOnce(env: Env, d: Document, bindings: seq<Binding>, k: nat)
    requires BindingsOk(env, bindings) && k < |bindings|
    ensures ExactlyOne(env, HooksOf(Appended(env, Removed(env, d, bindings), bindings)), bindings[k])
  {
    var hooks, b := HooksOf(Appended(env, Removed(env, d, bindings), bindings)), bindings[k];
    assert hooks == AppendAll(env, RemoveAll(env, HooksOf(d), bindings), bindings);
    forall e | e in hooks && e != b.event
      ensures Named(FlatAt(hooks, e), b.id) == []
    {
      NamedAfter(env, HooksOf(d), bindings, k, e);
    }
    NamedAfter(env, HooksOf(d), bindings, k, b.event);
  }

  lemma NamedAfter(env: Env, hooks: Hooks, bindings: seq<Binding>, k: nat, e: string)
    requires BindingsOk(env, bindings) && k < |bindings|
    ensures Named(FlatAt(AppendAll(env, RemoveAll(env, hooks, bindings), bindings), e), bindings[k].id) ==
            if e == bindings[k].event then [EntryFor(env, bindings[k])] else []
  {
    var b, removed := bindings[k], RemoveAll(env, hooks, bindings);
    assert b in bindings && b.id in Ids(bindings);
    AppendExact(env, removed, bindings, e);
    RemovedFlat(env, hooks, bindings, e);
    ForeignUnnamed(FlatAt(hooks, e), Ids(bindings), b.id);
    NamedConcat(FlatAt(removed, e), Added(env, bindings, e), b.id);
    AddedNamed(env, bindings, e, k);
  }

  /** Installing again changes nothing. */
  lemma InstallTwice(env: Env, d: Document, bindings: seq<Binding>)
    requires BindingsOk(env, bindings)
    ensures Installed(env, Installed(env, d, bindings), bindings) == Installed(env, d, bindings)
  {
    InstallIsExact(env, d, bindings);
  }

  /** Installing moves no handler of others, in any event, and touches no other member of the file. */
  lemma InstallKeepsForeign(env: Env, d: Document, bindings: seq<Binding>, event: string)
    requires BindingsOk(env, bindings)
    ensures Installed(env, d, bindings).rest == d.rest
    ensures Foreign(FlatAt(HooksOf(Installed(env, d, bindings)), event), Ids(bindings)) == Foreign(FlatAt(HooksOf(d), event), Ids(bindings))
  {
    if !AllExact(env, HooksOf(d), bindings) {
      var ids, removed := Ids(bindings), RemoveAll(env, HooksOf(d), bindings);
      AppendExact(env, removed, bindings, event);
      RemovedFlat(env, HooksOf(d), bindings, event);
      ForeignTwice(FlatAt(HooksOf(d), event), ids);
      AddedForeign(env, bindings, bindings, event);
      ForeignConcat(FlatAt(removed, event), Added(env, bindings, event), ids);
    }
  }

  /** Installing and then uninstalling leaves exactly the handlers of others, event by event and in order. */
  lemma RoundTrip(env: Env, d: Document, bindings: seq<Binding>, event: string)
    requires BindingsOk(env, bindings)
    ensures FlatAt(HooksOf(Removed(env, Installed(env, d, bindings), bindings)), event) == Foreign(FlatAt(HooksOf(d), event), Ids(bindings))
    ensures Removed(env, Installed(env, d, bindings), bindings).rest == d.rest
  {
    InstallKeepsForeign(env, d, bindings, event);
    RemovedFlat(env, HooksOf(Installed(env, d, bindings)), bindings, event);
  }

  // ----- the file -----

  datatype Action = Install | Uninstall

  function Edited(env: Env, d: Document, bindings: seq<Binding>, action: Action): Document {
    if action == Install then Installed(env, d, bindings) else Removed(env, d, bindings)
  }

  lemma AppendedMore(env: Env, d: Document, bindings: seq<Binding>, i: nat)
    requires i < |bindings|
    ensures var before := Appended(env, d, bindings[..i]);
            Appended(env, d, bindings[..i + 1]) == before.(hooks := Some(Append(env, HooksOf(before), bindings[i])))
  {
    assert bindings[..i + 1][..i] == bindings[..i];
  }

  /** The configuration while it is being edited. */
  class Configuration {
    var document: Document

    constructor (d: Document)
      ensures document == d
    {
      document := d;
    }

    /** `remove_owned_bindings`. */
    method RemoveOwned(env: Env, bindings: seq<Binding>)
      modifies this
      ensures document == Removed(env, old(document), bindings)
    {
      if document.hooks.None? {
        return;
      }
      var start := document.hooks.value;
      var events := Events(start);
      for i := 0 to |events|
        invariant document == old(document).(hooks := document.hooks) && document.hooks.Some?
        invariant PartlyRemoved(env, start, document.hooks.value, bindings, events[..i])
      {
        TakeMore(events, i);
        RemoveOneMore(env, start, document.hooks.value, bindings, events, i);
        document := document.(hooks := Some(RemoveEvent(env, document.hooks.value, events[i], bindings)));
      }
      assert events[..|events|] == events;
      assert document.hooks.value == RemoveAll(env, start, bindings);
    }

    /** `append_binding`. */
    method AppendBinding(env: Env, b: Binding)
      modifies this
      ensures document == old(document).(hooks := Some(Append(env, HooksOf(old(document)), b)))
    {
      if document.hooks.None? {
        document := document.(hooks := Some(map[]));
      }
      if b.event !in document.hooks.value {
        document := document.(hooks := Some(document.hooks.value[b.event := []]));
      }
      var hooks := document.hooks.value;
      document := document.(hooks := Some(hooks[b.event := hooks[b.event] + [ExpectedGroup(env, b)]]));
      assert document.hooks.value == Append(env, HooksOf(old(document)), b);
    }

    method InstallBindings(env: Env, bindings: seq<Binding>)
      modifies this
      ensures document == Installed(env, old(document), bindings)
    {
      var exact := CheckExact(env, HooksOf(document), bindings);
      if !exact {
        RemoveOwned(env, bindings);
        ghost var removed := document;
        for i := 0 to |bindings|
          invariant document == Appended(env, removed, bindings[..i])
        {
          AppendedMore(env, removed, bindings, i);
          AppendBinding(env, bindings[i]);
        }
        assert bindings[..|bindings|] == bindings;
      }
    }
  }

  /** The events done so far are as they will be, the others as they were. */
  ghost predicate PartlyRemoved(env: Env, start: Hooks, hooks: Hooks, bindings: seq<Binding>, done: seq<string>) {
    forall e ::
      if e in done then (e in hooks <==> e in RemoveAll(env, start, bindings)) && (e in hooks ==> hooks[e] == RemoveAll(env, start, bindings)[e])
      else (e in hooks <==> e in start) && (e in hooks ==> hooks[e] == start[e])
  }

  lemma RemoveOneMore(env: Env, start: Hooks, hooks: Hooks, bindings: seq<Binding>, events: seq<string>, i: nat)
    requires i < |events| && Distinct(events) && (forall e :: e in events ==> e in start)
    requires PartlyRemoved(env, start, hooks, bindings, events[..i])
    ensures events[i] in hooks && PartlyRemoved(env, start, RemoveEvent(env, hooks, events[i], bindings), bindings, events[..i + 1])
  {
    TakeMore(events, i);
    assert events[i] in events && events[i] !in events[..i];
  }

  // ----- edits keep documents valid -----

  lemma {:induction false} KeepPart(handlers: seq<Handler>, ids: set<string>)
    ensures forall h :: h in Keep(handlers, ids) ==> h in handlers
    decreases |handlers|
  {
    if handlers != [] {
      KeepPart(handlers[..|handlers| - 1], ids);
    }
  }

  lemma {:induction false} RemovedGroupsValid(env: Env, event: string, groups: seq<Group>, bindings: seq<Binding>)
    requires GroupsValid(env, event, groups)
    ensures GroupsValid(env, event, RemoveGroups(env, event, groups, bindings))
    decreases |groups|
  {
    if groups != [] {
      var n := |groups| - 1;
      var kept := Keep(groups[n].handlers, Ids(bindings));
      assert GroupValid(env, event, groups[n]);
      RemovedGroupsValid(env, event, groups[..n], bindings);
      KeepPart(groups[n].handlers, Ids(bindings));
      assert GroupValid(env, event, groups[n].(handlers := kept));
    }
  }

  /** Taking bindings out leaves a document that passes validation again. */
  lemma RemovedValid(env: Env, d: Document, bindings: seq<Binding>)
    requires Valid(env, d)
    ensures Valid(env, Removed(env, d, bindings))
  {
    if d.hooks.Some? {
      var hooks := d.hooks.value;
      forall e | e in RemoveAll(env, hooks, bindings)
        ensures SupportedEvent(env.host, e) && GroupsValid(env, e, RemoveAll(env, hooks, bindings)[e])
      {
        RemovedGroupsValid(env, e, hooks[e], bindings);
      }
    }
  }

  lemma ExpectedValid(env: Env, b: Binding)
    requires Lawful(env)
    ensures GroupValid(env, b.event, ExpectedGroup(env, b))
  {
  }

  lemma {:induction false} AppendAllValid(env: Env, hooks: Hooks, bindings: seq<Binding>)
    requires Lawful(env) && HooksValid(env, hooks) && forall b :: b in bindings ==> SupportedEvent(env.host, b.event)
    ensures HooksValid(env, AppendAll(env, hooks, bindings))
    decreases |bindings|
  {
    if bindings != [] {
      var n := |bindings| - 1;
      AppendAllValid(env, hooks, bindings[..n]);
      ExpectedValid(env, bindings[n]);
    }
  }

  /** So does putting them in. */
  lemma InstalledValid(env: Env, d: Document, bindings: seq<Binding>)
    requires Lawful(env) && BindingsOk(env, bindings) && Valid(env, d)
    ensures Valid(env, Installed(env, d, bindings))
  {
    if !AllExact(env, HooksOf(d), bindings) && bindings != [] {
      RemovedValid(env, d, bindings);
      AppendAllValid(env, HooksOf(Removed(env, d, bindings)), bindings);
    }
  }

  /** `read_target` and the parsing of what it read. */
  function Target(env: Env, target: Option<Bytes>): Result<Document, Error> {
    if target.None? then Ok(env.empty)
    else if |target.value| > MAX_ADAPTER_CONFIG_BYTES then Err(TooLarge)
    else
      var d := Parse(env, target.value);
      if d.None? then Err(Malformed) else Ok(d.value)
  }

  /** `desired_result`: the bytes the file is to have. */
  method DesiredResult(env: Env, action: Action, bindings: seq<Binding>, target: Option<Bytes>) returns (r: Result<Bytes, Error>)
    ensures r == Desired(env, action, bindings, target)
  {
    var parsed := Target(env, target);
    if parsed.Err? {
      return Err(parsed.error);
    }
    var configuration := new Configuration(parsed.value);
    if action == Install {
      configuration.InstallBindings(env, bindings);
    } else {
      configuration.RemoveOwned(env, bindings);
    }
    r := Ok(env.pretty(configuration.document) + [NEWLINE]);
  }

  function Desired(env: Env, action: Action, bindings: seq<Binding>, target: Option<Bytes>): Result<Bytes, Error> {
    var parsed := Target(env, target);
    if parsed.Err? then Err(parsed.error) else Ok(env.pretty(Edited(env, parsed.value, bindings, action)) + [NEWLINE])
  }

  lemma TargetValid(env: Env, target: Option<Bytes>)
    requires Lawful(env) && Target(env, target).Ok?
    ensures Valid(env, Target(env, target).value)
  {
  }

  /** What an edit writes is read back as the edited document, if its size lets it be read at all. */
  lemma WrittenIsRead(env: Env, action: Action, bindings: seq<Binding>, target: Option<Bytes>)
    requires Lawful(env) && BindingsOk(env, bindings) && Desired(env, action, bindings, target).Ok?
    ensures var bytes, d := Desired(env, action, bindings, target).value, Edited(env, Target(env, target).value, bindings, action);
            Parse(env, bytes) == Some(d)
            && Target(env, Some(bytes)) == if |bytes| <= MAX_ADAPTER_CONFIG_BYTES then Ok(d) else Err(TooLarge)
  {
    var d := Target(env, target).value;
    TargetValid(env, target);
    if action == Install {
      InstalledValid(env, d, bindings);
    } else {
      RemovedValid(env, d, bindings);
    }
  }

  /** A second installation writes the bytes that are already there, if and only if they are within the limit for reading. */
  lemma SecondInstallChangesNoBytes(env: Env, bindings: seq<Binding>, target: Option<Bytes>)
    requires Lawful(env) && BindingsOk(env, bindings) && Desired(env, Install, bindings, target).Ok?
    ensures var bytes := Desired(env, Install, bindings, target).value;
            Desired(env, Install, bindings, Some(bytes)) == if |bytes| <= MAX_ADAPTER_CONFIG_BYTES then Ok(bytes) else Err(TooLarge)
  {
    WrittenIsRead(env, Install, bindings, target);
    InstallTwice(env, Target(env, target).value, bindings);
  }

  /**
   * Uninstalling from an installed file succeeds if and only if the file is within the limit for reading, and then
   * gives a file with exactly the handlers of others.
   */
  lemma UninstallAfterInstall(env: Env, bindings: seq<Binding>, target: Option<Bytes>, event: string)
    requires Lawful(env) && BindingsOk(env, bindings) && Desired(env, Install, bindings, target).Ok?
    ensures var d, bytes := Target(env, target).value, Desired(env, Install, bindings, target).value;
            var r := Desired(env, Uninstall, bindings, Some(bytes));
            if |bytes| > MAX_ADAPTER_CONFIG_BYTES then r == Err(TooLarge)
            else
              r.Ok? && Parse(env, r.value).Some?
              && FlatAt(HooksOf(Parse(env, r.value).value), event) == Foreign(FlatAt(HooksOf(d), event), Ids(bindings))
              && Parse(env, r.value).value.rest == d.rest
  {
    var bytes := Desired(env, Install, bindings, target).value;
    WrittenIsRead(env, Install, bindings, target);
    RoundTrip(env, Target(env, target).value, bindings, event);
    if |bytes| <= MAX_ADAPTER_CONFIG_BYTES {
      WrittenIsRead(env, Uninstall, bindings, Some(bytes));
    }
  }
}
