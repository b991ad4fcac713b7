/** What the modules assume of JSON, of timestamps and of Git's file formats can be met: one environment for each. */
module Assumptions {
  import opened Prelude
  import opened Encoding
  import JournalCodec
  import Bindings
  import RoutePlans
  import Presence
  import Adapter

  // ----- lists and texts inside fields -----

  function Field(b: Bytes): (f: seq<nat>)
    ensures |f| == |b|
  {
    seq(|b|, i requires 0 <= i < |b| => b[i] as nat)
  }

  lemma FieldInjective(a: Bytes, b: Bytes)
    requires Field(a) == Field(b)
    ensures a == b
  {
    forall i | 0 <= i < |a|
      ensures a[i] == b[i]
    {
      assert Field(a)[i] == Field(b)[i];
    }
  }

  ghost predicate Injective<T(!new)>(enc: T -> Bytes) {
    forall x, y :: enc(x) == enc(y) ==> x == y
  }

  function Parts<T>(enc: T -> Bytes, s: seq<T>): (fs: Fields)
    ensures |fs| == |s| && forall i :: 0 <= i < |s| ==> fs[i] == Field(enc(s[i]))
  {
    seq(|s|, i requires 0 <= i < |s| => Field(enc(s[i])))
  }

  lemma PartsInjective<T(!new)>(enc: T -> Bytes, a: seq<T>, b: seq<T>)
    requires Injective(enc) && Parts(enc, a) == Parts(enc, b)
    ensures a == b
  {
    assert |Parts(enc, a)| == |Parts(enc, b)|;
    forall i | 0 <= i < |a|
      ensures a[i] == b[i]
    {
      assert Parts(enc, a)[i] == Parts(enc, b)[i];
      FieldInjective(enc(a[i]), enc(b[i]));
    }
  }

  function EncodeText(s: string): Bytes {
    Join([Text(s)])
  }

  lemma TextsInjective()
    ensures Injective(EncodeText)
  {
    forall x, y | EncodeText(x) == EncodeText(y)
      ensures x == y
    {
      JoinInjective([Text(x)], [Text(y)]);
      assert [Text(x)][0] == [Text(y)][0];
      TextInjective(x, y);
    }
  }

  /** A left inverse of an injective encoding. */
  ghost function Inverse<T(!new)>(enc: T -> Bytes): Bytes -> Option<T> {
    b => if exists x :: enc(x) == b then Some(Chosen(enc, b)) else None
  }

  ghost function Chosen<T(!new)>(enc: T -> Bytes, b: Bytes): (x: T)
    requires exists x :: enc(x) == b
    ensures enc(x) == b
  {
    var x :| enc(x) == b;
    x
  }

  lemma InverseUndoes<T(!new)>(enc: T -> Bytes, x: T)
    requires Injective(enc)
    ensures Inverse(enc)(enc(x)) == Some(x)
  {
  }

  // ----- task bindings -----

  function ObservationFields(r: Bindings.Observation): (fs: Fields)
    ensures |fs| == 11
  {
    [Text(r.schema), Text(r.repository), [if r.kind.Association? then 0 else 1], Text(r.host), Text(r.task), Text(r.worktree),
     Maybe(r.fromWorktree), Text(r.source), Text(r.observedAt), Maybe(r.previousObservedAt), Maybe(r.eventAt)]
  }

  function EncodeObservation(r: Bindings.Observation): Bytes {
    Join(ObservationFields(r))
  }

  lemma ObservationInjective(a: Bindings.Observation, b: Bindings.Observation)
    requires ObservationFields(a) == ObservationFields(b)
    ensures a == b
  {
    var x, y := ObservationFields(a), ObservationFields(b);
    assert forall k :: 0 <= k < 11 ==> x[k] == y[k];
    assert x[2][0] == y[2][0];
    TextInjective(a.schema, b.schema);
    TextInjective(a.repository, b.repository);
    TextInjective(a.host, b.host);
    TextInjective(a.task, b.task);
    TextInjective(a.worktree, b.worktree);
    MaybeInjective(a.fromWorktree, b.fromWorktree);
    TextInjective(a.source, b.source);
    TextInjective(a.observedAt, b.observedAt);
    MaybeInjective(a.previousObservedAt, b.previousObservedAt);
    MaybeInjective(a.eventAt, b.eventAt);
  }

  lemma BindingsCanBeMet() returns (env: Bindings.Env)
    ensures env.Lawful()
  {
    env := Bindings.Env("", EncodeObservation, Inverse(EncodeObservation), s => None,
                        (s: Bindings.SavedMarks) => 100 * |multiset(s.observations)|);
    assert Injective(EncodeObservation) by {
      forall x, y | EncodeObservation(x) == EncodeObservation(y)
        ensures x == y
      {
        JoinInjective(ObservationFields(x), ObservationFields(y));
        ObservationInjective(x, y);
      }
    }
    forall r
      ensures EncodeObservation(r) != [] && JournalCodec.NoNewline(EncodeObservation(r))
      ensures Inverse(EncodeObservation)(EncodeObservation(r)) == Some(r)
    {
      PackHigh(Flat(ObservationFields(r)));
      JoinLonger(ObservationFields(r), 2);
      InverseUndoes(EncodeObservation, r);
    }
  }

  // ----- route plans -----

  function InputFields(i: RoutePlans.PlanInput): (fs: Fields)
    ensures |fs| == 10
  {
    [Text(i.requestId), Maybe(i.routeId), [i.expectedRevision], Text(i.worktree), Text(i.goal), Maybe(i.targetRef),
     Field(Join(Parts(EncodeText, i.milestones))), Text(i.delivery), Text(i.source), [if i.abandoned then 1 else 0]]
  }

  function PlanFields(p: RoutePlans.RoutePlan): (fs: Fields)
    ensures |fs| == 12
  {
    [Text(p.routeId), Text(p.repository), [p.revision], Text(p.worktree), Text(p.startCommit), Text(p.goal), Maybe(p.targetRef),
     Field(Join(Parts(EncodeText, p.milestones))), Text(p.delivery), Text(p.source), [if p.abandoned then 1 else 0],
     Text(p.updatedAt)]
  }

  lemma MilestonesInjective(a: seq<string>, b: seq<string>)
    requires Field(Join(Parts(EncodeText, a))) == Field(Join(Parts(EncodeText, b)))
    ensures a == b
  {
    FieldInjective(Join(Parts(EncodeText, a)), Join(Parts(EncodeText, b)));
    JoinInjective(Parts(EncodeText, a), Parts(EncodeText, b));
    TextsInjective();
    PartsInjective(EncodeText, a, b);
  }

  lemma InputInjective(a: RoutePlans.PlanInput, b: RoutePlans.PlanInput)
    requires InputFields(a) == InputFields(b)
    ensures a == b
  {
    var x, y := InputFields(a), InputFields(b);
    assert forall k :: 0 <= k < 10 ==> x[k] == y[k];
    assert x[2][0] == y[2][0] && x[9][0] == y[9][0];
    TextInjective(a.requestId, b.requestId);
    MaybeInjective(a.routeId, b.routeId);
    TextInjective(a.worktree, b.worktree);
    TextInjective(a.goal, b.goal);
    MaybeInjective(a.targetRef, b.targetRef);
    MilestonesInjective(a.milestones, b.milestones);
    TextInjective(a.delivery, b.delivery);
    TextInjective(a.source, b.source);
  }

  lemma PlanInjective(a: RoutePlans.RoutePlan, b: RoutePlans.RoutePlan)
    requires PlanFields(a) == PlanFields(b)
    ensures a == b
  {
    var x, y := PlanFields(a), PlanFields(b);
    assert forall k :: 0 <= k < 12 ==> x[k] == y[k];
    assert x[2][0] == y[2][0] && x[10][0] == y[10][0];
    TextInjective(a.routeId, b.routeId);
    TextInjective(a.repository, b.repository);
    TextInjective(a.worktree, b.worktree);
    TextInjective(a.startCommit, b.startCommit);
    TextInjective(a.goal, b.goal);
    MaybeInjective(a.targetRef, b.targetRef);
    MilestonesInjective(a.milestones, b.milestones);
    TextInjective(a.delivery, b.delivery);
    TextInjective(a.source, b.source);
    TextInjective(a.updatedAt, b.updatedAt);
  }

  function EncodePlan(r: RoutePlans.Record): Bytes {
    Join(InputFields(r.input) + PlanFields(r.plan))
  }

  lemma PlansInjective()
    ensures Injective(EncodePlan)
  {
    forall x, y | EncodePlan(x) == EncodePlan(y)
      ensures x == y
    {
      var a, b := InputFields(x.input) + PlanFields(x.plan), InputFields(y.input) + PlanFields(y.plan);
      JoinInjective(a, b);
      assert InputFields(x.input) == a[..10] && InputFields(y.input) == b[..10];
      assert PlanFields(x.plan) == a[10..] && PlanFields(y.plan) == b[10..];
      InputInjective(x.input, y.input);
      PlanInjective(x.plan, y.plan);
    }
  }

  lemma RoutePlansCanBeMet() returns (env: RoutePlans.Env)
    ensures RoutePlans.Lawful(env)
  {
    env := RoutePlans.Env("", EncodePlan, Inverse(EncodePlan), i => true, s => true, s => true, s => true);
    PlansInjective();
    forall r
      ensures EncodePlan(r) != [] && RoutePlans.NEWLINE !in EncodePlan(r)
      ensures Inverse(EncodePlan)(EncodePlan(r)) == Some(r)
    {
      PackHigh(Flat(InputFields(r.input) + PlanFields(r.plan)));
      JoinLonger(InputFields(r.input) + PlanFields(r.plan), 2);
      InverseUndoes(EncodePlan, r);
    }
  }

  // ----- the adapter file -----

  function EncodeHandler(h: Adapter.Handler): Bytes {
    Join([Text(h.kind), Maybe(h.command), Text(h.rest)])
  }

  lemma HandlersInjective()
    ensures Injective(EncodeHandler)
  {
    forall x, y | EncodeHandler(x) == EncodeHandler(y)
      ensures x == y
    {
      var a, b := [Text(x.kind), Maybe(x.command), Text(x.rest)], [Text(y.kind), Maybe(y.command), Text(y.rest)];
      JoinInjective(a, b);
      assert a[0] == b[0] && a[1] == b[1] && a[2] == b[2];
      TextInjective(x.kind, y.kind);
      MaybeInjective(x.command, y.command);
      TextInjective(x.rest, y.rest);
    }
  }

  function EncodeGroup(g: Adapter.Group): Bytes {
    Join([Maybe(g.matcher), Text(g.rest)] + Parts(EncodeHandler, g.handlers))
  }

  lemma GroupsInjective()
    ensures Injective(EncodeGroup)
  {
    HandlersInjective();
    forall x, y | EncodeGroup(x) == EncodeGroup(y)
      ensures x == y
    {
      var a, b := [Maybe(x.matcher), Text(x.rest)] + Parts(EncodeHandler, x.handlers),
                  [Maybe(y.matcher), Text(y.rest)] + Parts(EncodeHandler, y.handlers);
      JoinInjective(a, b);
      assert a[0] == b[0] && a[1] == b[1] && a[2..] == b[2..];
      MaybeInjective(x.matcher, y.matcher);
      TextInjective(x.rest, y.rest);
      assert a[2..] == Parts(EncodeHandler, x.handlers) && b[2..] == Parts(EncodeHandler, y.handlers);
      PartsInjective(EncodeHandler, x.handlers, y.handlers);
    }
  }

  type Entry = (string, seq<Adapter.Group>)

  function EncodeEntry(e: Entry): Bytes {
    Join([Text(e.0)] + Parts(EncodeGroup, e.1))
  }

  lemma EntriesInjective()
    ensures Injective(EncodeEntry)
  {
    GroupsInjective();
    forall x: Entry, y: Entry | EncodeEntry(x) == EncodeEntry(y)
      ensures x == y
    {
      var a, b := [Text(x.0)] + Parts(EncodeGroup, x.1), [Text(y.0)] + Parts(EncodeGroup, y.1);
      JoinInjective(a, b);
      assert a[0] == b[0] && a[1..] == b[1..];
      TextInjective(x.0, y.0);
      assert a[1..] == Parts(EncodeGroup, x.1) && b[1..] == Parts(EncodeGroup, y.1);
      PartsInjective(EncodeGroup, x.1, y.1);
    }
  }

  /** The entries of a map in some order. */
  ghost function Listing(m: Adapter.Hooks): seq<Entry> {
    if m == map[] then []
    else
      var k :| k in m;
      [(k, m[k])] + Listing(m - {k})
  }

  lemma {:induction false} ListingInjective(a: Adapter.Hooks, b: Adapter.Hooks)
    requires Listing(a) == Listing(b)
    ensures a == b
    decreases |a|
  {
    if a != map[] && b != map[] {
      var x, y := Listing(a), Listing(b);
      var k, v := x[0].0, x[0].1;
      assert x[0] == y[0] && x[1..] == y[1..];
      assert k in a && a[k] == v && x[1..] == Listing(a - {k});
      assert k in b && b[k] == v && y[1..] == Listing(b - {k});
      ListingInjective(a - {k}, b - {k});
      assert a == (a - {k})[k := v] && b == (b - {k})[k := v];
    }
  }

  ghost function EncodeDocument(d: Adapter.Document): Bytes {
    Join([Text(d.rest), [if d.hooks.Some? then 1 else 0]] + if d.hooks.Some? then Parts(EncodeEntry, Listing(d.hooks.value)) else [])
  }

  lemma DocumentsInjective()
    ensures Injective(EncodeDocument)
  {
    EntriesInjective();
    forall x, y | EncodeDocument(x) == EncodeDocument(y)
      ensures x == y
    {
      var p := if x.hooks.Some? then Parts(EncodeEntry, Listing(x.hooks.value)) else [];
      var q := if y.hooks.Some? then Parts(EncodeEntry, Listing(y.hooks.value)) else [];
      var a, b := [Text(x.rest), [if x.hooks.Some? then 1 else 0]] + p, [Text(y.rest), [if y.hooks.Some? then 1 else 0]] + q;
      JoinInjective(a, b);
      assert a[0] == b[0] && a[1] == b[1] && a[1][0] == b[1][0];
      TextInjective(x.rest, y.rest);
      assert p == a[2..] && q == b[2..];
      if x.hooks.Some? {
        PartsInjective(EncodeEntry, Listing(x.hooks.value), Listing(y.hooks.value));
        ListingInjective(x.hooks.value, y.hooks.value);
      }
    }
  }

  ghost function ParseDocument(b: Bytes): Option<Adapter.Document> {
    if b == [] then None else Inverse(EncodeDocument)(b[..|b| - 1])
  }

  ghost function PlainEnv(host: Adapter.Host): Adapter.Env {
    Adapter.Env(host, ParseDocument, EncodeDocument, h => true, s => true, Adapter.Document("", None), "", "")
  }

  lemma AdapterCanBeMet(host: Adapter.Host)
    ensures Adapter.Lawful(PlainEnv(host))
  {
    DocumentsInjective();
    forall d
      ensures ParseDocument(EncodeDocument(d) + [Adapter.NEWLINE]) == Some(d)
    {
      var b := EncodeDocument(d) + [Adapter.NEWLINE];
      assert b[..|b| - 1] == EncodeDocument(d);
      InverseUndoes(EncodeDocument, d);
    }
  }

  /** As many letters as make a document of one byte less than the adapter reads. */
  const LETTERS: nat := 2_097_147

  function Letters(n: nat): (s: string)
    ensures |s| == n && forall i :: 0 <= i < n ==> s[i] == 'a'
  {
    seq(n, i => 'a')
  }

  lemma {:induction false} PackPairs(ns: seq<nat>)
    requires forall i :: 0 <= i < |ns| ==> 0 < ns[i] < 127
    ensures |Pack(ns)| == 2 * |ns|
  {
    if ns != [] {
      assert Num(ns[0] / 127) == [255];
      PackPairs(ns[1..]);
    }
  }

  lemma LettersSize()
    ensures |Join([Text(Letters(LETTERS))])| == 2 * LETTERS + 5
  {
    var f := Text(Letters(LETTERS));
    assert Flat([f]) == [LETTERS] + f;
    PackConcat([LETTERS], f);
    PackPairs(f);
    assert |Num(LETTERS)| == 5;
    assert Pack([LETTERS]) == Num(LETTERS) + [];
  }

  lemma DocumentSize(d: Adapter.Document)
    ensures |EncodeDocument(d)| >= |Join([Text(d.rest)])| + if d.hooks.Some? then 4 else 3
    ensures d.hooks.None? ==> |EncodeDocument(d)| == |Join([Text(d.rest)])| + 3
    ensures d.hooks.Some? && d.hooks.value != map[] ==> |EncodeDocument(d)| > |Join([Text(d.rest)])| + 4
  {
    var mark := [if d.hooks.Some? then 1 else 0];
    var p := if d.hooks.Some? then Parts(EncodeEntry, Listing(d.hooks.value)) else [];
    JoinConcat([Text(d.rest), mark], p);
    assert [Text(d.rest), mark] == [Text(d.rest)] + [mark];
    JoinConcat([Text(d.rest)], [mark]);
    assert Flat([mark]) == [1] + mark;
    assert Pack([1, 0]) == Num(1) + (Num(0) + []) && Pack([1, 1]) == Num(1) + (Num(1) + []);
    if d.hooks.Some? && d.hooks.value != map[] {
      assert |Flat(p)| > 0;
      PackLonger(Flat(p));
    }
  }

  /**
   * A configuration one byte below the limit, with nothing of DevMap in it: the installation is accepted, and what it
   * wrote can be neither installed over nor uninstalled from.
   */
  lemma InstalledTooLarge(host: Adapter.Host)
    ensures var env, bindings := PlainEnv(host), Adapter.BindingsFor(Adapter.HostName(host), Adapter.EVENTS);
            var d := Adapter.Document(Letters(LETTERS), None);
            var target := env.pretty(d) + [Adapter.NEWLINE];
            var installed := Adapter.Desired(env, Adapter.Install, bindings, Some(target));
            |target| == Adapter.MAX_ADAPTER_CONFIG_BYTES - 1 && Adapter.Parse(env, target) == Some(d) && installed.Ok?
            && Adapter.Desired(env, Adapter.Install, bindings, Some(installed.value)) == Err(Adapter.TooLarge)
            && Adapter.Desired(env, Adapter.Uninstall, bindings, Some(installed.value)) == Err(Adapter.TooLarge)
  {
    var env, bindings := PlainEnv(host), Adapter.BindingsFor(Adapter.HostName(host), Adapter.EVENTS);
    var d := Adapter.Document(Letters(LETTERS), None);
    var target := env.pretty(d) + [Adapter.NEWLINE];
    AdapterCanBeMet(host);
    Adapter.StandardBindingsOk(env);
    LettersSize();
    DocumentSize(d);
    assert Adapter.Valid(env, d);
    var after := Adapter.Installed(env, d, bindings);
    InstalledSomething(env, d, bindings);
    DocumentSize(after);
    Adapter.InstallKeepsForeign(env, d, bindings, "");
    Adapter.SecondInstallChangesNoBytes(env, bindings, Some(target));
    Adapter.UninstallAfterInstall(env, bindings, Some(target), "");
  }

  lemma InstalledSomething(env: Adapter.Env, d: Adapter.Document, bindings: seq<Adapter.Binding>)
    requires Adapter.BindingsOk(env, bindings) && d.hooks.None? && bindings != []
    ensures Adapter.Installed(env, d, bindings).hooks.Some? && Adapter.Installed(env, d, bindings).hooks.value != map[]
  {
    var after := Adapter.HooksOf(Adapter.Installed(env, d, bindings));
    Adapter.InstallIsExact(env, d, bindings);
    assert bindings[0] in bindings && Adapter.ExactlyOne(env, after, bindings[0]);
    assert bindings[0].event in after;
  }

  // ----- presence -----

  function Ticks(n: nat): (s: string)
    ensures |s| == n
  {
    seq(n, i => '|')
  }

  function Format(t: int): string {
    if t < Presence.EARLIEST then "" else Ticks(t - Presence.EARLIEST)
  }

  lemma PresenceCanBeMet() returns (env: Presence.Env)
    ensures Presence.Lawful(env)
  {
    env := Presence.Env(None, "", Format, (s: string) => Some(Presence.EARLIEST + |s|));
    forall t | Presence.EARLIEST <= t <= Presence.LATEST
      ensures env.instant(env.format(t)) == Some(t)
    {
      assert env.format(t) == Format(t) && |Format(t)| == t - Presence.EARLIEST;
    }
  }
}
