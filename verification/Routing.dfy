/** Tracks and vertical channels of the rails that cannot run straight along their lane (assets/metro-core.js). */
module Routing {
  import opened Prelude
  import opened Geometry

  datatype Route = Route(direct: bool, fromRank: nat, toRank: nat, fromLane: nat, toLane: nat, track: nat)

  /** How many routed edges leave lane `l`; also the next free track above it. */
  function TracksOn(routes: seq<Route>, l: nat): nat {
    if routes == [] then 0
    else
      var n := |routes| - 1;
      TracksOn(routes[..n], l) + if !routes[n].direct && routes[n].fromLane == l then 1 else 0
  }

  /** The routed edges that turn off in the gap after rank `r`, in edge order. */
  function Departing(routes: seq<Route>, r: nat): (s: seq<nat>)
    ensures forall k :: 0 <= k < |s| ==> s[k] < |routes|
  {
    if routes == [] then []
    else
      var n := |routes| - 1;
      Departing(routes[..n], r) + if !routes[n].direct && routes[n].fromRank == r then [n] else []
  }

  /** The routed edges that turn in during the gap after rank `r`, in edge order. */
  function Arriving(routes: seq<Route>, r: nat): (s: seq<nat>)
    ensures forall k :: 0 <= k < |s| ==> s[k] < |routes|
  {
    if routes == [] then []
    else
      var n := |routes| - 1;
      Arriving(routes[..n], r) + if !routes[n].direct && routes[n].toRank == r + 1 then [n] else []
  }

  ghost predicate RoutesOk(routes: seq<Route>, rankCount: nat, laneCount: nat) {
    forall i :: 0 <= i < |routes| ==>
      && routes[i].fromRank < routes[i].toRank < rankCount && routes[i].fromLane < laneCount && routes[i].toLane < laneCount
      && (routes[i].direct ==> routes[i].fromLane == routes[i].toLane)
      && (!routes[i].direct ==> routes[i].track == TracksOn(routes[..i], routes[i].fromLane))
  }

  lemma {:induction false} TracksGrow(routes: seq<Route>, l: nat, i: nat, j: nat)
    requires i <= j <= |routes|
    ensures TracksOn(routes[..i], l) <= TracksOn(routes[..j], l)
    decreases j
  {
    if i < j {
      assert routes[..j][..j - 1] == routes[..j - 1];
      TracksGrow(routes, l, i, j - 1);
    }
  }

  /** Two routed edges never share a track. */
  lemma TracksDiffer(routes: seq<Route>, rankCount: nat, laneCount: nat, i: nat, j: nat)
    requires RoutesOk(routes, rankCount, laneCount) && i < j < |routes| && !routes[i].direct && !routes[j].direct
    ensures routes[i].fromLane != routes[j].fromLane || routes[i].track != routes[j].track
  {
    var l := routes[i].fromLane;
    assert routes[..i + 1][..i] == routes[..i];
    assert TracksOn(routes[..i + 1], l) == TracksOn(routes[..i], l) + 1;
    TracksGrow(routes, l, i + 1, j);
  }

  lemma TrackWithinLane(routes: seq<Route>, rankCount: nat, laneCount: nat, i: nat)
    requires RoutesOk(routes, rankCount, laneCount) && i < |routes| && !routes[i].direct
    ensures routes[i].track < TracksOn(routes, routes[i].fromLane)
  {
    assert routes[..i + 1][..i] == routes[..i];
    assert TracksOn(routes[..i + 1], routes[i].fromLane) == TracksOn(routes[..i], routes[i].fromLane) + 1;
    TracksGrow(routes, routes[i].fromLane, i + 1, |routes|);
    assert routes[..|routes|] == routes;
  }

  lemma {:induction false} DepartingExact(routes: seq<Route>, r: nat)
    ensures forall i: nat :: i in Departing(routes, r) <==> i < |routes| && !routes[i].direct && routes[i].fromRank == r
    ensures Distinct(Departing(routes, r))
  {
    if routes != [] {
      var n := |routes| - 1;
      DepartingExact(routes[..n], r);
      assert forall i :: 0 <= i < n ==> routes[..n][i] == routes[i];
    }
  }

  lemma {:induction false} ArrivingExact(routes: seq<Route>, r: nat)
    ensures forall i: nat :: i in Arriving(routes, r) <==> i < |routes| && !routes[i].direct && routes[i].toRank == r + 1
    ensures Distinct(Arriving(routes, r))
  {
    if routes != [] {
      var n := |routes| - 1;
      ArrivingExact(routes[..n], r);
      assert forall i :: 0 <= i < n ==> routes[..n][i] == routes[i];
    }
  }

  // ----- columns and channels -----

  function ChannelX(c: Columns, r: nat, k: nat): real
    requires r < |c.xs| && r < |c.widths|
  {
    c.xs[r] + c.widths[r] + 24.0 + k as real * 16.0
  }

  ghost predicate DeparturesAt(c: Columns, routes: seq<Route>, r: nat, departure: seq<real>)
    requires r < |c.xs| && r < |c.widths| && |departure| == |routes|
  {
    forall k :: 0 <= k < |Departing(routes, r)| ==>
      departure[Departing(routes, r)[k]] == ChannelX(c, r, k)
  }

  ghost predicate ArrivalsAt(c: Columns, routes: seq<Route>, r: nat, arrival: seq<real>)
    requires r < |c.xs| && r < |c.widths| && |arrival| == |routes|
  {
    forall k :: 0 <= k < |Arriving(routes, r)| ==>
      arrival[Arriving(routes, r)[k]] == ChannelX(c, r, |Departing(routes, r)| + k)
  }

  ghost predicate ChannelsPlaced(c: Columns, routes: seq<Route>, departure: seq<real>, arrival: seq<real>) {
    && ColumnsPlaced(c) && |departure| == |routes| && |arrival| == |routes|
    && (forall r :: 0 <= r < |c.xs| ==> c.channels[r] == |Departing(routes, r)| + |Arriving(routes, r)|)
    && (forall r :: 0 <= r < |c.xs| ==> DeparturesAt(c, routes, r, departure))
    && (forall r :: 0 <= r < |c.xs| ==> ArrivalsAt(c, routes, r, arrival))
  }

  lemma DepartingElsewhere(routes: seq<Route>, r: nat, s: nat)
    requires r != s
    ensures forall i: nat :: !(i in Departing(routes, r) && i in Departing(routes, s))
    ensures forall i: nat :: !(i in Arriving(routes, r) && i in Arriving(routes, s))
  {
    DepartingExact(routes, r);
    DepartingExact(routes, s);
    ArrivingExact(routes, r);
    ArrivingExact(routes, s);
  }

  /** Writes the channels of one gap into the routes that use it. */
  method FillGap(c: Columns, routes: seq<Route>, r: nat, departure: array<real>, arrival: array<real>)
    requires r < |c.xs| && r < |c.widths|
    requires departure.Length == |routes| && arrival.Length == |routes| && departure != arrival
    modifies departure, arrival
    ensures DeparturesAt(c, routes, r, departure[..]) && ArrivalsAt(c, routes, r, arrival[..])
    ensures forall i :: 0 <= i < |routes| && i !in Departing(routes, r) ==> departure[i] == old(departure[i])
    ensures forall i :: 0 <= i < |routes| && i !in Arriving(routes, r) ==> arrival[i] == old(arrival[i])
  {
    var out, inn := Departing(routes, r), Arriving(routes, r);
    DepartingExact(routes, r);
    ArrivingExact(routes, r);
    for k := 0 to |out|
      invariant forall j :: 0 <= j < k ==> departure[out[j]] == ChannelX(c, r, j)
      invariant forall i :: 0 <= i < |routes| && i !in out ==> departure[i] == old(departure[i])
      invariant forall i :: 0 <= i < |routes| ==> arrival[i] == old(arrival[i])
    {
      assert out[k] in out;
      departure[out[k]] := ChannelX(c, r, k);
    }
    for k := 0 to |inn|
      invariant forall j :: 0 <= j < |out| ==> departure[out[j]] == ChannelX(c, r, j)
      invariant forall i :: 0 <= i < |routes| && i !in out ==> departure[i] == old(departure[i])
      invariant forall j :: 0 <= j < k ==> arrival[inn[j]] == ChannelX(c, r, |out| + j)
      invariant forall i :: 0 <= i < |routes| && i !in inn ==> arrival[i] == old(arrival[i])
    {
      assert inn[k] in inn;
      arrival[inn[k]] := ChannelX(c, r, |out| + k);
    }
  }

  method PlaceColumnStarts(gap: real, widths: seq<real>, routes: seq<Route>) returns (c: Columns)
    requires gap >= 48.0 && forall r :: 0 <= r < |widths| ==> widths[r] >= 48.0
    ensures ColumnsPlaced(c) && c.gap == gap && c.widths == widths
    ensures forall r :: 0 <= r < |widths| ==> c.channels[r] == |Departing(routes, r)| + |Arriving(routes, r)|
  {
    c := Columns(gap, [], [], [], 24.0);
    for r := 0 to |widths|
      invariant ColumnsPlaced(c) && c.gap == gap && c.widths == widths[..r]
      invariant forall s :: 0 <= s < r ==> c.channels[s] == |Departing(routes, s)| + |Arriving(routes, s)|
    {
      TakeMore(widths, r);
      var channels := |Departing(routes, r)| + |Arriving(routes, r)|;
      AddColumn(c, widths[r], channels);
      c := Columns(gap, c.widths + [widths[r]], c.channels + [channels], c.xs + [c.right],
                   c.right + widths[r] + gap + channels as real * 16.0);
    }
    assert widths[..|widths|] == widths;
  }

  lemma AddColumn(c: Columns, width: real, channels: nat)
    requires ColumnsPlaced(c) && width >= 48.0
    ensures ColumnsPlaced(Columns(c.gap, c.widths + [width], c.channels + [channels], c.xs + [c.right],
                                  c.right + width + c.gap + channels as real * 16.0))
  {
    var more := Columns(c.gap, c.widths + [width], c.channels + [channels], c.xs + [c.right],
                        c.right + width + c.gap + channels as real * 16.0);
    var n := |c.xs|;
    forall r | 0 <= r < n + 1
      ensures NextX(more, r) == (if r + 1 < n + 1 then more.xs[r + 1] else more.right)
    {
      if r < n {
        assert NextX(more, r) == NextX(c, r);
      }
    }
    if n > 0 {
      assert more.xs[0] == c.xs[0];
    }
  }

  /** Column starts, and a channel of its own for every departure and every arrival. */
  method PlaceColumns(gap: real, widths: seq<real>, routes: seq<Route>) returns (c: Columns, departures: seq<real>, arrivals: seq<real>)
    requires gap >= 48.0 && forall r :: 0 <= r < |widths| ==> widths[r] >= 48.0
    ensures ChannelsPlaced(c, routes, departures, arrivals) && c.gap == gap && c.widths == widths
  {
    c := PlaceColumnStarts(gap, widths, routes);
    var departure := new real[|routes|](i => 0.0);
    var arrival := new real[|routes|](i => 0.0);
    for r := 0 to |widths|
      invariant forall s :: 0 <= s < r ==> DeparturesAt(c, routes, s, departure[..])
      invariant forall s :: 0 <= s < r ==> ArrivalsAt(c, routes, s, arrival[..])
    {
      ghost var d, a := departure[..], arrival[..];
      FillGap(c, routes, r, departure, arrival);
      forall s | 0 <= s < r
        ensures DeparturesAt(c, routes, s, departure[..]) && ArrivalsAt(c, routes, s, arrival[..])
      {
        KeepsGap(c, routes, r, s, d, departure[..], a, arrival[..]);
      }
    }
    departures, arrivals := departure[..], arrival[..];
  }

  lemma KeepsGap(c: Columns, routes: seq<Route>, r: nat, s: nat,
                 d: seq<real>, d': seq<real>, a: seq<real>, a': seq<real>)
    requires r != s && s < |c.xs| && s < |c.widths|
    requires |d| == |d'| == |a| == |a'| == |routes|
    requires DeparturesAt(c, routes, s, d) && ArrivalsAt(c, routes, s, a)
    requires forall i :: 0 <= i < |routes| && i !in Departing(routes, r) ==> d'[i] == d[i]
    requires forall i :: 0 <= i < |routes| && i !in Arriving(routes, r) ==> a'[i] == a[i]
    ensures DeparturesAt(c, routes, s, d') && ArrivalsAt(c, routes, s, a')
  {
    DepartingElsewhere(routes, r, s);
    forall k | 0 <= k < |Departing(routes, s)|
      ensures d'[Departing(routes, s)[k]] == ChannelX(c, s, k)
    {
      assert Departing(routes, s)[k] in Departing(routes, s);
    }
    forall k | 0 <= k < |Arriving(routes, s)|
      ensures a'[Arriving(routes, s)[k]] == ChannelX(c, s, |Departing(routes, s)| + k)
    {
      assert Arriving(routes, s)[k] in Arriving(routes, s);
    }
  }

  // ----- what the channels guarantee -----

  lemma InGap(c: Columns, r: nat, k: nat)
    requires ColumnsPlaced(c) && r < |c.xs| && k < c.channels[r]
    ensures ChannelAt(c, r, ChannelX(c, r, k))
  {
  }

  lemma DepartureSlot(c: Columns, routes: seq<Route>, departure: seq<real>, arrival: seq<real>, i: nat) returns (k: nat)
    requires ChannelsPlaced(c, routes, departure, arrival) && i < |routes| && !routes[i].direct && routes[i].fromRank < |c.xs|
    ensures var r := routes[i].fromRank;
            && k < |Departing(routes, r)| && Departing(routes, r)[k] == i && k < c.channels[r]
            && departure[i] == ChannelX(c, r, k)
  {
    var r := routes[i].fromRank;
    DepartingExact(routes, r);
    assert DeparturesAt(c, routes, r, departure);
    assert i in Departing(routes, r);
    k :| 0 <= k < |Departing(routes, r)| && Departing(routes, r)[k] == i;
  }

  lemma ArrivalSlot(c: Columns, routes: seq<Route>, departure: seq<real>, arrival: seq<real>, i: nat) returns (k: nat)
    requires ChannelsPlaced(c, routes, departure, arrival) && i < |routes| && !routes[i].direct && 0 < routes[i].toRank <= |c.xs|
    ensures var r := routes[i].toRank - 1;
            && k < |Arriving(routes, r)| && Arriving(routes, r)[k] == i && |Departing(routes, r)| + k < c.channels[r]
            && arrival[i] == ChannelX(c, r, |Departing(routes, r)| + k)
  {
    var r := routes[i].toRank - 1;
    k := ArrivingAt(routes, i);
    assert ArrivalsAt(c, routes, r, arrival);
  }

  lemma ArrivingAt(routes: seq<Route>, i: nat) returns (k: nat)
    requires i < |routes| && !routes[i].direct && 0 < routes[i].toRank
    ensures k < |Arriving(routes, routes[i].toRank - 1)| && Arriving(routes, routes[i].toRank - 1)[k] == i
  {
    var r := routes[i].toRank - 1;
    ArrivingExact(routes, r);
    assert i in Arriving(routes, r);
    k :| 0 <= k < |Arriving(routes, r)| && Arriving(routes, r)[k] == i;
  }

  /** Where a routed edge departs and arrives, as slots of the two gaps. */
  ghost predicate Slots(c: Columns, routes: seq<Route>, i: nat, d: real, k: nat, a: real, m: nat)
    requires ColumnsPlaced(c) && i < |routes|
  {
    var r, s := routes[i].fromRank, routes[i].toRank - 1;
    && r <= s < |c.xs|
    && k < |Departing(routes, r)| && Departing(routes, r)[k] == i && k < c.channels[r] && d == ChannelX(c, r, k)
    && |Departing(routes, s)| <= m < c.channels[s] && m - |Departing(routes, s)| < |Arriving(routes, s)|
    && Arriving(routes, s)[m - |Departing(routes, s)|] == i && a == ChannelX(c, s, m)
  }

  lemma SlotsOf(c: Columns, routes: seq<Route>, departure: seq<real>, arrival: seq<real>, laneCount: nat, i: nat)
    returns (k: nat, m: nat)
    requires ChannelsPlaced(c, routes, departure, arrival) && RoutesOk(routes, |c.xs|, laneCount)
    requires i < |routes| && !routes[i].direct
    ensures Slots(c, routes, i, departure[i], k, arrival[i], m)
  {
    k := DepartureSlot(c, routes, departure, arrival, i);
    var n := ArrivalSlot(c, routes, departure, arrival, i);
    m := |Departing(routes, routes[i].toRank - 1)| + n;
  }

  lemma GapsApart(c: Columns, r: nat, x: real, s: nat, y: real)
    requires ColumnsPlaced(c) && ChannelAt(c, r, x) && ChannelAt(c, s, y) && r < s
    ensures x < y
  {
    ColumnsApart(c, r, s);
  }

  /** A routed edge leaves its station, departs, arrives and reaches its end strictly from left to right. */
  lemma LeftToRight(c: Columns, routes: seq<Route>, departure: seq<real>, arrival: seq<real>, laneCount: nat, i: nat)
    requires ChannelsPlaced(c, routes, departure, arrival) && RoutesOk(routes, |c.xs|, laneCount)
    requires i < |routes| && !routes[i].direct
    ensures c.xs[routes[i].fromRank] < departure[i] < arrival[i] < c.xs[routes[i].toRank]
  {
    var k, m := SlotsOf(c, routes, departure, arrival, laneCount, i);
    SlotsForward(c, routes, i, departure[i], k, arrival[i], m);
  }

  lemma SlotsForward(c: Columns, routes: seq<Route>, i: nat, d: real, k: nat, a: real, m: nat)
    requires ColumnsPlaced(c) && i < |routes| && routes[i].toRank < |c.xs| && Slots(c, routes, i, d, k, a, m)
    ensures c.xs[routes[i].fromRank] < d < a < c.xs[routes[i].toRank]
    ensures ChannelAt(c, routes[i].fromRank, d) && ChannelAt(c, routes[i].toRank - 1, a)
  {
    var r, s := routes[i].fromRank, routes[i].toRank - 1;
    InGap(c, r, k);
    InGap(c, s, m);
    if r < s {
      GapsApart(c, r, d, s, a);
    }
    assert NextX(c, s) == c.xs[s + 1];
  }

  /** A direct rail runs forward too. */
  lemma DirectForward(c: Columns, r: nat, s: nat)
    requires ColumnsPlaced(c) && r < s < |c.xs|
    ensures c.xs[r] < c.xs[s]
  {
    ColumnsApart(c, r, s);
  }

  /** No two routed edges share a vertical channel, whether departing or arriving. */
  lemma ChannelsDiffer(c: Columns, routes: seq<Route>, departure: seq<real>, arrival: seq<real>, laneCount: nat, i: nat, j: nat)
    requires ChannelsPlaced(c, routes, departure, arrival) && RoutesOk(routes, |c.xs|, laneCount)
    requires i < |routes| && j < |routes| && i != j && !routes[i].direct && !routes[j].direct
    ensures departure[i] != departure[j] && arrival[i] != arrival[j] && departure[i] != arrival[j]
  {
    var k, m := SlotsOf(c, routes, departure, arrival, laneCount, i);
    var k', m' := SlotsOf(c, routes, departure, arrival, laneCount, j);
    SlotsDiffer(c, routes, i, departure[i], k, arrival[i], m, j, departure[j], k', arrival[j], m');
  }

  lemma SlotsDiffer(c: Columns, routes: seq<Route>, i: nat, d: real, k: nat, a: real, m: nat,
                    j: nat, d': real, k': nat, a': real, m': nat)
    requires ColumnsPlaced(c) && i < |routes| && j < |routes| && i != j
    requires Slots(c, routes, i, d, k, a, m) && Slots(c, routes, j, d', k', a', m')
    ensures d != d' && a != a' && d != a'
  {
    SameSlot(c, routes[i].fromRank, k, routes[j].fromRank, k');
    SameSlot(c, routes[i].toRank - 1, m, routes[j].toRank - 1, m');
    SameSlot(c, routes[i].fromRank, k, routes[j].toRank - 1, m');
  }

  lemma SameSlot(c: Columns, r: nat, k: nat, s: nat, m: nat)
    requires ColumnsPlaced(c) && r < |c.xs| && s < |c.xs| && k < c.channels[r] && m < c.channels[s]
    ensures ChannelX(c, r, k) == ChannelX(c, s, m) ==> r == s && k == m
  {
    InGap(c, r, k);
    InGap(c, s, m);
    if r < s { GapsApart(c, r, ChannelX(c, r, k), s, ChannelX(c, s, m)); }
    if s < r { GapsApart(c, s, ChannelX(c, s, m), r, ChannelX(c, r, k)); }
  }
}
