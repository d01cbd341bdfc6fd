/** Flows, their accumulation per quadruple, and the reference meaning of both the
    accumulated records and the concurrent-connection counters: functions of the
    history of accepted flows. */
module FlowHistory {
  import opened Numbers
  import opened Wrappers

  /** Time in nanoseconds. */
  type Duration = nat

  const NANOS := 1_000_000_000

  function Secs(t: Duration): nat { t / NANOS }

  datatype QgKey = V4(v4: seq<Byte>) | V6(v6: seq<Byte>)

  datatype CloseType = ForcedReport | Closed(reason: nat)

  datatype L7Protocol = Unknown | Other | Known(id: nat)

  /** The additive part of a meter. */
  datatype Traffic = Traffic(packetTx: nat, packetRx: nat, byteTx: nat, byteRx: nat, newFlow: nat, closedFlow: nat) {
    function Plus(o: Traffic): Traffic
    {
      Traffic(packetTx + o.packetTx, packetRx + o.packetRx, byteTx + o.byteTx, byteRx + o.byteRx,
              newFlow + o.newFlow, closedFlow + o.closedFlow)
    }

    function On(q: TrafficField): nat
    {
      match q
      case PacketTx => packetTx
      case PacketRx => packetRx
      case ByteTx => byteTx
      case ByteRx => byteRx
      case NewFlow => newFlow
      case ClosedFlow => closedFlow
    }
  }

  datatype TrafficField = PacketTx | PacketRx | ByteTx | ByteRx | NewFlow | ClosedFlow

  datatype AppMeter = AppMeter(request: nat, response: nat) {
    function Plus(o: AppMeter): AppMeter { AppMeter(request + o.request, response + o.response) }

    function On(q: AppField): nat { if q == Request then request else response }
  }

  datatype AppField = Request | Response

  /** One report of a flow, with the quadruple key and the meters made from it. */
  datatype Flow = Flow(key: QgKey, time: Duration, tcpOrUdp: bool, isNew: bool, closeType: CloseType,
                       traffic: Traffic, l7: Option<L7Protocol>, app: AppMeter, policyIds: set<nat>)

  /** The record kept per quadruple and slot. */
  datatype AccFlow = AccFlow(first: Flow, key: QgKey, time: Duration, traffic: Traffic, l7: L7Protocol, app: AppMeter,
                             policyIds: set<nat>, load: nat, flowCount: nat)

  function NewAcc(f: Flow): AccFlow
  {
    AccFlow(f, f.key, f.time, f.traffic, if f.l7.Some? then f.l7.value else Unknown, f.app, f.policyIds, 0, 0)
  }

  function Left(load: nat, closed: nat): nat { if load > closed then load - closed else 0 }

  /** AccumulatedFlow::merge. Unknown gives way to any protocol, Other to any but Unknown. */
  function MergeAcc(acc: AccFlow, f: Flow): AccFlow
  {
    var load := acc.flowCount + f.traffic.newFlow;
    var merged := acc.(time := f.time, traffic := acc.traffic.Plus(f.traffic), policyIds := acc.policyIds + f.policyIds,
                       load := load, flowCount := Left(load, f.traffic.closedFlow));
    match f.l7
    case None => merged
    case Some(l7) =>
      if acc.l7 == Unknown || (acc.l7 == Other && l7 != Unknown) then merged.(l7 := l7, app := f.app)
      else if l7 == acc.l7 then merged.(app := acc.app.Plus(f.app))
      else merged
  }

  /** The record of a nonempty sequence of reports. */
  function Fold(fs: seq<Flow>): AccFlow
    requires fs != []
  {
    if |fs| == 1 then NewAcc(fs[0]) else MergeAcc(Fold(fs[..|fs| - 1]), fs[|fs| - 1])
  }

  // ----- Slots and contributions -----

  /** An accepted flow and the number of the slot it was put in, counted from time zero. */
  datatype Placed = Placed(slot: nat, flow: Flow)

  type History = seq<Placed>

  /** The flows of h that were put in slot s under key k, in order. */
  function Contrib(h: History, s: int, k: QgKey): seq<Flow>
  {
    if h == [] then []
    else
      var front, last := Contrib(h[..|h| - 1], s, k), h[|h| - 1];
      if last.slot == s && last.flow.key == k then front + [last.flow] else front
  }

  lemma ContribAppend(h: History, p: Placed, s: int, k: QgKey)
    ensures Contrib(h + [p], s, k)
         == if p.slot == s && p.flow.key == k then Contrib(h, s, k) + [p.flow] else Contrib(h, s, k)
  {
    assert (h + [p])[..|h|] == h;
  }

  lemma {:induction false} ContribMembers(h: History, s: int, k: QgKey)
    ensures forall f :: f in Contrib(h, s, k) ==> s >= 0 && f.key == k && Placed(s, f) in h
    ensures forall p :: p in h && p.slot == s && p.flow.key == k ==> p.flow in Contrib(h, s, k)
  {
    if h != [] {
      ContribMembers(h[..|h| - 1], s, k);
      assert h == h[..|h| - 1] + [h[|h| - 1]];
    }
  }

  /** A record keeps the key of its flows and the time of the last of them. */
  lemma {:induction false} FoldOf(fs: seq<Flow>)
    requires fs != []
    ensures Fold(fs).key == fs[0].key && Fold(fs).first == fs[0] && Fold(fs).time == fs[|fs| - 1].time
  {
    if |fs| > 1 { FoldOf(fs[..|fs| - 1]); }
  }

  /** The policies of a record are those of its flows. */
  lemma {:induction false} FoldPolicies(fs: seq<Flow>, id: nat)
    requires fs != []
    ensures id in Fold(fs).policyIds <==> exists i :: 0 <= i < |fs| && id in fs[i].policyIds
  {
    if |fs| > 1 {
      var front := fs[..|fs| - 1];
      FoldPolicies(front, id);
      assert forall i :: 0 <= i < |front| ==> front[i] == fs[i];
    }
  }

  predicate TellsProtocol(f: Flow) { f.l7.Some? && f.l7.value.Known? }

  /** The protocol of a record is the first known one that a flow reports; else Other, if a flow reports it. */
  lemma {:induction false} FoldProtocol(fs: seq<Flow>)
    requires fs != []
    ensures Fold(fs).l7.Known? <==> exists i :: 0 <= i < |fs| && TellsProtocol(fs[i])
    ensures Fold(fs).l7.Known? ==>
      exists i :: 0 <= i < |fs| && fs[i].l7 == Some(Fold(fs).l7) && forall j :: 0 <= j < i ==> !TellsProtocol(fs[j])
    ensures Fold(fs).l7 == Other <==> !Fold(fs).l7.Known? && exists i :: 0 <= i < |fs| && fs[i].l7 == Some(Other)
  {
    if |fs| == 1 {
      assert Fold(fs).l7.Known? ==> fs[0].l7 == Some(Fold(fs).l7);
    } else {
      var front, last := fs[..|fs| - 1], |fs| - 1;
      FoldProtocol(front);
      assert forall i :: 0 <= i < last ==> front[i] == fs[i];
      if Fold(front).l7.Known? {
        var i :| 0 <= i < last && front[i].l7 == Some(Fold(front).l7)
                 && forall j :: 0 <= j < i ==> !TellsProtocol(front[j]);
        assert fs[i].l7 == Some(Fold(fs).l7) && forall j :: 0 <= j < i ==> !TellsProtocol(fs[j]);
      } else if TellsProtocol(fs[last]) {
        assert fs[last].l7 == Some(Fold(fs).l7) && forall j :: 0 <= j < last ==> !TellsProtocol(fs[j]);
      }
    }
  }

  /** What the flows that report protocol p add up to. */
  function AppTotal(fs: seq<Flow>, p: L7Protocol, q: AppField): nat
  {
    if fs == [] then 0
    else
      var last := fs[|fs| - 1];
      AppTotal(fs[..|fs| - 1], p, q) + if last.l7 == Some(p) then last.app.On(q) else 0
  }

  /** The meter of the last flow that reports protocol p, or of the first flow if none does. */
  function LastApp(fs: seq<Flow>, p: L7Protocol): AppMeter
    requires fs != []
  {
    if |fs| == 1 || fs[|fs| - 1].l7 == Some(p) then fs[|fs| - 1].app else LastApp(fs[..|fs| - 1], p)
  }

  lemma {:induction false} NoneOfProtocol(fs: seq<Flow>, p: L7Protocol, q: AppField)
    requires forall i :: 0 <= i < |fs| ==> fs[i].l7 != Some(p)
    ensures AppTotal(fs, p, q) == 0
  {
    if fs != [] { NoneOfProtocol(fs[..|fs| - 1], p, q); }
  }

  /** The application meter of a record with a known protocol adds up the flows that report it. Without one it
      is that of a single flow: a report that repeats Unknown or Other replaces the meter. */
  lemma {:induction false} FoldApp(fs: seq<Flow>, q: AppField)
    requires fs != []
    ensures Fold(fs).app.On(q)
         == if Fold(fs).l7.Known? then AppTotal(fs, Fold(fs).l7, q) else LastApp(fs, Fold(fs).l7).On(q)
  {
    if |fs| == 1 {
      assert AppTotal(fs[..0], Fold(fs).l7, q) == 0;
    } else {
      var front, last := fs[..|fs| - 1], fs[|fs| - 1];
      FoldApp(front, q);
      if !Fold(front).l7.Known? && TellsProtocol(last) {
        FoldProtocol(front);
        assert forall i :: 0 <= i < |front| ==> !TellsProtocol(front[i]);
        NoneOfProtocol(front, last.l7.value, q);
      }
    }
  }

  // ----- Counting connections -----

  predicate Opens(f: Flow) { f.tcpOrUdp && f.isNew && f.closeType == ForcedReport }

  predicate Closes(f: Flow) { f.tcpOrUdp && !f.isNew && f.closeType != ForcedReport }

  predicate IsNewFlow(f: Flow) { f.tcpOrUdp && f.isNew }

  function Count(fs: seq<Flow>, p: Flow -> bool): nat
  {
    if fs == [] then 0 else Count(fs[..|fs| - 1], p) + (if p(fs[|fs| - 1]) then 1 else 0)
  }

  lemma CountAppend(fs: seq<Flow>, f: Flow, p: Flow -> bool)
    ensures Count(fs + [f], p) == Count(fs, p) + (if p(f) then 1 else 0)
  {
    assert (fs + [f])[..|fs|] == fs;
  }

  /** Net change of open connections of k in slot s. */
  function Net(h: History, s: int, k: QgKey): int
  {
    Count(Contrib(h, s, k), Opens) - Count(Contrib(h, s, k), Closes)
  }

  /** Flows of k that begin in slot s. */
  function News(h: History, s: int, k: QgKey): nat
  {
    Count(Contrib(h, s, k), IsNewFlow)
  }

  function AtLeastZero(x: int): nat { if x > 0 then x else 0 }

  /** Connections of k carried into slot s when a negative count is dropped at each slot end. */
  function Carried(h: History, s: nat, k: QgKey): nat
  {
    if s == 0 then 0 else AtLeastZero(Carried(h, s - 1, k) + Net(h, s - 1, k))
  }

  function AtLeastOne(x: nat): nat { if x > 0 then x else 1 }

  /** The load that slot s reports for k. */
  function Load(h: History, s: nat, k: QgKey): nat
  {
    AtLeastOne(Carried(h, s, k) + News(h, s, k))
  }

  /** Only slots before s count for what is carried into s. */
  lemma {:induction false} CarriedAppend(h: History, p: Placed, s: nat, k: QgKey)
    requires s <= p.slot
    ensures Carried(h + [p], s, k) == Carried(h, s, k)
    decreases s
  {
    if s > 0 {
      CarriedAppend(h, p, s - 1, k);
      ContribAppend(h, p, s - 1, k);
    }
  }

  /** Slots without flows pass the count on. */
  lemma {:induction false} CarriedAcross(h: History, s: nat, s': nat, k: QgKey)
    requires s <= s' && forall p :: p in h ==> p.slot < s
    ensures Carried(h, s', k) == Carried(h, s, k)
    decreases s'
  {
    if s < s' {
      CarriedAcross(h, s, s' - 1, k);
      NoContrib(h, s' - 1, k);
    }
  }

  lemma {:induction false} NoContrib(h: History, s: int, k: QgKey)
    requires forall p :: p in h ==> p.slot < s
    ensures Contrib(h, s, k) == []
  {
    if h != [] {
      assert h[|h| - 1] in h;
      NoContrib(h[..|h| - 1], s, k);
    }
  }

  // ----- The direct count -----

  /** Flows of k before slot s that satisfy p. */
  function CountBefore(h: History, s: int, k: QgKey, p: Flow -> bool): nat
  {
    if h == [] then 0
    else
      var last := h[|h| - 1];
      CountBefore(h[..|h| - 1], s, k, p) + (if last.slot < s && last.flow.key == k && p(last.flow) then 1 else 0)
  }

  /** Connections of k opened and not closed before slot s, counted over the whole history. */
  function Alive(h: History, s: int, k: QgKey): int
  {
    CountBefore(h, s, k, Opens) - CountBefore(h, s, k, Closes)
  }

  lemma {:induction false} CountBeforeStep(h: History, s: int, k: QgKey, p: Flow -> bool)
    ensures CountBefore(h, s + 1, k, p)
         == CountBefore(h, s, k, p) + Count(Contrib(h, s, k), p)
  {
    if h != [] {
      var front, last := h[..|h| - 1], h[|h| - 1];
      CountBeforeStep(front, s, k, p);
      CountAppend(Contrib(front, s, k), last.flow, p);
    }
  }

  lemma {:induction false} NoneBeforeZero(h: History, k: QgKey, p: Flow -> bool)
    ensures CountBefore(h, 0, k, p) == 0
  {
    if h != [] { NoneBeforeZero(h[..|h| - 1], k, p); }
  }

  lemma AliveStep(h: History, s: int, k: QgKey)
    ensures Alive(h, s + 1, k) == Alive(h, s, k) + Net(h, s, k)
  {
    CountBeforeStep(h, s, k, Opens);
    CountBeforeStep(h, s, k, Closes);
  }

  /** The carried count is never below the direct count, and the gap never shrinks. */
  lemma {:induction false} GapGrows(h: History, s: nat, s': nat, k: QgKey)
    requires s <= s'
    ensures Carried(h, s', k) - Alive(h, s', k)
         >= Carried(h, s, k) - Alive(h, s, k)
    decreases s'
  {
    if s < s' {
      GapGrows(h, s, s' - 1, k);
      AliveStep(h, s' - 1, k);
    }
  }

  lemma {:induction false} CarriedWhenBalanced(h: History, s: nat, k: QgKey)
    requires forall t: nat :: t <= s ==> Alive(h, t, k) >= 0
    ensures Carried(h, s, k) == Alive(h, s, k)
    decreases s
  {
    if s == 0 {
      NoneBeforeZero(h, k, Opens);
      NoneBeforeZero(h, k, Closes);
    } else {
      CarriedWhenBalanced(h, s - 1, k);
      AliveStep(h, s - 1, k);
      assert Alive(h, s, k) >= 0;
    }
  }

  /** The carried count is the direct count iff closes never outnumbered opens at any slot so far. */
  lemma CarriedIsAliveIff(h: History, s: nat, k: QgKey)
    ensures Carried(h, s, k) == Alive(h, s, k)
       <==> forall t: nat :: t <= s ==> Alive(h, t, k) >= 0
  {
    if forall t: nat :: t <= s ==> Alive(h, t, k) >= 0 {
      CarriedWhenBalanced(h, s, k);
    }
    forall t: nat | t <= s && Alive(h, t, k) < 0
      ensures Carried(h, s, k) != Alive(h, s, k)
    {
      GapGrows(h, t, s, k);
    }
  }

  function Alone(p: Placed, s: int, k: QgKey): seq<Flow> { if p.slot == s && p.flow.key == k then [p.flow] else [] }

  lemma ContribOfTwo(p: Placed, q: Placed, s: int, k: QgKey)
    ensures Contrib([p, q], s, k) == Alone(p, s, k) + Alone(q, s, k)
  {
    hide Contrib;
    var none: History := [];
    assert [p, q] == [p] + [q] && [p] == none + [p];
    NoContrib(none, s, k);
    ContribAppend(none, p, s, k);
    ContribAppend([p], q, s, k);
  }

  lemma CountOne(f: Flow, p: Flow -> bool)
    ensures Count([f], p) == if p(f) then 1 else 0
  {
    CountAppend([], f, p);
    assert [] + [f] == [f];
  }

  lemma NetOfOne(h: History, s: int, k: QgKey, f: Flow)
    requires Contrib(h, s, k) == [f]
    ensures Net(h, s, k) == (if Opens(f) then 1 else 0) - (if Closes(f) then 1 else 0)
  {
    CountOne(f, Opens);
    CountOne(f, Closes);
  }

  /** A close of a connection opened before the history, then an open: the one is dropped with its slot,
      the other is carried. */
  lemma CarriedDiffers(open: Flow, close: Flow)
    requires Opens(open) && Closes(close) && open.key == close.key
    ensures var h := [Placed(0, close), Placed(1, open)]; Carried(h, 2, open.key) == 1 && Alive(h, 2, open.key) == 0
  {
    hide Contrib, Net, CountBefore;
    var k, h := open.key, [Placed(0, close), Placed(1, open)];
    ContribOfTwo(Placed(0, close), Placed(1, open), 0, k);
    ContribOfTwo(Placed(0, close), Placed(1, open), 1, k);
    NetOfOne(h, 0, k, close);
    NetOfOne(h, 1, k, open);
    NoneBeforeZero(h, k, Opens);
    NoneBeforeZero(h, k, Closes);
    AliveStep(h, 0, k);
    AliveStep(h, 1, k);
    assert Carried(h, 1, k) == AtLeastZero(Carried(h, 0, k) + Net(h, 0, k));
  }

  /** Then the load of a slot is the connections alive on entry plus the flows that begin
      in it, and at least one. */
  lemma LoadWhenBalanced(h: History, s: nat, k: QgKey)
    requires forall t: nat :: t <= s ==> Alive(h, t, k) >= 0
    ensures var direct := Alive(h, s, k) + News(h, s, k); Load(h, s, k) == if direct > 1 then direct else 1
  {
    CarriedWhenBalanced(h, s, k);
  }

  // ----- Totals -----

  /** What the flows count under q, added up. */
  function Total(fs: seq<Flow>, q: TrafficField): nat
  {
    if fs == [] then 0 else Total(fs[..|fs| - 1], q) + fs[|fs| - 1].traffic.On(q)
  }

  lemma PlusAdds(a: Traffic, b: Traffic, q: TrafficField)
    ensures a.Plus(b).On(q) == a.On(q) + b.On(q)
  {
  }

  lemma {:induction false} FoldTraffic(fs: seq<Flow>, q: TrafficField)
    requires fs != []
    ensures Fold(fs).traffic.On(q) == Total(fs, q)
  {
    assert Total(fs[..0], q) == 0;
    if |fs| > 1 {
      FoldTraffic(fs[..|fs| - 1], q);
      PlusAdds(Fold(fs[..|fs| - 1]).traffic, fs[|fs| - 1].traffic, q);
    }
  }

  /** Flows begun less flows ended from report j on. */
  function Rise(fs: seq<Flow>, j: nat): int
    requires j <= |fs|
  {
    Total(fs[j..], NewFlow) - Total(fs[j..], ClosedFlow)
  }

  lemma RiseStep(fs: seq<Flow>, j: nat)
    requires j < |fs|
    ensures Rise(fs, j) == Rise(fs[..|fs| - 1], j) + fs[|fs| - 1].traffic.newFlow - fs[|fs| - 1].traffic.closedFlow
  {
    assert fs[j..][..|fs[j..]| - 1] == fs[..|fs| - 1][j..];
  }

  /** The flow count kept with a record is the largest rise up to its last report, the first report aside; the
      load adds the flows begun by the last report to the count before it. */
  lemma {:induction false} FoldLoad(fs: seq<Flow>)
    requires fs != []
    ensures forall j :: 1 <= j <= |fs| ==> Rise(fs, j) <= Fold(fs).flowCount
    ensures exists j :: 1 <= j <= |fs| && Fold(fs).flowCount == Rise(fs, j)
    ensures Fold(fs).load == if |fs| == 1 then 0 else Fold(fs[..|fs| - 1]).flowCount + fs[|fs| - 1].traffic.newFlow
  {
    assert Rise(fs, |fs|) == 0;
    if |fs| > 1 {
      var front := fs[..|fs| - 1];
      FoldLoad(front);
      forall j | 1 <= j < |fs|
        ensures Rise(fs, j) <= Fold(fs).flowCount
      {
        RiseStep(fs, j);
      }
      var j :| 1 <= j <= |front| && Fold(front).flowCount == Rise(front, j);
      RiseStep(fs, j);
      assert Fold(fs).flowCount == Rise(fs, j) || Fold(fs).flowCount == Rise(fs, |fs|);
    }
  }

  function TotalAccepted(h: History, q: TrafficField): nat
  {
    if h == [] then 0 else TotalAccepted(h[..|h| - 1], q) + h[|h| - 1].flow.traffic.On(q)
  }

  datatype Place = Place(slot: nat, key: QgKey)

  function TotalAt(h: History, at: Place, q: TrafficField): nat { Total(Contrib(h, at.slot, at.key), q) }

  /** The traffic of the flows put under each of the given slots and keys. */
  function TotalUnder(at: seq<Place>, h: History, q: TrafficField): nat
  {
    if at == [] then 0 else TotalUnder(at[..|at| - 1], h, q) + TotalAt(h, at[|at| - 1], q)
  }

  predicate Distinct(at: seq<Place>)
  {
    forall i, j :: 0 <= i < j < |at| ==> at[i] != at[j]
  }

  lemma TotalAtAppend(h: History, p: Placed, at: Place, q: TrafficField)
    ensures TotalAt(h + [p], at, q)
         == TotalAt(h, at, q) + if at == Place(p.slot, p.flow.key) then p.flow.traffic.On(q) else 0
  {
    ContribAppend(h, p, at.slot, at.key);
    var c := Contrib(h, at.slot, at.key);
    assert (c + [p.flow])[..|c|] == c;
  }

  lemma {:induction false} TotalUnderAppend(at: seq<Place>, h: History, p: Placed, q: TrafficField)
    requires Distinct(at)
    ensures TotalUnder(at, h + [p], q)
         == TotalUnder(at, h, q) + if Place(p.slot, p.flow.key) in at then p.flow.traffic.On(q) else 0
    decreases at
  {
    if at != [] {
      var front, last, here := at[..|at| - 1], at[|at| - 1], Place(p.slot, p.flow.key);
      assert here in at <==> here in front || here == last;
      assert !(here in front && here == last);
      TotalUnderAppend(front, h, p, q);
      TotalAtAppend(h, p, last, q);
    }
  }

  /** If every flow is under one of the given slots and keys, none is missed or counted twice. */
  lemma {:induction false} TotalUnderAll(at: seq<Place>, h: History, q: TrafficField)
    requires Distinct(at) && forall p :: p in h ==> Place(p.slot, p.flow.key) in at
    ensures TotalUnder(at, h, q) == TotalAccepted(h, q)
    decreases h
  {
    if h == [] {
      TotalUnderNothing(at, h, q);
    } else {
      var front, last := h[..|h| - 1], h[|h| - 1];
      assert h == front + [last];
      TotalUnderAll(at, front, q);
      TotalUnderAppend(at, front, last, q);
    }
  }

  lemma {:induction false} TotalUnderNothing(at: seq<Place>, h: History, q: TrafficField)
    requires h == []
    ensures TotalUnder(at, h, q) == 0
  {
    if at != [] { TotalUnderNothing(at[..|at| - 1], h, q); }
  }
}
