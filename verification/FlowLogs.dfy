/** Flow reports of the flow log: how two reports of one flow are merged, what reversing a
    flow does to it, and what is conserved by both. */
module FlowLogs {
  import opened Wrappers
  import opened FlowHistory

  datatype Peer = Peer(bytes: nat, l3Bytes: nat, l4Bytes: nat, packets: nat, totalBytes: nat, totalPackets: nat,
                       epc: int) {
    /** FlowMetricsPeer::sequential_merge: counts add up, the rest is taken from the newer. */
    function Merge(o: Peer): Peer
    {
      Peer(bytes + o.bytes, l3Bytes + o.l3Bytes, l4Bytes + o.l4Bytes, packets + o.packets,
           totalBytes + o.totalBytes, totalPackets + o.totalPackets, o.epc)
    }
  }

  function Larger(a: nat, b: nat): nat { if a < b then b else a }

  /** What is kept of the performance of each side: its round trips, and TcpPerfCountsPeer. */
  datatype Side = Side(rttSum: nat, rttCount: nat, retrans: nat, zeroWindow: nat) {
    function Merge(o: Side): Side
    {
      Side(rttSum + o.rttSum, rttCount + o.rttCount, retrans + o.retrans, zeroWindow + o.zeroWindow)
    }
  }

  /** The sums and counts of TcpPerfStats that belong to neither side. */
  datatype Tcp = Tcp(srtSum: nat, srtCount: nat, artSum: nat, artCount: nat, citSum: nat, citCount: nat,
                     syn: nat, synAck: nat, retransSyn: nat, retransSynAck: nat, totalRetrans: nat)
  {
    function Merge(o: Tcp): Tcp
    {
      Tcp(srtSum + o.srtSum, srtCount + o.srtCount, artSum + o.artSum, artCount + o.artCount, citSum + o.citSum,
          citCount + o.citCount, syn + o.syn, synAck + o.synAck, retransSyn + o.retransSyn,
          retransSynAck + o.retransSynAck, totalRetrans + o.totalRetrans)
    }
  }

  /** L7PerfStats. */
  datatype L7 = L7(requests: nat, responses: nat, clientErrors: nat, serverErrors: nat, timeouts: nat,
                   rrtCount: nat, rrtSum: nat, rrtMax: nat)
  {
    function Merge(o: L7): L7
    {
      L7(requests + o.requests, responses + o.responses, clientErrors + o.clientErrors, serverErrors + o.serverErrors,
         timeouts + o.timeouts, rrtCount + o.rrtCount, rrtSum + o.rrtSum, Larger(rrtMax, o.rrtMax))
    }
  }

  /** FlowPerfStats. */
  datatype Perf = Perf(client: Side, server: Side, tcp: Tcp, l7: L7, rttClientMax: nat, rttServerMax: nat) {
    function Merge(o: Perf): Perf
    {
      Perf(client.Merge(o.client), server.Merge(o.server), tcp.Merge(o.tcp), l7.Merge(o.l7),
           Larger(rttClientMax, o.rttClientMax), Larger(rttServerMax, o.rttServerMax))
    }

    /** FlowPerfStats::reverse: the maxima stay where they are. */
    function Reverse(): Perf
    {
      this.(client := server, server := client)
    }
  }

  datatype TaggedFlow = TaggedFlow(id: nat, statTime: Duration, closeType: CloseType, isNew: bool, reversed: bool,
                                   src: Peer, dst: Peer, perf: Option<Perf>,
                                   startTime: Duration, endTime: Duration, tagSrc: nat, tagDst: nat)
  {
    /** TaggedFlow::reverse: the performance statistics are left alone. */
    function Reverse(): TaggedFlow
    {
      this.(reversed := !reversed, src := dst, dst := src, tagSrc := tagDst, tagDst := tagSrc)
    }

    function ReversePerf(): TaggedFlow
    {
      match perf
      case None => this
      case Some(p) => this.(perf := Some(p.Reverse()))
    }

    /** TaggedFlow::sequential_merge. */
    function Merge(o: TaggedFlow): TaggedFlow
    {
      this.(src := src.Merge(o.src), dst := dst.Merge(o.dst), endTime := o.endTime, closeType := o.closeType,
            reversed := o.reversed,
            perf := if o.perf.None? then perf else if perf.None? then o.perf else Some(perf.value.Merge(o.perf.value)))
    }
  }

  // ----- Totals in the original direction -----

  datatype PeerField = Bytes | L3Bytes | L4Bytes | Packets | TotalBytes | TotalPackets

  datatype SideField = RttSum | RttCount | Retrans | ZeroWindow

  datatype TcpField = SrtSum | SrtCount | ArtSum | ArtCount | CitSum | CitCount
                    | Syn | SynAck | RetransSyn | RetransSynAck | TotalRetrans

  datatype L7Field = Requests | Responses | ClientErrors | ServerErrors | Timeouts | RrtCount | RrtSum

  /** Everything that is counted or summed of a flow: for each of its ends, or for the flow as a whole. */
  datatype Measure = OfSource(peer: PeerField) | OfDestination(peer: PeerField)
                   | OfClient(side: SideField) | OfServer(side: SideField)
                   | OfTcp(tcp: TcpField) | OfL7(l7: L7Field)

  const NO_SIDE := Side(0, 0, 0, 0)

  const NO_TCP := Tcp(0, 0, 0, 0, 0, 0, 0, 0, 0, 0, 0)

  const NO_L7 := L7(0, 0, 0, 0, 0, 0, 0, 0)

  const NO_PERF := Perf(NO_SIDE, NO_SIDE, NO_TCP, NO_L7, 0, 0)

  function OnPeer(p: Peer, q: PeerField): nat
  {
    match q
    case Bytes => p.bytes
    case L3Bytes => p.l3Bytes
    case L4Bytes => p.l4Bytes
    case Packets => p.packets
    case TotalBytes => p.totalBytes
    case TotalPackets => p.totalPackets
  }

  function OnSide(s: Side, q: SideField): nat
  {
    match q
    case RttSum => s.rttSum
    case RttCount => s.rttCount
    case Retrans => s.retrans
    case ZeroWindow => s.zeroWindow
  }

  function OnTcp(t: Tcp, q: TcpField): nat
  {
    match q
    case SrtSum => t.srtSum
    case SrtCount => t.srtCount
    case ArtSum => t.artSum
    case ArtCount => t.artCount
    case CitSum => t.citSum
    case CitCount => t.citCount
    case Syn => t.syn
    case SynAck => t.synAck
    case RetransSyn => t.retransSyn
    case RetransSynAck => t.retransSynAck
    case TotalRetrans => t.totalRetrans
  }

  function OnL7(l: L7, q: L7Field): nat
  {
    match q
    case Requests => l.requests
    case Responses => l.responses
    case ClientErrors => l.clientErrors
    case ServerErrors => l.serverErrors
    case Timeouts => l.timeouts
    case RrtCount => l.rrtCount
    case RrtSum => l.rrtSum
  }

  function Measured(a: Peer, b: Peer, p: Perf, q: Measure): nat
  {
    match q
    case OfSource(x) => OnPeer(a, x)
    case OfDestination(x) => OnPeer(b, x)
    case OfClient(x) => OnSide(p.client, x)
    case OfServer(x) => OnSide(p.server, x)
    case OfTcp(x) => OnTcp(p.tcp, x)
    case OfL7(x) => OnL7(p.l7, x)
  }

  function PerfOf(f: TaggedFlow): Perf { if f.perf.None? then NO_PERF else f.perf.value }

  /** A measure of a flow, with the directions as they were before any reversal. */
  function Canonical(f: TaggedFlow, q: Measure): nat
  {
    var p := PerfOf(f);
    if f.reversed then Measured(f.dst, f.src, p.Reverse(), q) else Measured(f.src, f.dst, p, q)
  }

  /** Turning a record to the direction of a report, statistics and all, changes nothing of it. */
  lemma ReversalNeutral(r: TaggedFlow, q: Measure)
    ensures Canonical(r.Reverse().ReversePerf(), q) == Canonical(r, q)
  {
  }

  lemma PeersAddUp(p: Peer, o: Peer, q: PeerField)
    ensures OnPeer(p.Merge(o), q) == OnPeer(p, q) + OnPeer(o, q)
  {
  }

  lemma SidesAddUp(s: Side, o: Side, q: SideField)
    ensures OnSide(s.Merge(o), q) == OnSide(s, q) + OnSide(o, q)
  {
  }

  lemma TcpAddsUp(t: Tcp, o: Tcp, q: TcpField)
    ensures OnTcp(t.Merge(o), q) == OnTcp(t, q) + OnTcp(o, q)
  {
  }

  lemma L7AddsUp(l: L7, o: L7, q: L7Field)
    ensures OnL7(l.Merge(o), q) == OnL7(l, q) + OnL7(o, q)
  {
  }

  lemma MeasuresAddUp(a: Peer, b: Peer, p: Perf, a': Peer, b': Peer, p': Perf, q: Measure)
    ensures Measured(a.Merge(a'), b.Merge(b'), p.Merge(p'), q) == Measured(a, b, p, q) + Measured(a', b', p', q)
  {
    match q
    case OfSource(x) => PeersAddUp(a, a', x);
    case OfDestination(x) => PeersAddUp(b, b', x);
    case OfClient(x) => SidesAddUp(p.client, p'.client, x);
    case OfServer(x) => SidesAddUp(p.server, p'.server, x);
    case OfTcp(x) => TcpAddsUp(p.tcp, p'.tcp, x);
    case OfL7(x) => L7AddsUp(p.l7, p'.l7, x);
  }

  lemma NoPerfNeutral(p: Perf)
    ensures NO_PERF.Merge(p) == p && p.Merge(NO_PERF) == p
  {
    assert NO_SIDE.Merge(p.client) == p.client == p.client.Merge(NO_SIDE);
    assert NO_SIDE.Merge(p.server) == p.server == p.server.Merge(NO_SIDE);
    assert NO_TCP.Merge(p.tcp) == p.tcp == p.tcp.Merge(NO_TCP);
    assert NO_L7.Merge(p.l7) == p.l7 == p.l7.Merge(NO_L7);
  }

  /** A flow without statistics counts as one whose statistics are all zero. */
  lemma PerfOfMerge(r: TaggedFlow, f: TaggedFlow)
    ensures PerfOf(r.Merge(f)) == PerfOf(r).Merge(PerfOf(f))
  {
    NoPerfNeutral(PerfOf(r));
    NoPerfNeutral(PerfOf(f));
  }

  /** Turned to the same direction, a record and a report add up. */
  lemma MergeAddsUp(r: TaggedFlow, f: TaggedFlow, q: Measure)
    requires r.reversed == f.reversed
    ensures Canonical(r.Merge(f), q) == Canonical(r, q) + Canonical(f, q)
  {
    PerfOfMerge(r, f);
    var p, p' := PerfOf(r), PerfOf(f);
    if r.reversed {
      assert p.Merge(p').Reverse() == p.Reverse().Merge(p'.Reverse());
      MeasuresAddUp(r.dst, r.src, p.Reverse(), f.dst, f.src, p'.Reverse(), q);
    } else {
      MeasuresAddUp(r.src, r.dst, p, f.src, f.dst, p', q);
    }
  }

  /** Merged without turning it first, a record mixes the two directions. */
  lemma MixedDirections()
    ensures exists r: TaggedFlow, f: TaggedFlow, q: Measure ::
      r.reversed != f.reversed && Canonical(r.Merge(f), q) != Canonical(r, q) + Canonical(f, q)
  {
    var none, some := Peer(0, 0, 0, 0, 0, 0, 0), Peer(1, 0, 0, 0, 0, 0, 0);
    var r := TaggedFlow(0, 0, ForcedReport, false, false, some, none, None, 0, 0, 0, 0);
    var f := TaggedFlow(0, 0, ForcedReport, false, true, none, none, None, 0, 0, 0, 0);
    assert Canonical(r.Merge(f), OfDestination(Bytes)) == 1;
    assert Canonical(r, OfDestination(Bytes)) + Canonical(f, OfDestination(Bytes)) == 0;
  }

  // ----- Totals per flow and minute -----

  function MinuteOf(t: Duration): nat { Secs(t) / 60 }

  /** round_to_minute. */
  function RoundToMinute(t: Duration): Duration { MinuteOf(t) * 60 * NANOS }

  /** The total of the reports or records of flow id in minute m. */
  function SumOf(fs: seq<TaggedFlow>, id: nat, m: nat, q: Measure): nat
  {
    if fs == [] then 0
    else
      var front, last := SumOf(fs[..|fs| - 1], id, m, q), fs[|fs| - 1];
      if last.id == id && MinuteOf(last.statTime) == m then front + Canonical(last, q) else front
  }

  lemma SumAppend(fs: seq<TaggedFlow>, f: TaggedFlow, id: nat, m: nat, q: Measure)
    ensures SumOf(fs + [f], id, m, q)
         == SumOf(fs, id, m, q) + if f.id == id && MinuteOf(f.statTime) == m then Canonical(f, q) else 0
  {
    assert (fs + [f])[..|fs|] == fs;
  }

  // ----- The two slots -----

  type Slot = map<nat, TaggedFlow>

  /** Every record of the slot is under its own id, is still open and belongs to minute m. */
  predicate OfMinute(slot: Slot, m: nat)
  {
    forall id :: id in slot ==>
      slot[id].id == id && slot[id].closeType == ForcedReport && MinuteOf(slot[id].statTime) == m
  }

  function Held(slot: Slot, at: nat, id: nat, m: nat, q: Measure): nat
  {
    if m == at && id in slot then Canonical(slot[id], q) else 0
  }

  /** Of each flow and minute, what came in is what went out plus what is still held. */
  ghost predicate Conserves(h: seq<TaggedFlow>, out: seq<TaggedFlow>, s0: Slot, s1: Slot, base: nat)
  {
    forall id: nat, m: nat, q: Measure :: Balanced(h, out, s0, s1, base, id, m, q)
  }

  ghost predicate Balanced(h: seq<TaggedFlow>, out: seq<TaggedFlow>, s0: Slot, s1: Slot, base: nat, id: nat, m: nat,
                           q: Measure)
  {
    SumOf(h, id, m, q) == SumOf(out, id, m, q) + Held(s0, base, id, m, q) + Held(s1, base + 1, id, m, q)
  }

  /** What send_flow does to a record. */
  function Finished(r: TaggedFlow): TaggedFlow
  {
    var a := if r.isNew then r else r.(startTime := RoundToMinute(r.statTime));
    if a.closeType == ForcedReport then a.(endTime := RoundToMinute(a.statTime + 60 * NANOS)) else a
  }

  /** A minute later, the minute after. */
  lemma NextMinute(t: Duration)
    ensures RoundToMinute(t + 60 * NANOS) == RoundToMinute(t) + 60 * NANOS
  {
    assert Secs(t + 60 * NANOS) == Secs(t) + 60;
    assert MinuteOf(t + 60 * NANOS) == MinuteOf(t) + 1;
  }

  lemma FinishedKeeps(r: TaggedFlow, q: Measure)
    ensures Canonical(Finished(r), q) == Canonical(r, q) && Finished(r).id == r.id && Finished(r).statTime == r.statTime
    ensures !r.isNew && r.closeType == ForcedReport ==>
      Finished(r).startTime == RoundToMinute(r.statTime)
        && Finished(r).endTime == RoundToMinute(r.statTime) + 60 * NANOS
  {
    hide RoundToMinute, Measured;
    NextMinute(r.statTime);
  }

  /** A report starts a record. */
  lemma InsertBalances(h: seq<TaggedFlow>, out: seq<TaggedFlow>, s0: Slot, s1: Slot, base: nat, f: TaggedFlow,
                       slot: nat)
    requires Conserves(h, out, s0, s1, base) && slot < 2 && MinuteOf(f.statTime) == base + slot
    requires f.id !in (if slot == 0 then s0 else s1)
    ensures Conserves(h + [f], out, if slot == 0 then s0[f.id := f] else s0,
                      if slot == 1 then s1[f.id := f] else s1, base)
  {
    var t0, t1 := if slot == 0 then s0[f.id := f] else s0, if slot == 1 then s1[f.id := f] else s1;
    forall id: nat, m: nat, q: Measure
      ensures Balanced(h + [f], out, t0, t1, base, id, m, q)
    {
      assert Balanced(h, out, s0, s1, base, id, m, q);
      SumAppend(h, f, id, m, q);
    }
  }

  /** A report is merged into the record of its flow, which is first turned to its direction. */
  function Merged(r: TaggedFlow, f: TaggedFlow): TaggedFlow
  {
    if r.reversed != f.reversed then r.Reverse().ReversePerf().Merge(f) else r.Merge(f)
  }

  lemma MergedAddsUp(r: TaggedFlow, f: TaggedFlow, q: Measure)
    ensures Canonical(Merged(r, f), q) == Canonical(r, q) + Canonical(f, q)
    ensures Merged(r, f).id == r.id && Merged(r, f).statTime == r.statTime && Merged(r, f).closeType == f.closeType
  {
    ReversalNeutral(r, q);
    if r.reversed != f.reversed {
      MergeAddsUp(r.Reverse().ReversePerf(), f, q);
    } else {
      MergeAddsUp(r, f, q);
    }
  }

  /** The tags of the two ends, in the original direction. */
  function Tags(f: TaggedFlow): (nat, nat) { if f.reversed then (f.tagDst, f.tagSrc) else (f.tagSrc, f.tagDst) }

  /** The longest response time. */
  function LongestRrt(f: TaggedFlow): nat { PerfOf(f).l7.rrtMax }

  /** A merged record begins as the record did and ends as the report does. */
  lemma MergedEnds(r: TaggedFlow, f: TaggedFlow)
    ensures Merged(r, f).isNew == r.isNew && Merged(r, f).startTime == r.startTime && Tags(Merged(r, f)) == Tags(r)
    ensures Merged(r, f).endTime == f.endTime && Merged(r, f).reversed == f.reversed
    ensures Merged(r, f).src.epc == f.src.epc && Merged(r, f).dst.epc == f.dst.epc
    ensures LongestRrt(Merged(r, f)) == if LongestRrt(r) < LongestRrt(f) then LongestRrt(f) else LongestRrt(r)
  {
  }

  /** The largest round trip times, client and server, in the original direction. */
  function ClientMax(f: TaggedFlow): nat { if f.reversed then PerfOf(f).rttServerMax else PerfOf(f).rttClientMax }

  function ServerMax(f: TaggedFlow): nat { if f.reversed then PerfOf(f).rttClientMax else PerfOf(f).rttServerMax }

  /** The maxima do not turn with the record. They come out right exactly if the record and the
      report have the same direction, or the record's two maxima are equal, or neither of them is
      above either of the report's. */
  lemma MaximaRightIff(r: TaggedFlow, f: TaggedFlow)
    ensures ClientMax(Merged(r, f)) == Larger(ClientMax(r), ClientMax(f))
            && ServerMax(Merged(r, f)) == Larger(ServerMax(r), ServerMax(f))
       <==> (|| r.reversed == f.reversed
             || ClientMax(r) == ServerMax(r)
             || (Larger(ClientMax(r), ServerMax(r)) <= ClientMax(f)
                 && Larger(ClientMax(r), ServerMax(r)) <= ServerMax(f)))
  {
    var m := Merged(r, f);
    assert m.reversed == f.reversed;
    assert PerfOf(m).rttClientMax == Larger(PerfOf(r).rttClientMax, PerfOf(f).rttClientMax);
    assert PerfOf(m).rttServerMax == Larger(PerfOf(r).rttServerMax, PerfOf(f).rttServerMax);
  }

  /** A client maximum that ends up as a server maximum. */
  lemma MaximaSwap()
    ensures exists r: TaggedFlow, f: TaggedFlow ::
      ClientMax(r) == ServerMax(Merged(r, f)) == 5
        && ServerMax(r) == ClientMax(f) == ServerMax(f) == ClientMax(Merged(r, f)) == 0
  {
    var none := Peer(0, 0, 0, 0, 0, 0, 0);
    var r := TaggedFlow(0, 0, ForcedReport, false, false, none, none, Some(NO_PERF.(rttClientMax := 5)), 0, 0, 0, 0);
    var f := TaggedFlow(0, 0, ForcedReport, false, true, none, none, None, 0, 0, 0, 0);
    var m := Merged(r, f);
    assert m.reversed && PerfOf(m).rttClientMax == 5 && PerfOf(m).rttServerMax == 0;
  }

  lemma MergeBalances(h: seq<TaggedFlow>, out: seq<TaggedFlow>, s0: Slot, s1: Slot, base: nat, f: TaggedFlow, slot: nat)
    requires Conserves(h, out, s0, s1, base) && slot < 2 && MinuteOf(f.statTime) == base + slot
    requires f.id in (if slot == 0 then s0 else s1)
    ensures Conserves(h + [f], out,
                      if slot == 0 then s0[f.id := Merged(s0[f.id], f)] else s0,
                      if slot == 1 then s1[f.id := Merged(s1[f.id], f)] else s1, base)
  {
    var t0 := if slot == 0 then s0[f.id := Merged(s0[f.id], f)] else s0;
    var t1 := if slot == 1 then s1[f.id := Merged(s1[f.id], f)] else s1;
    forall id: nat, m: nat, q: Measure
      ensures Balanced(h + [f], out, t0, t1, base, id, m, q)
    {
      assert Balanced(h, out, s0, s1, base, id, m, q);
      SumAppend(h, f, id, m, q);
      MergedAddsUp((if slot == 0 then s0 else s1)[f.id], f, q);
    }
  }

  /** A report that closes a flow without a record is sent on its own. */
  lemma PassBalances(h: seq<TaggedFlow>, out: seq<TaggedFlow>, s0: Slot, s1: Slot, base: nat, f: TaggedFlow)
    requires Conserves(h, out, s0, s1, base)
    ensures Conserves(h + [f], out + [Finished(f)], s0, s1, base)
  {
    forall id: nat, m: nat, q: Measure
      ensures Balanced(h + [f], out + [Finished(f)], s0, s1, base, id, m, q)
    {
      assert Balanced(h, out, s0, s1, base, id, m, q);
      SumAppend(h, f, id, m, q);
      FinishedKeeps(f, q);
      SumAppend(out, Finished(f), id, m, q);
    }
  }

  /** A record is taken out of a slot and sent. */
  lemma SendBalances(h: seq<TaggedFlow>, out: seq<TaggedFlow>, s0: Slot, s1: Slot, base: nat, id: nat, slot: nat)
    requires Conserves(h, out, s0, s1, base) && slot < 2
    requires var s := if slot == 0 then s0 else s1; id in s && s[id].id == id && MinuteOf(s[id].statTime) == base + slot
    ensures var s := if slot == 0 then s0 else s1;
            Conserves(h, out + [Finished(s[id])], if slot == 0 then s0 - {id} else s0,
                      if slot == 1 then s1 - {id} else s1, base)
  {
    var r := (if slot == 0 then s0 else s1)[id];
    var t0, t1 := if slot == 0 then s0 - {id} else s0, if slot == 1 then s1 - {id} else s1;
    forall x: nat, m: nat, q: Measure
      ensures Balanced(h, out + [Finished(r)], t0, t1, base, x, m, q)
    {
      assert Balanced(h, out, s0, s1, base, x, m, q);
      FinishedKeeps(r, q);
      SumAppend(out, Finished(r), x, m, q);
    }
  }

  /** With the front slot sent, the slots move on by a minute. */
  lemma RotateBalances(h: seq<TaggedFlow>, out: seq<TaggedFlow>, s1: Slot, base: nat)
    requires Conserves(h, out, map[], s1, base)
    ensures Conserves(h, out, s1, map[], base + 1)
  {
    var b := base + 1;
    forall id: nat, m: nat, q: Measure
      ensures Balanced(h, out, s1, map[], b, id, m, q)
    {
      assert Balanced(h, out, map[], s1, base, id, m, q);
    }
  }

  /** With both slots sent, they can move anywhere. */
  lemma JumpBalances(h: seq<TaggedFlow>, out: seq<TaggedFlow>, base: nat, base': nat)
    requires Conserves(h, out, map[], map[], base)
    ensures Conserves(h, out, map[], map[], base')
  {
    forall id: nat, m: nat, q: Measure
      ensures Balanced(h, out, map[], map[], base', id, m, q)
    {
      assert Balanced(h, out, map[], map[], base, id, m, q);
    }
  }

  // ----- What has been sent -----

  /** A record of a flow that went on reaches over the whole of its minute; a record of a flow that
      did not begin in it starts with it. */
  predicate Spans(r: TaggedFlow)
  {
    && (!r.isNew ==> r.startTime == RoundToMinute(r.statTime))
    && (r.closeType == ForcedReport ==> r.endTime == RoundToMinute(r.statTime) + 60 * NANOS)
  }

  lemma FinishedSpans(r: TaggedFlow)
    ensures Spans(Finished(r))
  {
    hide RoundToMinute;
    NextMinute(r.statTime);
  }

  predicate AllSpan(out: seq<TaggedFlow>)
  {
    forall i :: 0 <= i < |out| ==> Spans(out[i])
  }

  /** What holds of the slots, the reports accepted and the records sent. */
  ghost predicate Consistent(h: seq<TaggedFlow>, out: seq<TaggedFlow>, s0: Slot, s1: Slot, base: nat)
  {
    OfMinute(s0, base) && OfMinute(s1, base + 1) && AllSpan(out) && Conserves(h, out, s0, s1, base)
  }

  /** Once the slots have left a minute, all its reports are in records that were sent. */
  lemma PastMinutesComplete(h: seq<TaggedFlow>, out: seq<TaggedFlow>, s0: Slot, s1: Slot, base: nat, id: nat, m: nat,
                            q: Measure)
    requires Consistent(h, out, s0, s1, base) && m < base
    ensures SumOf(out, id, m, q) == SumOf(h, id, m, q)
  {
    assert Balanced(h, out, s0, s1, base, id, m, q);
  }

  lemma SendKeeps(h: seq<TaggedFlow>, out: seq<TaggedFlow>, s0: Slot, s1: Slot, base: nat, id: nat, slot: nat)
    requires Consistent(h, out, s0, s1, base) && slot < 2 && id in (if slot == 0 then s0 else s1)
    ensures var s := if slot == 0 then s0 else s1;
            Consistent(h, out + [Finished(s[id])], if slot == 0 then s0 - {id} else s0,
                       if slot == 1 then s1 - {id} else s1, base)
  {
    SendBalances(h, out, s0, s1, base, id, slot);
    FinishedSpans((if slot == 0 then s0 else s1)[id]);
  }

  lemma InsertKeeps(h: seq<TaggedFlow>, out: seq<TaggedFlow>, s0: Slot, s1: Slot, base: nat, f: TaggedFlow, slot: nat)
    requires Consistent(h, out, s0, s1, base) && slot < 2 && MinuteOf(f.statTime) == base + slot
             && f.closeType == ForcedReport
    requires f.id !in (if slot == 0 then s0 else s1)
    ensures Consistent(h + [f], out, if slot == 0 then s0[f.id := f] else s0,
                       if slot == 1 then s1[f.id := f] else s1, base)
  {
    InsertBalances(h, out, s0, s1, base, f, slot);
  }

  lemma PassKeeps(h: seq<TaggedFlow>, out: seq<TaggedFlow>, s0: Slot, s1: Slot, base: nat, f: TaggedFlow)
    requires Consistent(h, out, s0, s1, base)
    ensures Consistent(h + [f], out + [Finished(f)], s0, s1, base)
  {
    PassBalances(h, out, s0, s1, base, f);
    FinishedSpans(f);
  }

  /** The record is merged and, if the report closed the flow, sent. */
  lemma MergeKeeps(h: seq<TaggedFlow>, out: seq<TaggedFlow>, s0: Slot, s1: Slot, base: nat, f: TaggedFlow, slot: nat)
    requires Consistent(h, out, s0, s1, base) && slot < 2 && MinuteOf(f.statTime) == base + slot
    requires f.id in (if slot == 0 then s0 else s1)
    ensures var r := Merged((if slot == 0 then s0 else s1)[f.id], f);
            if f.closeType == ForcedReport
            then Consistent(h + [f], out, if slot == 0 then s0[f.id := r] else s0,
                            if slot == 1 then s1[f.id := r] else s1, base)
            else Consistent(h + [f], out + [Finished(r)],
                            if slot == 0 then s0 - {f.id} else s0, if slot == 1 then s1 - {f.id} else s1, base)
  {
    var r := Merged((if slot == 0 then s0 else s1)[f.id], f);
    var t0, t1 := if slot == 0 then s0[f.id := r] else s0, if slot == 1 then s1[f.id := r] else s1;
    MergeBalances(h, out, s0, s1, base, f, slot);
    MergedAddsUp((if slot == 0 then s0 else s1)[f.id], f, OfDestination(Bytes));
    if f.closeType != ForcedReport {
      SendBalances(h + [f], out, t0, t1, base, f.id, slot);
      FinishedSpans(r);
      assert slot == 0 ==> t0 - {f.id} == s0 - {f.id};
      assert slot == 1 ==> t1 - {f.id} == s1 - {f.id};
    }
  }
}
