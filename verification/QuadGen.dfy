/** The quadruple generator: a sliding ring of slots, each with its stash of records and
    its connection counters. The ring stands for a function of the history of accepted
    flows, and the output for the records of all slots behind the window. */
module QuadGen {
  import opened FlowHistory
  import opened Connections

  type QuadrupleStash = map<QgKey, AccFlow>

  // ----- What a stash and the output hold -----

  /** stash holds, for each key, the record of the flows put in slot s. */
  ghost predicate Stashes(stash: QuadrupleStash, h: History, s: nat)
  {
    forall k :: StashEntry(stash, h, s, k)
  }

  ghost predicate StashEntry(stash: QuadrupleStash, h: History, s: nat, k: QgKey)
  {
    var c := Contrib(h, s, k);
    if c == [] then k !in stash else k in stash && stash[k] == Fold(c)
  }

  /** The part of inject_flow that merges into the stash. */
  function Put(stash: QuadrupleStash, f: Flow): QuadrupleStash
  {
    stash[f.key := if f.key in stash then MergeAcc(stash[f.key], f) else NewAcc(f)]
  }

  lemma PutStashes(stash: QuadrupleStash, h: History, s: nat, f: Flow)
    requires Stashes(stash, h, s)
    ensures Stashes(Put(stash, f), h + [Placed(s, f)], s)
  {
    forall k
      ensures StashEntry(Put(stash, f), h + [Placed(s, f)], s, k)
    {
      assert StashEntry(stash, h, s, k);
      ContribAppend(h, Placed(s, f), s, k);
      var c := Contrib(h, s, k);
      assert (c + [f])[..|c|] == c;
    }
  }

  lemma OtherSlotStashes(stash: QuadrupleStash, h: History, s: nat, p: Placed)
    requires Stashes(stash, h, s) && p.slot != s
    ensures Stashes(stash, h + [p], s)
  {
    forall k
      ensures StashEntry(stash, h + [p], s, k)
    {
      assert StashEntry(stash, h, s, k);
      ContribAppend(h, p, s, k);
    }
  }

  lemma EmptySlot(h: History, s: nat)
    requires forall p :: p in h ==> p.slot < s
    ensures Stashes(map[], h, s) && CountsSlot(map[], h, s, false)
  {
    forall k
      ensures StashEntry(map[], h, s, k) && SlotCount(map[], h, s, k, false)
    {
      NoContrib(h, s, k);
    }
  }

  /** The record as it is sent: the load of TCP and UDP records is the concurrency count. */
  function Emitted(acc: AccFlow, c: ConnMap): AccFlow
  {
    if acc.first.tcpOrUdp then
      acc.(load := Concurrent(c, acc.key), flowCount := Left(Concurrent(c, acc.key), acc.traffic.closedFlow))
    else acc
  }

  /** The record apart from its load. */
  function Content(acc: AccFlow): AccFlow { acc.(load := 0, flowCount := 0) }

  /** The record of the flows put in slot s under its key; its load is that of the counters for TCP and UDP. */
  ghost predicate RecordOf(acc: AccFlow, s: nat, h: History)
  {
    Contrib(h, s, acc.key) != [] && Content(acc) == Content(Fold(Contrib(h, s, acc.key)))
    && (!acc.first.tcpOrUdp ==> acc == Fold(Contrib(h, s, acc.key)))
  }

  ghost predicate Reported(out: seq<AccFlow>, slots: seq<nat>, s: nat, k: QgKey)
  {
    |out| == |slots| && exists i :: 0 <= i < |out| && slots[i] == s && out[i].key == k
  }

  /** The output holds exactly one record for each slot before bound and each key that has
      flows there, slot after slot, each record being that of all these flows. */
  ghost predicate Reports(out: seq<AccFlow>, slots: seq<nat>, h: History, bound: nat)
  {
    && |out| == |slots|
    && (forall i :: 0 <= i < |out| ==> slots[i] < bound && RecordOf(out[i], slots[i], h))
    && (forall i, j :: 0 <= i < j < |out| ==>
        slots[i] <= slots[j] && (slots[i] == slots[j] ==> out[i].key != out[j].key))
    && (forall p :: p in h && p.slot < bound ==> Reported(out, slots, p.slot, p.flow.key))
  }

  /** Every TCP or UDP record of the output carries the load of its slot. */
  ghost predicate Loaded(out: seq<AccFlow>, slots: seq<nat>, h: History)
  {
    |out| == |slots| && forall i :: 0 <= i < |out| ==> RightLoad(out[i], slots[i], h)
  }

  ghost predicate RightLoad(acc: AccFlow, s: nat, h: History)
  {
    acc.first.tcpOrUdp ==>
      acc.load == Load(h, s, acc.key) && acc.flowCount == AtLeastZero(acc.load - acc.traffic.closedFlow)
  }

  /** batch lists the records of the given keys, once each, as they are sent with counters c. */
  ghost predicate Lists(batch: seq<AccFlow>, stash: QuadrupleStash, keys: set<QgKey>, c: ConnMap)
  {
    && (forall i :: 0 <= i < |batch| ==>
          batch[i].key in keys && batch[i].key in stash && batch[i] == Emitted(stash[batch[i].key], c))
    && (forall i, j :: 0 <= i < j < |batch| ==> batch[i].key != batch[j].key)
    && (forall k :: k in keys ==> HasKey(batch, k))
  }

  ghost predicate HasKey(batch: seq<AccFlow>, k: QgKey)
  {
    exists i :: 0 <= i < |batch| && batch[i].key == k
  }

  lemma ListsBoth(a: seq<AccFlow>, b: seq<AccFlow>, stash: QuadrupleStash, ka: set<QgKey>, kb: set<QgKey>, c: ConnMap)
    requires Lists(a, stash, ka, c) && Lists(b, stash, kb, c) && ka !! kb
    ensures Lists(a + b, stash, ka + kb, c)
  {
    var all := a + b;
    forall k | k in ka + kb
      ensures HasKey(all, k)
    {
      if k in ka {
        assert HasKey(a, k);
        var i :| 0 <= i < |a| && a[i].key == k;
        assert all[i].key == k;
      } else {
        assert HasKey(b, k);
        var i :| 0 <= i < |b| && b[i].key == k;
        assert all[|a| + i].key == k;
      }
    }
  }

  function Repeat(s: nat, n: nat): seq<nat> { seq(n, _ => s) }

  /** Sending the stash of slot bound extends the report by that slot. */
  lemma ReportSlot(out: seq<AccFlow>, slots: seq<nat>, h: History, bound: nat, batch: seq<AccFlow>,
                   stash: QuadrupleStash, c: ConnMap)
    requires Reports(out, slots, h, bound) && Stashes(stash, h, bound) && Lists(batch, stash, stash.Keys, c)
    ensures Reports(out + batch, slots + Repeat(bound, |batch|), h, bound + 1)
  {
    var out', slots' := out + batch, slots + Repeat(bound, |batch|);
    forall i | 0 <= i < |out'|
      ensures slots'[i] < bound + 1 && RecordOf(out'[i], slots'[i], h)
    {
      if i >= |out| {
        assert out'[i] == batch[i - |out|];
        assert StashEntry(stash, h, bound, out'[i].key);
        FoldOf(Contrib(h, bound, out'[i].key));
      }
    }
    forall i, j | 0 <= i < j < |out'|
      ensures slots'[i] <= slots'[j] && (slots'[i] == slots'[j] ==> out'[i].key != out'[j].key)
    {
      if i >= |out| { assert out'[i] == batch[i - |out|] && out'[j] == batch[j - |out|]; }
    }
    forall p | p in h && p.slot < bound + 1
      ensures Reported(out', slots', p.slot, p.flow.key)
    {
      StillReported(out, slots, h, bound, batch, stash, c, p);
    }
  }

  lemma StillReported(out: seq<AccFlow>, slots: seq<nat>, h: History, bound: nat, batch: seq<AccFlow>,
                      stash: QuadrupleStash, c: ConnMap, p: Placed)
    requires Reports(out, slots, h, bound) && Stashes(stash, h, bound) && Lists(batch, stash, stash.Keys, c)
    requires p in h && p.slot <= bound
    ensures Reported(out + batch, slots + Repeat(bound, |batch|), p.slot, p.flow.key)
  {
    var out', slots', k := out + batch, slots + Repeat(bound, |batch|), p.flow.key;
    if p.slot < bound {
      assert Reported(out, slots, p.slot, k);
      var i :| 0 <= i < |out| && slots[i] == p.slot && out[i].key == k;
      assert slots'[i] == p.slot && out'[i].key == k;
    } else {
      ContribMembers(h, bound, k);
      assert p.flow in Contrib(h, bound, k);
      assert StashEntry(stash, h, bound, k);
      assert HasKey(batch, k);
      var i :| 0 <= i < |batch| && batch[i].key == k;
      assert slots'[|out| + i] == p.slot && out'[|out| + i].key == k;
    }
  }

  lemma LoadSlot(out: seq<AccFlow>, slots: seq<nat>, h: History, bound: nat, batch: seq<AccFlow>,
                 stash: QuadrupleStash, c: ConnMap)
    requires Loaded(out, slots, h) && Stashes(stash, h, bound) && Lists(batch, stash, stash.Keys, c)
    requires CountsSlot(c, h, bound, true)
    ensures Loaded(out + batch, slots + Repeat(bound, |batch|), h)
  {
    var out', slots' := out + batch, slots + Repeat(bound, |batch|);
    forall i | 0 <= i < |out'|
      ensures RightLoad(out'[i], slots'[i], h)
    {
      if i >= |out| {
        var k := batch[i - |out|].key;
        assert SlotCount(c, h, bound, k, true);
        assert StashEntry(stash, h, bound, k);
        FoldOf(Contrib(h, bound, k));
        ContribMembers(h, bound, k);
      } else {
        assert RightLoad(out[i], slots[i], h);
      }
    }
  }

  /** A flow accepted into a slot that has not been sent leaves the report right. */
  lemma ReportsAppend(out: seq<AccFlow>, slots: seq<nat>, h: History, bound: nat, p: Placed)
    requires Reports(out, slots, h, bound) && p.slot >= bound
    ensures Reports(out, slots, h + [p], bound)
    ensures Loaded(out, slots, h) ==> Loaded(out, slots, h + [p])
  {
    forall i | 0 <= i < |out|
      ensures RecordOf(out[i], slots[i], h + [p])
      ensures RightLoad(out[i], slots[i], h) ==> RightLoad(out[i], slots[i], h + [p])
    {
      assert RecordOf(out[i], slots[i], h);
      ContribAppend(h, p, slots[i], out[i].key);
      CarriedAppend(h, p, slots[i], out[i].key);
    }
  }

  /** No flow lies between the two bounds. */
  lemma ReportsAcross(out: seq<AccFlow>, slots: seq<nat>, h: History, bound: nat, bound': nat)
    requires Reports(out, slots, h, bound) && bound <= bound' && forall p :: p in h ==> p.slot < bound
    ensures Reports(out, slots, h, bound')
  {
  }

  // ----- The ring of slots -----

  /** The ring with slot base at the window start, after the first i slots have been sent and
      the counters, but not yet the stashes, have been moved on by i. */
  ghost predicate Ring(stashs: seq<QuadrupleStash>, conns: seq<ConnMap>, out: seq<AccFlow>, slots: seq<nat>, h: History,
                       lossless: bool, n: nat, base: nat, i: nat)
  {
    && |stashs| == |conns| == n && i <= n
    && (forall j :: 0 <= j < i ==> stashs[j] == map[])
    && (forall j :: i <= j < n ==> Stashes(stashs[j], h, base + j))
    && (forall j :: 0 < j < n ==> CountsSlot(conns[j], h, base + i + j, false))
    && (lossless ==> (n > 0 ==> CountsSlot(conns[0], h, base + i, true)) && Loaded(out, slots, h))
    && Reports(out, slots, h, base + i)
    && (forall p :: p in h ==> p.slot < base + n)
  }

  /** One turn of the loops of move_window. */
  lemma RingStep(stashs: seq<QuadrupleStash>, conns: seq<ConnMap>, out: seq<AccFlow>, slots: seq<nat>, h: History,
                 lossless: bool, n: nat, base: nat, i: nat, batch: seq<AccFlow>, touched: ConnMap, t: Duration,
                 merged: ConnMap)
    requires Ring(stashs, conns, out, slots, h, lossless, n, base, i) && i < n && n >= 2
    requires Lists(batch, stashs[i], stashs[i].Keys, conns[0]) && SameCounts(conns[0], touched)
    requires IsMerge(merged, conns[1], t, touched, touched.Keys)
    ensures Ring(stashs[i := map[]], [merged] + conns[2..] + [map[]], out + batch, slots + Repeat(base + i, |batch|), h,
                 lossless && NothingTimesOut(t, touched), n, base, i + 1)
  {
    hide Stashes, CountsSlot, Reports, Loaded, Lists, SameCounts, IsMerge, NothingTimesOut;
    var conns' := [merged] + conns[2..] + [map[]];
    ReportSlot(out, slots, h, base + i, batch, stashs[i], conns[0]);
    if lossless && NothingTimesOut(t, touched) {
      LoadSlot(out, slots, h, base + i, batch, stashs[i], conns[0]);
      SameCountsSlot(conns[0], touched, h, base + i, true);
      assert CountsSlot(conns[1], h, base + i + 1, false);
      MergeCarries(merged, conns[1], t, touched, h, base + i);
    }
    forall j | 0 < j < n
      ensures CountsSlot(conns'[j], h, base + (i + 1) + j, false)
    {
      if j < n - 1 {
        assert conns'[j] == conns[j + 1];
        assert CountsSlot(conns[j + 1], h, base + i + (j + 1), false);
      } else {
        EmptySlot(h, base + (i + 1) + j);
      }
    }
  }

  lemma MovedOn(conns: seq<ConnMap>, merged: ConnMap)
    requires |conns| >= 2
    ensures conns[1..][0 := merged] + [map[]] == [merged] + conns[2..] + [map[]]
  {
  }

  /** The stashes while they are sent in place, the first i being done. */
  ghost predicate Draining(stashs: seq<QuadrupleStash>, out: seq<AccFlow>, slots: seq<nat>, h: History, n: nat,
                           base: nat, i: nat)
  {
    && |stashs| == n && i <= n
    && (forall j :: 0 <= j < i ==> stashs[j] == map[])
    && (forall j :: i <= j < n ==> Stashes(stashs[j], h, base + j))
    && Reports(out, slots, h, base + i)
  }

  lemma DrainStep(stashs: seq<QuadrupleStash>, out: seq<AccFlow>, slots: seq<nat>, h: History, n: nat, base: nat,
                  i: nat, batch: seq<AccFlow>, c: ConnMap)
    requires Draining(stashs, out, slots, h, n, base, i) && i < n && Lists(batch, stashs[i], stashs[i].Keys, c)
    ensures Draining(stashs[i := map[]], out + batch, slots + Repeat(base + i, |batch|), h, n, base, i + 1)
  {
    hide Stashes, Reports, Lists;
    ReportSlot(out, slots, h, base + i, batch, stashs[i], c);
  }

  lemma Drained(stashs: seq<QuadrupleStash>, out: seq<AccFlow>, slots: seq<nat>, h: History, n: nat, base: nat)
    requires Draining(stashs, out, slots, h, n, base, n)
    ensures Reports(out, slots, h, base + n) && |stashs| == n && forall j :: 0 <= j < n ==> stashs[j] == map[]
  {
  }

  /** A short shift: the stashes are rotated to follow the counters. */
  lemma RingRotate(stashs: seq<QuadrupleStash>, conns: seq<ConnMap>, out: seq<AccFlow>, slots: seq<nat>, h: History,
                   lossless: bool, n: nat, base: nat, shift: nat)
    requires Ring(stashs, conns, out, slots, h, lossless, n, base, shift) && shift < n
    ensures Ring(stashs[shift..] + stashs[..shift], conns, out, slots, h, lossless, n, base + shift, 0)
  {
    hide Stashes, CountsSlot, Reports, Loaded;
    var stashs' := stashs[shift..] + stashs[..shift];
    forall j | 0 <= j < n
      ensures Stashes(stashs'[j], h, base + shift + j)
    {
      if j < n - shift {
        assert stashs'[j] == stashs[shift + j];
        assert Stashes(stashs[shift + j], h, base + (shift + j));
      } else {
        assert stashs'[j] == stashs[j - (n - shift)] == map[];
        EmptySlot(h, base + shift + j);
      }
    }
  }

  /** A long shift: every slot has been sent, and the slots skipped have no flows. */
  lemma RingJump(stashs: seq<QuadrupleStash>, conns: seq<ConnMap>, out: seq<AccFlow>, slots: seq<nat>, h: History,
                 lossless: bool, n: nat, base: nat, shift: nat)
    requires Ring(stashs, conns, out, slots, h, lossless, n, base, n) && shift >= n
    ensures Ring(stashs, conns, out, slots, h, lossless, n, base + shift, 0)
  {
    hide Stashes, CountsSlot, Reports, Loaded;
    ReportsAcross(out, slots, h, base + n, base + shift);
    forall j | 0 <= j < n
      ensures Stashes(stashs[j], h, base + shift + j)
      ensures j > 0 ==> CountsSlot(conns[j], h, base + shift + j, false)
    {
      EmptySlot(h, base + shift + j);
      if j > 0 {
        assert CountsSlot(conns[j], h, base + n + j, false);
        SameEmpty(conns[j], h, base + n + j, base + shift + j, false);
      }
    }
    if lossless && n > 0 { SameEmpty(conns[0], h, base + n, base + shift, true); }
  }

  lemma SameEmpty(c: ConnMap, h: History, s: nat, s': nat, carried: bool)
    requires CountsSlot(c, h, s, carried) && s <= s' && forall p :: p in h ==> p.slot < s
    ensures CountsSlot(c, h, s', carried)
  {
    forall k
      ensures SlotCount(c, h, s', k, carried)
    {
      assert SlotCount(c, h, s, k, carried);
      NoContrib(h, s, k);
      NoContrib(h, s', k);
      CarriedAcross(h, s, s', k);
    }
  }

  /** A flow put in slot base + slot. */
  lemma RingInject(stashs: seq<QuadrupleStash>, conns: seq<ConnMap>, out: seq<AccFlow>, slots: seq<nat>, h: History,
                   lossless: bool, n: nat, base: nat, slot: nat, f: Flow)
    requires Ring(stashs, conns, out, slots, h, lossless, n, base, 0) && slot < n
    ensures Ring(stashs[slot := Put(stashs[slot], f)], conns[slot := CountFlow(conns[slot], f)], out, slots,
                 h + [Placed(base + slot, f)], lossless, n, base, 0)
  {
    hide Stashes, CountsSlot, Reports, Loaded, CountFlow, Put;
    var p := Placed(base + slot, f);
    var stashs', conns' := stashs[slot := Put(stashs[slot], f)], conns[slot := CountFlow(conns[slot], f)];
    ReportsAppend(out, slots, h, base, p);
    forall j | 0 <= j < n
      ensures Stashes(stashs'[j], h + [p], base + j)
    {
      if j == slot { PutStashes(stashs[j], h, base + j, f); } else { OtherSlotStashes(stashs[j], h, base + j, p); }
    }
    forall j | 0 <= j < n && (j > 0 || lossless)
      ensures CountsSlot(conns'[j], h + [p], base + j, j == 0)
    {
      if j > 0 { assert CountsSlot(conns[j], h, base + 0 + j, false); }
      if j == slot {
        CountFlowCounts(conns[j], h, base + j, f, j == 0);
      } else {
        OtherSlotCounts(conns[j], h, base + j, p, j == 0);
      }
    }
  }

  // ----- Conservation -----

  function TotalSent(out: seq<AccFlow>, q: TrafficField): nat
  {
    if out == [] then 0 else TotalSent(out[..|out| - 1], q) + out[|out| - 1].traffic.On(q)
  }

  ghost function Places(out: seq<AccFlow>, slots: seq<nat>): seq<Place>
    requires |out| == |slots|
  {
    seq(|out|, i requires 0 <= i < |out| => Place(slots[i], out[i].key))
  }

  lemma {:induction false} SentUnderPlaces(out: seq<AccFlow>, slots: seq<nat>, h: History, q: TrafficField)
    requires |out| == |slots| && forall i :: 0 <= i < |out| ==> RecordOf(out[i], slots[i], h)
    ensures TotalSent(out, q) == TotalUnder(Places(out, slots), h, q)
    decreases out
  {
    if out != [] {
      var n := |out| - 1;
      SentUnderPlaces(out[..n], slots[..n], h, q);
      assert Places(out, slots)[..n] == Places(out[..n], slots[..n]);
      assert RecordOf(out[n], slots[n], h);
      FoldTraffic(Contrib(h, slots[n], out[n].key), q);
      assert out[n].traffic == Content(out[n]).traffic;
    }
  }

  /** Once every slot with flows has been sent, the records add up to exactly the traffic of
      the accepted flows. */
  lemma TrafficConserved(out: seq<AccFlow>, slots: seq<nat>, h: History, bound: nat, q: TrafficField)
    requires Reports(out, slots, h, bound) && forall p :: p in h ==> p.slot < bound
    ensures TotalSent(out, q) == TotalAccepted(h, q)
  {
    SentUnderPlaces(out, slots, h, q);
    var at := Places(out, slots);
    forall p | p in h
      ensures Place(p.slot, p.flow.key) in at
    {
      assert Reported(out, slots, p.slot, p.flow.key);
      var i :| 0 <= i < |out| && slots[i] == p.slot && out[i].key == p.flow.key;
      assert at[i] == Place(p.slot, p.flow.key);
    }
    TotalUnderAll(at, h, q);
  }
}
