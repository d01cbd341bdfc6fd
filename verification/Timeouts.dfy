/** When a counter's entry was last refreshed, in terms of the history, and hence which runs
    drop no live connection for its age. */
module Timeouts {
  import opened FlowHistory
  import opened Connections
  import opened QuadGen

  /** The time of the last report of k in slot s or, if it has none, in the last slot before that has. */
  function LastSeen(h: History, s: nat, k: QgKey): Duration
  {
    var c := Contrib(h, s, k);
    if c != [] then c[|c| - 1].time else if s == 0 then 0 else LastSeen(h, s - 1, k)
  }

  /** When slot s is passed on at time t, each key with connections to pass on was seen within the
      timeout. */
  ghost predicate InTime(h: History, s: nat, t: Duration)
  {
    forall k :: SeenInTime(h, s, t, k)
  }

  ghost predicate SeenInTime(h: History, s: nat, t: Duration, k: QgKey)
  {
    Carried(h, s + 1, k) > 0 ==> t <= LastSeen(h, s, k) + CONCURRENT_TIMEOUT
  }

  /** The protocol is a byte of the key. */
  predicate IsTcpOrUdp(k: QgKey)
  {
    var bytes := if k.V4? then k.v4 else k.v6;
    |bytes| > 13 && (bytes[13] == 6 || bytes[13] == 17)
  }

  ghost predicate Uniform(h: History)
  {
    forall p :: p in h ==> p.flow.tcpOrUdp == IsTcpOrUdp(p.flow.key)
  }

  ghost predicate Known(c: ConnMap) { forall k :: k in c ==> IsTcpOrUdp(k) }

  /** Every entry comes from a report in slot s. */
  ghost predicate OwnEntries(c: ConnMap, h: History, s: nat) { forall k :: k in c ==> Contrib(h, s, k) != [] }

  /** An entry that was passed on to slot s, and not seen in it, has the time at which it was last seen. */
  ghost predicate FrontTimes(c: ConnMap, h: History, s: nat)
  {
    forall k :: k in c && Contrib(h, s, k) == [] ==> c[k].time == LastSeen(h, s, k)
  }

  ghost predicate Timed(conns: seq<ConnMap>, h: History, n: nat, s: nat)
  {
    && |conns| == n && (n > 0 ==> FrontTimes(conns[0], h, s))
    && (forall j :: 0 < j < n ==> OwnEntries(conns[j], h, s + j))
    && (forall j :: 0 <= j < n ==> Known(conns[j]))
  }

  // ----- Sending a slot -----

  /** What set_connection does to the counters: the entries of the records of TCP and UDP sent are
      given the times of these records. */
  ghost predicate Refreshed(c: ConnMap, touched: ConnMap, stash: QuadrupleStash, keys: set<QgKey>)
  {
    && touched.Keys == c.Keys
    && forall k :: k in c ==> touched[k] == if k in keys && k in stash && stash[k].first.tcpOrUdp
                                            then c[k].(time := stash[k].time) else c[k]
  }

  lemma RefreshOne(c: ConnMap, touched: ConnMap, stash: QuadrupleStash, keys: set<QgKey>, k: QgKey)
    requires Refreshed(c, touched, stash, keys) && k !in keys && k in stash
    ensures Refreshed(c, if stash[k].first.tcpOrUdp then Touch(touched, stash[k].time, k) else touched, stash,
                      keys + {k})
  {
  }

  lemma RefreshBoth(c: ConnMap, middle: ConnMap, touched: ConnMap, stash: QuadrupleStash, a: set<QgKey>, b: set<QgKey>)
    requires Refreshed(c, middle, stash, a) && Refreshed(middle, touched, stash, b)
    ensures Refreshed(c, touched, stash, a + b)
  {
  }

  /** After the records of slot s are sent, every entry has the time at which its key was last seen. */
  lemma SeenWhenSent(c: ConnMap, touched: ConnMap, stash: QuadrupleStash, h: History, s: nat, k: QgKey)
    requires Uniform(h) && FrontTimes(c, h, s) && Known(c)
    requires Stashes(stash, h, s) && Refreshed(c, touched, stash, stash.Keys) && k in c
    ensures touched[k].time == LastSeen(h, s, k)
  {
    var fs := Contrib(h, s, k);
    assert StashEntry(stash, h, s, k);
    if fs != [] {
      FoldOf(fs);
      ContribMembers(h, s, k);
      assert fs[0] in fs;
      assert Placed(s, fs[0]) in h;
    }
  }

  lemma NoneTimesOut(c: ConnMap, touched: ConnMap, stash: QuadrupleStash, h: History, s: nat, t: Duration)
    requires Uniform(h) && FrontTimes(c, h, s) && Known(c) && CountsSlot(c, h, s, true)
    requires Stashes(stash, h, s) && Refreshed(c, touched, stash, stash.Keys) && InTime(h, s, t)
    ensures NothingTimesOut(t, touched)
  {
    forall k | k in touched && touched[k].living > 0
      ensures !TimedOut(t, touched[k])
    {
      SeenWhenSent(c, touched, stash, h, s, k);
      assert SlotCount(c, h, s, k, true) && SeenInTime(h, s, t, k);
      assert Carried(h, s + 1, k) == AtLeastZero(Carried(h, s, k) + Net(h, s, k));
    }
  }

  lemma MergedTimes(conns: seq<ConnMap>, touched: ConnMap, stash: QuadrupleStash, merged: ConnMap, t: Duration,
                    h: History, n: nat, s: nat)
    requires Uniform(h) && Timed(conns, h, n, s) && n >= 2
    requires Stashes(stash, h, s) && Refreshed(conns[0], touched, stash, stash.Keys)
    requires IsMerge(merged, conns[1], t, touched, touched.Keys)
    ensures FrontTimes(merged, h, s + 1) && Known(merged)
  {
    var s' := s + 1;
    assert OwnEntries(conns[1], h, s + 1);
    forall k | k in merged
      ensures IsTcpOrUdp(k)
      ensures Contrib(h, s', k) == [] ==> merged[k].time == LastSeen(h, s', k)
    {
      assert MergedEntry(merged, conns[1], t, touched, touched.Keys, k);
      if k in touched { SeenWhenSent(conns[0], touched, stash, h, s, k); }
      assert k in conns[0] || k in conns[1];
    }
  }

  lemma TimedStep(conns: seq<ConnMap>, touched: ConnMap, stash: QuadrupleStash, merged: ConnMap, t: Duration,
                  h: History, n: nat, s: nat)
    requires Uniform(h) && Timed(conns, h, n, s) && n >= 2
    requires Stashes(stash, h, s) && Refreshed(conns[0], touched, stash, stash.Keys)
    requires IsMerge(merged, conns[1], t, touched, touched.Keys)
    ensures Timed([merged] + conns[2..] + [map[]], h, n, s + 1)
  {
    hide FrontTimes, Stashes, Refreshed, IsMerge, Uniform;
    var conns' := [merged] + conns[2..] + [map[]];
    MergedTimes(conns, touched, stash, merged, t, h, n, s);
    forall j | 0 < j < n
      ensures OwnEntries(conns'[j], h, s + 1 + j) && Known(conns'[j])
    {
      if j < n - 1 {
        assert conns'[j] == conns[j + 1];
        assert OwnEntries(conns[j + 1], h, s + (j + 1));
      }
    }
  }

  // ----- Skipping slots and taking a report -----

  lemma {:induction false} LastSeenAcross(h: History, s: nat, s': nat, k: QgKey)
    requires s <= s' && forall p :: p in h ==> p.slot < s
    ensures LastSeen(h, s', k) == LastSeen(h, s, k)
    decreases s'
  {
    if s < s' {
      NoContrib(h, s', k);
      LastSeenAcross(h, s, s' - 1, k);
    }
  }

  lemma TimedAcross(conns: seq<ConnMap>, h: History, n: nat, s: nat, s': nat)
    requires Timed(conns, h, n, s) && s <= s' && forall p :: p in h ==> p.slot < s
    ensures Timed(conns, h, n, s')
  {
    forall k | n > 0 && k in conns[0]
      ensures conns[0][k].time == LastSeen(h, s', k)
    {
      NoContrib(h, s, k);
      LastSeenAcross(h, s, s', k);
    }
    forall j | 0 < j < n
      ensures OwnEntries(conns[j], h, s' + j)
    {
      assert OwnEntries(conns[j], h, s + j);
      forall k
        ensures k !in conns[j]
      {
        NoContrib(h, s + j, k);
      }
    }
  }

  lemma {:induction false} LastSeenAppend(h: History, p: Placed, s: nat, k: QgKey)
    requires s < p.slot || k != p.flow.key
    ensures LastSeen(h + [p], s, k) == LastSeen(h, s, k)
    decreases s
  {
    ContribAppend(h, p, s, k);
    if s > 0 { LastSeenAppend(h, p, s - 1, k); }
  }

  lemma FrontAppend(c: ConnMap, h: History, s: nat, p: Placed, c': ConnMap)
    requires FrontTimes(c, h, s) && s <= p.slot && c' == if p.slot == s then CountFlow(c, p.flow) else c
    ensures FrontTimes(c', h + [p], s)
  {
    forall k | k in c' && Contrib(h + [p], s, k) == []
      ensures c'[k].time == LastSeen(h + [p], s, k)
    {
      ContribAppend(h, p, s, k);
      LastSeenAppend(h, p, s, k);
    }
  }

  lemma OwnAppend(c: ConnMap, h: History, s: nat, p: Placed, c': ConnMap)
    requires OwnEntries(c, h, s) && c' == if p.slot == s then CountFlow(c, p.flow) else c
    ensures OwnEntries(c', h + [p], s)
  {
    forall k | k in c'
      ensures Contrib(h + [p], s, k) != []
    {
      ContribAppend(h, p, s, k);
    }
  }

  lemma KnownAppend(c: ConnMap, f: Flow, c': ConnMap)
    requires Known(c) && f.tcpOrUdp == IsTcpOrUdp(f.key) && (c' == CountFlow(c, f) || c' == c)
    ensures Known(c')
  {
  }

  lemma TimedInject(conns: seq<ConnMap>, h: History, n: nat, base: nat, slot: nat, f: Flow)
    requires Timed(conns, h, n, base) && slot < n && f.tcpOrUdp == IsTcpOrUdp(f.key)
    ensures Timed(conns[slot := CountFlow(conns[slot], f)], h + [Placed(base + slot, f)], n, base)
  {
    hide FrontTimes, OwnEntries, Known, CountFlow, IsTcpOrUdp;
    var p := Placed(base + slot, f);
    var conns' := conns[slot := CountFlow(conns[slot], f)];
    assert FrontTimes(conns'[0], h + [p], base) by { FrontAppend(conns[0], h, base, p, conns'[0]); }
    forall j | 0 <= j < n
      ensures Known(conns'[j])
    {
      KnownAppend(conns[j], f, conns'[j]);
    }
    forall j | 0 < j < n
      ensures OwnEntries(conns'[j], h + [p], base + j)
    {
      OwnAppend(conns[j], h, base + j, p, conns'[j]);
    }
  }

  // ----- The ring with its times -----

  /** The count slots from s on are passed on in time at t. */
  ghost predicate AllInTime(h: History, s: nat, count: nat, t: Duration)
  {
    count == 0 || (AllInTime(h, s, count - 1, t) && InTime(h, s + count - 1, t))
  }

  /** The ring; inTime says that every slot so far was passed on in time. */
  ghost predicate Wheel(stashs: seq<QuadrupleStash>, conns: seq<ConnMap>, out: seq<AccFlow>, slots: seq<nat>,
                        h: History, inTime: bool, n: nat, base: nat, i: nat)
  {
    && Ring(stashs, conns, out, slots, h, inTime && Uniform(h), n, base, i)
    && (Uniform(h) ==> Timed(conns, h, n, base + i))
  }

  lemma RingWeaken(stashs: seq<QuadrupleStash>, conns: seq<ConnMap>, out: seq<AccFlow>, slots: seq<nat>, h: History,
                   lossless: bool, lossless': bool, n: nat, base: nat, i: nat)
    requires Ring(stashs, conns, out, slots, h, lossless, n, base, i) && (lossless' ==> lossless)
    ensures Ring(stashs, conns, out, slots, h, lossless', n, base, i)
  {
  }

  /** What the ring tells of the records sent so far. */
  lemma WheelTells(stashs: seq<QuadrupleStash>, conns: seq<ConnMap>, out: seq<AccFlow>, slots: seq<nat>, h: History,
                   inTime: bool, n: nat, base: nat)
    requires Wheel(stashs, conns, out, slots, h, inTime, n, base, 0)
    ensures Reports(out, slots, h, base) && (forall p :: p in h ==> p.slot < base + n)
    ensures inTime && Uniform(h) ==> Loaded(out, slots, h)
  {
  }

  lemma WheelCounts(stashs: seq<QuadrupleStash>, conns: seq<ConnMap>, out: seq<AccFlow>, slots: seq<nat>, h: History,
                    inTime: bool, n: nat, base: nat, j: nat)
    requires Wheel(stashs, conns, out, slots, h, inTime, n, base, 0) && j < n
    ensures inTime && Uniform(h) ==> CountsSlot(conns[j], h, base + j, j == 0)
  {
    hide Uniform;
    assert j > 0 ==> CountsSlot(conns[j], h, base + 0 + j, false);
  }

  lemma WheelDrains(stashs: seq<QuadrupleStash>, conns: seq<ConnMap>, out: seq<AccFlow>, slots: seq<nat>, h: History,
                    inTime: bool, n: nat, base: nat)
    requires Wheel(stashs, conns, out, slots, h, inTime, n, base, 0)
    ensures Draining(stashs, out, slots, h, n, base, 0) && |conns| == n && |out| == |slots|
  {
    hide Uniform;
  }

  lemma WheelShape(stashs: seq<QuadrupleStash>, conns: seq<ConnMap>, out: seq<AccFlow>, slots: seq<nat>, h: History,
                   inTime: bool, n: nat, base: nat, i: nat)
    requires Wheel(stashs, conns, out, slots, h, inTime, n, base, i)
    ensures |stashs| == |conns| == n && forall j :: i <= j < n ==> Stashes(stashs[j], h, base + j)
  {
  }

  lemma WheelStep(stashs: seq<QuadrupleStash>, conns: seq<ConnMap>, out: seq<AccFlow>, slots: seq<nat>, h: History,
                  inTime: bool, n: nat, base: nat, i: nat, batch: seq<AccFlow>, touched: ConnMap, t: Duration,
                  merged: ConnMap)
    requires Wheel(stashs, conns, out, slots, h, inTime, n, base, i) && i < n && n >= 2
    requires Lists(batch, stashs[i], stashs[i].Keys, conns[0]) && SameCounts(conns[0], touched)
    requires Refreshed(conns[0], touched, stashs[i], stashs[i].Keys)
    requires IsMerge(merged, conns[1], t, touched, touched.Keys)
    ensures Wheel(stashs[i := map[]], [merged] + conns[2..] + [map[]], out + batch,
                  slots + Repeat(base + i, |batch|), h, inTime && InTime(h, base + i, t), n, base, i + 1)
  {
    hide Ring, Timed, Stashes, Lists, SameCounts, Refreshed, IsMerge, InTime, Uniform;
    WheelShape(stashs, conns, out, slots, h, inTime, n, base, i);
    WheelStepRing(stashs, conns, out, slots, h, inTime, n, base, i, batch, touched, t, merged);
    if Uniform(h) { TimedStep(conns, touched, stashs[i], merged, t, h, n, base + i); }
  }

  lemma WheelStepRing(stashs: seq<QuadrupleStash>, conns: seq<ConnMap>, out: seq<AccFlow>, slots: seq<nat>, h: History,
                      inTime: bool, n: nat, base: nat, i: nat, batch: seq<AccFlow>, touched: ConnMap, t: Duration,
                      merged: ConnMap)
    requires Wheel(stashs, conns, out, slots, h, inTime, n, base, i) && i < n && n >= 2
    requires Lists(batch, stashs[i], stashs[i].Keys, conns[0]) && SameCounts(conns[0], touched)
    requires Refreshed(conns[0], touched, stashs[i], stashs[i].Keys)
    requires IsMerge(merged, conns[1], t, touched, touched.Keys)
    ensures Ring(stashs[i := map[]], [merged] + conns[2..] + [map[]], out + batch, slots + Repeat(base + i, |batch|), h,
                 inTime && InTime(h, base + i, t) && Uniform(h), n, base, i + 1)
    ensures Stashes(stashs[i], h, base + i)
  {
    hide Stashes, CountsSlot, Reports, Loaded, Lists, SameCounts, Refreshed, IsMerge, NothingTimesOut;
    hide FrontTimes, OwnEntries, Known, InTime, Uniform;
    var lossless, now := inTime && Uniform(h), inTime && InTime(h, base + i, t) && Uniform(h);
    assert Stashes(stashs[i], h, base + i);
    if now {
      assert NothingTimesOut(t, touched) by { NoneTimesOut(conns[0], touched, stashs[i], h, base + i, t); }
    }
    assert Ring(stashs[i := map[]], [merged] + conns[2..] + [map[]], out + batch, slots + Repeat(base + i, |batch|), h,
                lossless && NothingTimesOut(t, touched), n, base, i + 1) by {
      RingStep(stashs, conns, out, slots, h, lossless, n, base, i, batch, touched, t, merged);
    }
    RingWeaken(stashs[i := map[]], [merged] + conns[2..] + [map[]], out + batch, slots + Repeat(base + i, |batch|), h,
               lossless && NothingTimesOut(t, touched), now, n, base, i + 1);
  }

  lemma WheelRotate(stashs: seq<QuadrupleStash>, conns: seq<ConnMap>, out: seq<AccFlow>, slots: seq<nat>, h: History,
                    inTime: bool, n: nat, base: nat, shift: nat)
    requires Wheel(stashs, conns, out, slots, h, inTime, n, base, shift) && shift < n
    ensures Wheel(stashs[shift..] + stashs[..shift], conns, out, slots, h, inTime, n, base + shift, 0)
  {
    hide Ring, Timed, Uniform;
    RingRotate(stashs, conns, out, slots, h, inTime && Uniform(h), n, base, shift);
  }

  lemma WheelJump(stashs: seq<QuadrupleStash>, conns: seq<ConnMap>, out: seq<AccFlow>, slots: seq<nat>, h: History,
                  inTime: bool, n: nat, base: nat, shift: nat)
    requires Wheel(stashs, conns, out, slots, h, inTime, n, base, n) && shift >= n
    ensures Wheel(stashs, conns, out, slots, h, inTime, n, base + shift, 0)
  {
    hide Stashes, CountsSlot, Reports, Loaded, Timed, Uniform;
    RingJump(stashs, conns, out, slots, h, inTime && Uniform(h), n, base, shift);
    if Uniform(h) { TimedAcross(conns, h, n, base + n, base + shift); }
  }

  lemma UniformPrefix(h: History, p: Placed)
    requires Uniform(h + [p])
    ensures Uniform(h)
  {
    assert forall q :: q in h ==> q in h + [p];
  }

  lemma WheelInject(stashs: seq<QuadrupleStash>, conns: seq<ConnMap>, out: seq<AccFlow>, slots: seq<nat>, h: History,
                    inTime: bool, n: nat, base: nat, slot: nat, f: Flow)
    requires Wheel(stashs, conns, out, slots, h, inTime, n, base, 0) && slot < n
    ensures Wheel(stashs[slot := Put(stashs[slot], f)], conns[slot := CountFlow(conns[slot], f)], out, slots,
                  h + [Placed(base + slot, f)], inTime, n, base, 0)
  {
    hide Ring, Timed, CountFlow, Put, IsTcpOrUdp;
    WheelShape(stashs, conns, out, slots, h, inTime, n, base, 0);
    var h' := h + [Placed(base + slot, f)];
    RingInject(stashs, conns, out, slots, h, inTime && Uniform(h), n, base, slot, f);
    if Uniform(h') {
      UniformPrefix(h, Placed(base + slot, f));
      assert Placed(base + slot, f) in h';
      TimedInject(conns, h, n, base, slot, f);
    }
    RingWeaken(stashs[slot := Put(stashs[slot], f)], conns[slot := CountFlow(conns[slot], f)], out, slots, h',
               inTime && Uniform(h), inTime && Uniform(h'), n, base, 0);
  }
}
