/** Per-slot counters of concurrent connections, and what they mean in terms of the
    history. An entry that is absent counts as zero. */
module Connections {
  import opened FlowHistory

  datatype Counter = Counter(sum: int, living: int, time: Duration)

  /** One slot's counters; the source keeps them in an LRU cache, without eviction here. */
  type ConnMap = map<QgKey, Counter>

  const CONCURRENT_TIMEOUT := 300 * NANOS

  function Sum(c: ConnMap, k: QgKey): int { if k in c then c[k].sum else 0 }

  function Living(c: ConnMap, k: QgKey): int { if k in c then c[k].living else 0 }

  function AddConnection(c: ConnMap, t: Duration, k: QgKey): ConnMap
  {
    if k in c then c[k := Counter(c[k].sum + 1, c[k].living + 1, t)] else c[k := Counter(1, 1, t)]
  }

  function DeleteConnection(c: ConnMap, t: Duration, k: QgKey, isNew: bool): ConnMap
  {
    if k in c then
      if isNew then c[k := Counter(c[k].sum + 1, c[k].living, t)] else c[k := Counter(c[k].sum, c[k].living - 1, t)]
    else
      if isNew then c[k := Counter(1, 0, t)] else c[k := Counter(0, -1, t)]
  }

  /** The counting part of inject_flow. */
  function CountFlow(c: ConnMap, f: Flow): ConnMap
  {
    if !f.tcpOrUdp then c
    else if f.isNew && f.closeType == ForcedReport then AddConnection(c, f.time, f.key)
    else if f.closeType != ForcedReport then DeleteConnection(c, f.time, f.key, f.isNew)
    else c
  }

  /** The load reported for k: at least one. */
  function Concurrent(c: ConnMap, k: QgKey): nat
  {
    if k in c && c[k].sum > 0 then c[k].sum else 1
  }

  /** get_concurrent also refreshes the time of the entry. */
  function Touch(c: ConnMap, t: Duration, k: QgKey): ConnMap
  {
    if k in c then c[k := c[k].(time := t)] else c
  }

  /** The counts of c are those of slot s of the history; with carried, they include the
      connections carried into the slot. */
  ghost predicate CountsSlot(c: ConnMap, h: History, s: nat, carried: bool)
  {
    forall k :: SlotCount(c, h, s, k, carried)
  }

  ghost predicate SlotCount(c: ConnMap, h: History, s: nat, k: QgKey, carried: bool)
  {
    var base := if carried then Carried(h, s, k) else 0;
    Sum(c, k) == base + News(h, s, k) && Living(c, k) == base + Net(h, s, k)
  }

  /** Counting a flow into its slot. */
  lemma CountFlowCounts(c: ConnMap, h: History, s: nat, f: Flow, carried: bool)
    requires CountsSlot(c, h, s, carried)
    ensures CountsSlot(CountFlow(c, f), h + [Placed(s, f)], s, carried)
  {
    forall k
      ensures SlotCount(CountFlow(c, f), h + [Placed(s, f)], s, k, carried)
    {
      assert SlotCount(c, h, s, k, carried);
      CountOneKey(c, h, s, f, k, carried);
    }
  }

  /** What a flow adds to the flows begun in its slot. */
  function Began(f: Flow, k: QgKey): int { if f.key == k && IsNewFlow(f) then 1 else 0 }

  /** What a flow adds to the connections left open by its slot. */
  function Opened(f: Flow, k: QgKey): int
  {
    if f.key != k then 0 else if Opens(f) then 1 else if Closes(f) then -1 else 0
  }

  lemma CountFlowAdds(c: ConnMap, f: Flow, k: QgKey)
    ensures Sum(CountFlow(c, f), k) == Sum(c, k) + Began(f, k)
    ensures Living(CountFlow(c, f), k) == Living(c, k) + Opened(f, k)
  {
  }

  /** A flow that is counted stamps the entry of its key with its time; no other entry is touched. */
  lemma CountFlowStamps(c: ConnMap, f: Flow, k: QgKey)
    ensures IsNewFlow(f) || Closes(f) ==> f.key in CountFlow(c, f) && CountFlow(c, f)[f.key].time == f.time
    ensures k != f.key || !(IsNewFlow(f) || Closes(f)) ==>
      (k in CountFlow(c, f) <==> k in c) && (k in c ==> CountFlow(c, f)[k] == c[k])
  {
  }

  lemma HistoryAdds(h: History, s: nat, f: Flow, k: QgKey)
    ensures News(h + [Placed(s, f)], s, k) == News(h, s, k) + Began(f, k)
    ensures Net(h + [Placed(s, f)], s, k) == Net(h, s, k) + Opened(f, k)
  {
    hide Contrib, Count;
    ContribAppend(h, Placed(s, f), s, k);
    var before := Contrib(h, s, k);
    CountAppend(before, f, IsNewFlow);
    CountAppend(before, f, Opens);
    CountAppend(before, f, Closes);
  }

  lemma CountOneKey(c: ConnMap, h: History, s: nat, f: Flow, k: QgKey, carried: bool)
    requires SlotCount(c, h, s, k, carried)
    ensures SlotCount(CountFlow(c, f), h + [Placed(s, f)], s, k, carried)
  {
    hide CountFlow, Sum, Living, News, Net, Carried;
    CarriedAppend(h, Placed(s, f), s, k);
    CountFlowAdds(c, f, k);
    HistoryAdds(h, s, f, k);
  }

  /** A flow of another slot changes neither the slot nor, if it is later, what is carried in. */
  lemma OtherSlotCounts(c: ConnMap, h: History, s: nat, p: Placed, carried: bool)
    requires CountsSlot(c, h, s, carried) && p.slot != s && (carried ==> s < p.slot)
    ensures CountsSlot(c, h + [p], s, carried)
  {
    forall k
      ensures SlotCount(c, h + [p], s, k, carried)
    {
      assert SlotCount(c, h, s, k, carried);
      ContribAppend(h, p, s, k);
      if carried { CarriedAppend(h, p, s, k); }
    }
  }

  // ----- Passing a slot on to the next -----

  predicate TimedOut(t: Duration, v: Counter) { t > v.time + CONCURRENT_TIMEOUT }

  predicate PassedOn(t: Duration, v: Counter) { !TimedOut(t, v) && v.living > 0 }

  /** No live connection of c is dropped for its age. */
  ghost predicate NothingTimesOut(t: Duration, c: ConnMap)
  {
    forall k :: k in c && c[k].living > 0 ==> !TimedOut(t, c[k])
  }

  ghost predicate IsMerge(m: ConnMap, self: ConnMap, t: Duration, other: ConnMap, keys: set<QgKey>)
  {
    forall k :: MergedEntry(m, self, t, other, keys, k)
  }

  /** Entry k of m is that of self with the live connections of other added, if k is among keys. */
  ghost predicate MergedEntry(m: ConnMap, self: ConnMap, t: Duration, other: ConnMap, keys: set<QgKey>, k: QgKey)
  {
    if k in keys && k in other && PassedOn(t, other[k]) then
      var l := other[k].living;
      k in m && m[k] == if k in self then Counter(self[k].sum + l, self[k].living + l, self[k].time)
                        else Counter(l, l, other[k].time)
    else
      if k in self then k in m && m[k] == self[k] else k !in m
  }

  /** ConcurrentConnection::merge. */
  method Merge(self: ConnMap, t: Duration, other: ConnMap) returns (m: ConnMap)
    ensures IsMerge(m, self, t, other, other.Keys)
  {
    m := self;
    var keys := other.Keys;
    while keys != {}
      invariant keys <= other.Keys
      invariant IsMerge(m, self, t, other, other.Keys - keys)
      decreases |keys|
    {
      var k :| k in keys;
      var v := other[k];
      ghost var before := m;
      assert MergedEntry(before, self, t, other, other.Keys - keys, k);
      if !(t > v.time + CONCURRENT_TIMEOUT) && !(v.living <= 0) {
        if k in m {
          m := m[k := Counter(m[k].sum + v.living, m[k].living + v.living, m[k].time)];
        } else {
          m := m[k := Counter(v.living, v.living, v.time)];
        }
      }
      forall x
        ensures MergedEntry(m, self, t, other, other.Keys - (keys - {k}), x)
      {
        assert MergedEntry(before, self, t, other, other.Keys - keys, x);
      }
      keys := keys - {k};
    }
    assert other.Keys - {} == other.Keys;
  }

  /** Merging adds what is left open to both counts, unless it was last seen more than 300 seconds before. */
  lemma MergeAdds(m: ConnMap, self: ConnMap, t: Duration, other: ConnMap, k: QgKey)
    requires IsMerge(m, self, t, other, other.Keys)
    ensures var passed := k in other && t <= other[k].time + 300 * NANOS;
            var open := if passed then AtLeastZero(Living(other, k)) else 0;
            Sum(m, k) == Sum(self, k) + open && Living(m, k) == Living(self, k) + open
    ensures k in self ==> k in m && m[k].time == self[k].time
    ensures k in m && k !in self ==> k in other && m[k].time == other[k].time
  {
    assert MergedEntry(m, self, t, other, other.Keys, k);
  }

  /** c and c' hold the same counts. */
  ghost predicate SameCounts(c: ConnMap, c': ConnMap)
  {
    c.Keys == c'.Keys && forall k :: k in c ==> c[k].sum == c'[k].sum && c[k].living == c'[k].living
  }

  lemma SameCountsSlot(c: ConnMap, c': ConnMap, h: History, s: nat, carried: bool)
    requires SameCounts(c, c') && CountsSlot(c, h, s, carried)
    ensures CountsSlot(c', h, s, carried)
  {
    forall k
      ensures SlotCount(c', h, s, k, carried)
    {
      assert SlotCount(c, h, s, k, carried);
    }
  }

  /** If nothing times out, merging a finished slot into the next carries its count on. */
  lemma MergeCarries(m: ConnMap, next: ConnMap, t: Duration, front: ConnMap, h: History, s: nat)
    requires CountsSlot(front, h, s, true) && CountsSlot(next, h, s + 1, false)
    requires IsMerge(m, next, t, front, front.Keys) && NothingTimesOut(t, front)
    ensures CountsSlot(m, h, s + 1, true)
  {
    var s' := s + 1;
    forall k
      ensures SlotCount(m, h, s', k, true)
    {
      assert SlotCount(front, h, s, k, true) && SlotCount(next, h, s + 1, k, false);
      assert MergedEntry(m, next, t, front, front.Keys, k);
    }
  }

  /** When closes never outnumber opens, the counts that merge drops are exactly zero. */
  lemma DroppedAreZero(front: ConnMap, h: History, s: nat, k: QgKey)
    requires CountsSlot(front, h, s, true) && k in front && front[k].living <= 0
    requires forall u: nat :: u <= s + 1 ==> Alive(h, u, k) >= 0
    ensures front[k].living == 0
  {
    assert SlotCount(front, h, s, k, true);
    CarriedWhenBalanced(h, s, k);
    AliveStep(h, s, k);
    assert Alive(h, s + 1, k) >= 0;
  }
}
