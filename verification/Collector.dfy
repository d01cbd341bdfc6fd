/** The collector: records are grouped into documents, one per slot and document key. */
module Collector {
  import opened Wrappers
  import opened FlowHistory
  import opened Generator

  const MINUTE := 60
  const QUEUE_BATCH_SIZE := 1024

  datatype StashKey = StashKey(fastId: nat, srcIp: nat, dstIp: nat)

  /** One call of add: the document key and the meter that goes into it. */
  datatype Item = Item(key: StashKey, meter: Traffic)

  /** An item and the slot it was added in, given by the second the slot starts. */
  datatype Added = Added(timestamp: nat, item: Item)

  datatype Document = Document(timestamp: nat, key: StashKey, meter: Traffic)

  // ----- What the documents must be -----

  predicate Here(a: Added, s: nat, k: StashKey) { a.timestamp == s && a.item.key == k }

  ghost predicate Present(h: seq<Added>, s: nat, k: StashKey)
  {
    exists i :: 0 <= i < |h| && Here(h[i], s, k)
  }

  /** What was added in slot s under key k, added up. */
  function SumAt(h: seq<Added>, s: nat, k: StashKey, q: TrafficField): nat
  {
    if h == [] then 0
    else
      var last := h[|h| - 1];
      SumAt(h[..|h| - 1], s, k, q) + if Here(last, s, k) then last.item.meter.On(q) else 0
  }

  /** Every counter of the meter holds the sum of what was added in slot s under key k. */
  ghost predicate AddsUp(meter: Traffic, h: seq<Added>, s: nat, k: StashKey)
  {
    forall q :: meter.On(q) == SumAt(h, s, k, q)
  }

  lemma AddedAppend(h: seq<Added>, a: Added, s: nat, k: StashKey)
    ensures Present(h + [a], s, k) <==> Present(h, s, k) || Here(a, s, k)
    ensures forall q ::
      SumAt(h + [a], s, k, q) == SumAt(h, s, k, q) + if Here(a, s, k) then a.item.meter.On(q) else 0
  {
    var h' := h + [a];
    assert h'[..|h|] == h;
    if i :| 0 <= i < |h| && Here(h[i], s, k) { assert Here(h'[i], s, k); }
    if Here(a, s, k) { assert Here(h'[|h|], s, k); }
  }

  lemma {:induction false} AbsentSum(h: seq<Added>, s: nat, k: StashKey)
    requires !Present(h, s, k)
    ensures forall q :: SumAt(h, s, k, q) == 0
  {
    if h != [] {
      var front := h[..|h| - 1];
      assert !Here(h[|h| - 1], s, k);
      assert forall i :: 0 <= i < |front| ==> front[i] == h[i];
      AbsentSum(front, s, k);
    }
  }

  lemma PresentAt(h: seq<Added>, i: nat)
    requires i < |h|
    ensures Present(h, h[i].timestamp, h[i].item.key)
  {
    assert Here(h[i], h[i].timestamp, h[i].item.key);
  }

  type Inner = map<StashKey, Traffic>

  /** inner holds the sums of slot s. */
  ghost predicate Holds(inner: Inner, h: seq<Added>, s: nat)
  {
    forall k :: HoldsKey(inner, h, s, k)
  }

  ghost predicate HoldsKey(inner: Inner, h: seq<Added>, s: nat, k: StashKey)
  {
    if Present(h, s, k) then k in inner && AddsUp(inner[k], h, s, k) else k !in inner
  }

  ghost predicate Documented(docs: seq<Document>, s: nat, k: StashKey)
  {
    exists i :: 0 <= i < |docs| && docs[i].timestamp == s && docs[i].key == k
  }

  /** docs holds exactly one document for each slot before bound and each key added to in it,
      with the sum of what was added, slot after slot. */
  ghost predicate Documents(docs: seq<Document>, h: seq<Added>, bound: nat)
  {
    && (forall i :: 0 <= i < |docs| ==>
          docs[i].timestamp < bound && Present(h, docs[i].timestamp, docs[i].key)
          && AddsUp(docs[i].meter, h, docs[i].timestamp, docs[i].key))
    && (forall i, j :: 0 <= i < j < |docs| ==>
          docs[i].timestamp <= docs[j].timestamp
            && (docs[i].timestamp == docs[j].timestamp ==> docs[i].key != docs[j].key))
    && (forall i :: 0 <= i < |h| && h[i].timestamp < bound ==> Documented(docs, h[i].timestamp, h[i].item.key))
  }

  /** docs lists the entries of inner, once each, stamped with slot s. */
  ghost predicate Drains(docs: seq<Document>, inner: Inner, keys: set<StashKey>, s: nat)
  {
    && (forall i :: 0 <= i < |docs| ==>
          docs[i].key in keys && docs[i].key in inner && docs[i] == Document(s, docs[i].key, inner[docs[i].key]))
    && (forall i, j :: 0 <= i < j < |docs| ==> docs[i].key != docs[j].key)
    && (forall k :: k in keys ==> Documented(docs, s, k))
  }

  ghost predicate UpTo(h: seq<Added>, s: nat)
  {
    forall i :: 0 <= i < |h| ==> h[i].timestamp <= s
  }

  lemma DocumentedInEither(docs: seq<Document>, more: seq<Document>, s: nat, k: StashKey)
    requires Documented(docs, s, k) || Documented(more, s, k)
    ensures Documented(docs + more, s, k)
  {
    var all := docs + more;
    if Documented(docs, s, k) {
      var d :| 0 <= d < |docs| && docs[d].timestamp == s && docs[d].key == k;
      assert all[d].timestamp == s && all[d].key == k;
    } else {
      var d :| 0 <= d < |more| && more[d].timestamp == s && more[d].key == k;
      assert all[|docs| + d].timestamp == s && all[|docs| + d].key == k;
    }
  }

  lemma DocumentSlot(docs: seq<Document>, h: seq<Added>, s: nat, s': nat, inner: Inner, more: seq<Document>)
    requires Documents(docs, h, s) && Holds(inner, h, s) && Drains(more, inner, inner.Keys, s)
    requires s < s' && UpTo(h, s)
    ensures Documents(docs + more, h, s')
  {
    hide AddsUp, Present, Documented;
    var all := docs + more;
    forall i | 0 <= i < |all|
      ensures all[i].timestamp < s' && Present(h, all[i].timestamp, all[i].key)
              && AddsUp(all[i].meter, h, all[i].timestamp, all[i].key)
    {
      if i >= |docs| {
        assert all[i] == more[i - |docs|];
        assert HoldsKey(inner, h, s, all[i].key);
      }
    }
    forall i, j | 0 <= i < j < |all|
      ensures all[i].timestamp <= all[j].timestamp
              && (all[i].timestamp == all[j].timestamp ==> all[i].key != all[j].key)
    {
      if i >= |docs| { assert all[i] == more[i - |docs|] && all[j] == more[j - |docs|]; }
    }
    forall i | 0 <= i < |h| && h[i].timestamp < s'
      ensures Documented(all, h[i].timestamp, h[i].item.key)
    {
      var k := h[i].item.key;
      if h[i].timestamp == s {
        PresentAt(h, i);
        assert HoldsKey(inner, h, s, k);
      }
      DocumentedInEither(docs, more, h[i].timestamp, k);
    }
  }

  lemma AddKeeps(docs: seq<Document>, inner: Inner, h: seq<Added>, s: nat, item: Item)
    requires Documents(docs, h, s) && Holds(inner, h, s)
    ensures Documents(docs, h + [Added(s, item)], s) && (UpTo(h, s) ==> UpTo(h + [Added(s, item)], s))
    ensures Holds(inner[item.key := if item.key in inner then inner[item.key].Plus(item.meter) else item.meter],
                  h + [Added(s, item)], s)
  {
    var a := Added(s, item);
    var inner' := inner[item.key := if item.key in inner then inner[item.key].Plus(item.meter) else item.meter];
    forall k
      ensures HoldsKey(inner', h + [a], s, k)
    {
      assert HoldsKey(inner, h, s, k);
      AddedAppend(h, a, s, k);
      if !Present(h, s, k) { AbsentSum(h, s, k); }
    }
    forall i | 0 <= i < |docs|
      ensures Present(h + [a], docs[i].timestamp, docs[i].key)
              && AddsUp(docs[i].meter, h + [a], docs[i].timestamp, docs[i].key)
    {
      AddedAppend(h, a, docs[i].timestamp, docs[i].key);
    }
  }

  lemma NothingHeld(h: seq<Added>, s: nat)
    requires forall i :: 0 <= i < |h| ==> h[i].timestamp < s
    ensures Holds(map[], h, s)
  {
    forall k
      ensures HoldsKey(map[], h, s, k)
    {
    }
  }

  // ----- Batches -----

  function Flatten(bs: seq<seq<Document>>): seq<Document>
  {
    if bs == [] then [] else Flatten(bs[..|bs| - 1]) + bs[|bs| - 1]
  }

  /** The batching loop of flush_stats: accepts is the number of sends the queue still takes
      before it is terminated. What is delivered is a prefix of the documents, in batches of
      at most 1024, and all of them unless the queue is terminated. */
  method SendInBatches(docs: seq<Document>, accepts: nat) returns (delivered: seq<seq<Document>>, complete: bool)
    ensures Flatten(delivered) <= docs && |delivered| <= accepts
    ensures forall i :: 0 <= i < |delivered| ==> |delivered[i]| <= QUEUE_BATCH_SIZE
    ensures complete ==> Flatten(delivered) == docs
    ensures !complete ==> |delivered| == accepts
    ensures accepts > |docs| / QUEUE_BATCH_SIZE ==> complete
  {
    delivered := [];
    var entries := docs;
    var index := 0;
    var length := |docs|;
    while index + QUEUE_BATCH_SIZE < length
      invariant index + |entries| == length && entries == docs[index..] && Flatten(delivered) == docs[..index]
      invariant index == QUEUE_BATCH_SIZE * |delivered| && |delivered| <= accepts
      invariant forall i :: 0 <= i < |delivered| ==> |delivered[i]| <= QUEUE_BATCH_SIZE
    {
      var v := entries[..QUEUE_BATCH_SIZE];
      entries := entries[QUEUE_BATCH_SIZE..];
      if |delivered| == accepts { return delivered, false; }
      assert (delivered + [v])[..|delivered|] == delivered;
      assert docs[..index] + v == docs[..index + QUEUE_BATCH_SIZE];
      delivered := delivered + [v];
      index := index + QUEUE_BATCH_SIZE;
    }
    if |delivered| == accepts { return delivered, false; }
    assert (delivered + [entries])[..|delivered|] == delivered;
    delivered := delivered + [entries];
    assert docs[..index] + docs[index..] == docs;
    return delivered, true;
  }

  /** The flush of a map: the entries in any order, stamped. */
  method Drain(inner: Inner, timestamp: nat) returns (docs: seq<Document>)
    ensures Drains(docs, inner, inner.Keys, timestamp)
  {
    docs := [];
    var left := inner.Keys;
    while left != {}
      invariant left <= inner.Keys && Drains(docs, inner, inner.Keys - left, timestamp)
      decreases |left|
    {
      var k :| k in left;
      DrainOne(docs, inner, inner.Keys - left, timestamp, k);
      assert inner.Keys - (left - {k}) == inner.Keys - left + {k};
      docs := docs + [Document(timestamp, k, inner[k])];
      left := left - {k};
    }
    assert inner.Keys - {} == inner.Keys;
  }

  lemma DrainOne(docs: seq<Document>, inner: Inner, keys: set<StashKey>, timestamp: nat, k: StashKey)
    requires Drains(docs, inner, keys, timestamp) && k in inner && k !in keys
    ensures Drains(docs + [Document(timestamp, k, inner[k])], inner, keys + {k}, timestamp)
  {
    var all := docs + [Document(timestamp, k, inner[k])];
    forall x | x in keys + {k}
      ensures Documented(all, timestamp, x)
    {
      if x in keys {
        assert Documented(docs, timestamp, x);
        var i :| 0 <= i < |docs| && docs[i].timestamp == timestamp && docs[i].key == x;
        assert all[i].timestamp == timestamp && all[i].key == x;
      } else {
        assert all[|docs|].timestamp == timestamp && all[|docs|].key == x;
      }
    }
  }

  lemma {:induction false} FlattenConcat(a: seq<seq<Document>>, b: seq<seq<Document>>)
    ensures Flatten(a + b) == Flatten(a) + Flatten(b)
  {
    if b == [] {
      assert a + b == a;
    } else {
      FlattenConcat(a, b[..|b| - 1]);
      assert (a + b)[..|a + b| - 1] == a + b[..|b| - 1];
    }
  }

  /** A time rounded down to the start of its slot. */
  function Floor(kind: MetricsType, t: nat): nat { kind.Seconds(kind.Slots(t)) }

  /** A tick stands for an earlier time: the delay is taken off, except for one minute of it
      in the minutes collector. */
  function TickTime(kind: MetricsType, delay: nat, t: nat): nat
    requires kind.Minute? ==> delay >= MINUTE
  {
    if t >= delay then (if kind.Second? then t - delay else t - (delay - MINUTE)) else t
  }

  /** The queue has taken a prefix of the documents in batches of at most 1024, and all of
      them unless it was terminated. */
  ghost predicate Delivers(batches: seq<seq<Document>>, docs: seq<Document>, capacity: nat)
  {
    && Flatten(batches) <= docs && (forall i :: 0 <= i < |batches| ==> |batches[i]| <= QUEUE_BATCH_SIZE)
    && |batches| <= capacity && (Flatten(batches) == docs || |batches| == capacity)
  }

  lemma DeliverMore(batches: seq<seq<Document>>, docs: seq<Document>, capacity: nat,
                    delivered: seq<seq<Document>>, entries: seq<Document>, complete: bool)
    requires Delivers(batches, docs, capacity) && Flatten(delivered) <= entries && |delivered| <= capacity - |batches|
    requires forall i :: 0 <= i < |delivered| ==> |delivered[i]| <= QUEUE_BATCH_SIZE
    requires if complete then Flatten(delivered) == entries else |delivered| == capacity - |batches|
    ensures Delivers(batches + delivered, docs + entries, capacity)
    ensures complete && |batches| < capacity ==> Flatten(batches + delivered) == docs + entries
  {
    FlattenConcat(batches, delivered);
    if |batches| == capacity {
      assert delivered == [] && Flatten(batches) <= docs <= docs + entries;
    }
  }

  class Stash {
    const kind: MetricsType
    const delay: nat
    /** Start of the current slot, in seconds. */
    var startTime: nat
    var inner: Inner
    /** How many batches the queue takes before it is terminated, and those it took. */
    const capacity: nat
    var batches: seq<seq<Document>>
    var dropBeforeWindow: nat

    /** Everything added so far, and every document drained so far. */
    ghost var added: seq<Added>
    ghost var docs: seq<Document>

    ghost predicate Delivered()
      reads this
    {
      Delivers(batches, docs, capacity)
    }

    ghost predicate Valid()
      reads this
    {
      && (kind.Minute? ==> MINUTE <= delay < 2 * MINUTE)
      && Floor(kind, startTime) == startTime
      && Holds(inner, added, startTime) && Documents(docs, added, startTime)
      && UpTo(added, startTime) && Delivered()
    }

    constructor (kind: MetricsType, delay: nat, slot: nat, capacity: nat)
      requires kind.Minute? ==> MINUTE <= delay < 2 * MINUTE
      ensures Valid() && this.kind == kind && this.delay == delay && startTime == kind.Seconds(slot) && added == []
              && docs == []
      ensures dropBeforeWindow == 0 && this.capacity == capacity
    {
      this.kind, this.delay, this.capacity := kind, delay, capacity;
      startTime, inner, batches, dropBeforeWindow := kind.Seconds(slot), map[], [], 0;
      added, docs := [], [];
      new;
      NothingHeld([], startTime);
    }

    /** flush_stats. */
    method FlushStats() returns (ghost more: seq<Document>)
      requires Delivered()
      modifies this`inner, this`batches, this`docs
      ensures Delivered() && inner == map[]
      ensures docs == old(docs) + more && Drains(more, old(inner), old(inner).Keys, startTime)
      ensures capacity - |old(batches)| > |old(inner)| / QUEUE_BATCH_SIZE ==> Flatten(batches) == docs
    {
      var entries := Drain(inner, startTime);
      DrainSize(entries, inner, startTime);
      inner := map[];
      var delivered, complete := SendInBatches(entries, capacity - |batches|);
      DeliverMore(batches, docs, capacity, delivered, entries, complete);
      batches := batches + delivered;
      docs := docs + entries;
      more := entries;
    }

    /** The window moves on to a later slot. */
    method MoveTo(time: nat)
      requires Valid() && time > startTime && Floor(kind, time) == time
      modifies this`inner, this`batches, this`docs, this`startTime
      ensures Valid() && startTime == time && old(docs) <= docs
    {
      hide Documents, Holds, Delivers, Drains;
      ghost var sent, h, start, held := docs, added, startTime, inner;
      ghost var more := FlushStats();
      startTime := time;
      assert Documents(sent + more, h, time) by { DocumentSlot(sent, h, start, time, held, more); }
      assert Holds(map[], h, time) by { NothingHeld(h, time); }
    }

    /** The flush at the end. */
    method Finish()
      requires Valid()
      modifies this`inner, this`batches, this`docs
      ensures inner == map[] && Documents(docs, added, startTime + 1) && Delivered()
      ensures forall a :: a in added ==> a.timestamp < startTime + 1
    {
      hide Documents, Holds, Delivers, Drains;
      ghost var sent, held := docs, inner;
      ghost var more := FlushStats();
      DocumentSlot(sent, added, startTime, startTime + 1, held, more);
    }

    method Add(item: Item)
      requires Valid()
      modifies this`inner, this`added
      ensures Valid() && added == old(added) + [Added(startTime, item)]
    {
      hide Documents, Holds, UpTo, Delivers;
      AddKeeps(docs, inner, added, startTime, item);
      added := added + [Added(startTime, item)];
      inner := inner[item.key := if item.key in inner then inner[item.key].Plus(item.meter) else item.meter];
    }

    /** collect: items is what the record of a flow adds, None for a tick. */
    method Collect(items: Option<seq<Item>>, t: nat)
      requires Valid()
      modifies this
      ensures Valid() && startTime >= old(startTime) && old(docs) <= docs
      ensures t < old(startTime) ==>
        dropBeforeWindow == old(dropBeforeWindow) + 1 && added == old(added) && startTime == old(startTime)
      ensures t >= old(startTime) ==> dropBeforeWindow == old(dropBeforeWindow)
      ensures t >= old(startTime) && items.Some? ==>
        startTime == Floor(kind, t) && added == old(added) + AllAt(startTime, items.value)
      ensures t >= old(startTime) && items.None? ==> added == old(added)
      ensures t >= old(startTime) && items.None? ==>
        var tick := Floor(kind, TickTime(kind, delay, t));
        startTime == if tick > old(startTime) then tick else old(startTime)
    {
      hide Documents, Holds, UpTo, Delivers, AllAt, Floor, TickTime;
      if t < startTime {
        dropBeforeWindow := dropBeforeWindow + 1;
        return;
      }
      var time := Floor(kind, if items.None? then TickTime(kind, delay, t) else t);
      FloorOfStart(kind, startTime, t);
      FloorTwice(kind, if items.None? then TickTime(kind, delay, t) else t);
      if time > startTime { MoveTo(time); }
      if items.Some? { AddAll(items.value); }
    }

    method AddAll(items: seq<Item>)
      requires Valid()
      modifies this`inner, this`added
      ensures Valid() && added == old(added) + AllAt(startTime, items)
    {
      hide Documents, Holds, UpTo, Delivers;
      for i := 0 to |items|
        invariant Valid() && added == old(added) + AllAt(startTime, items[..i])
      {
        AllAtStep(startTime, items, i);
        Add(items[i]);
      }
      assert items[..|items|] == items;
    }
  }

  lemma DrainSize(docs: seq<Document>, inner: Inner, timestamp: nat)
    requires Drains(docs, inner, inner.Keys, timestamp)
    ensures |docs| == |inner|
  {
    var keys := set i | 0 <= i < |docs| :: docs[i].key;
    assert keys == inner.Keys by {
      forall k | k in inner.Keys
        ensures k in keys
      {
        assert Documented(docs, timestamp, k);
      }
    }
    KeyCount(docs, keys);
  }

  lemma {:induction false} KeyCount(docs: seq<Document>, keys: set<StashKey>)
    requires keys == (set i | 0 <= i < |docs| :: docs[i].key)
    requires forall i, j :: 0 <= i < j < |docs| ==> docs[i].key != docs[j].key
    ensures |keys| == |docs|
    decreases |docs|
  {
    if docs != [] {
      var front, last := docs[..|docs| - 1], docs[|docs| - 1];
      var rest := set i | 0 <= i < |front| :: front[i].key;
      KeyCount(front, rest);
      assert keys == rest + {last.key};
    } else {
      assert keys == {};
    }
  }

  lemma FloorTwice(kind: MetricsType, t: nat)
    ensures Floor(kind, Floor(kind, t)) == Floor(kind, t)
  {
  }

  lemma FloorOfSlot(kind: MetricsType, slot: nat)
    ensures Floor(kind, kind.Seconds(slot)) == kind.Seconds(slot)
  {
  }

  /** A slot start at or before a time is at or before the start of the slot of that time. */
  lemma FloorOfStart(kind: MetricsType, start: nat, t: nat)
    requires Floor(kind, start) == start
    ensures start <= t <==> start <= Floor(kind, t)
  {
  }

  function AllAt(timestamp: nat, items: seq<Item>): seq<Added>
  {
    if items == [] then [] else AllAt(timestamp, items[..|items| - 1]) + [Added(timestamp, items[|items| - 1])]
  }

  lemma AllAtStep(timestamp: nat, items: seq<Item>, i: nat)
    requires i < |items|
    ensures AllAt(timestamp, items[..i + 1]) == AllAt(timestamp, items[..i]) + [Added(timestamp, items[i])]
  {
    assert items[..i + 1][..i] == items[..i];
  }

  // ----- Whole runs -----

  /** What the items of a record add, at the time of its first flow; or a tick of the clock. */
  datatype Input = Record(items: seq<Item>, t: nat) | Tick(t: nat)

  /** The start of the window after an input. */
  function StartAfter(kind: MetricsType, delay: nat, start: nat, e: Input): nat
    requires kind.Minute? ==> delay >= MINUTE
  {
    if e.t < start then start
    else
      var time := Floor(kind, if e.Tick? then TickTime(kind, delay, e.t) else e.t);
      if time > start then time else start
  }

  /** What a tick leaves open before its time: the delay, less a minute of it in the minutes collector; nothing
      until a whole delay has passed since time zero. */
  function LeftOpen(kind: MetricsType, delay: nat, t: nat): int
  {
    if t < delay then 0 else if kind.Second? then delay else delay - MINUTE
  }

  /** A tick moves the window to the last slot that starts no later than that, and never back. */
  lemma TickMoves(kind: MetricsType, delay: nat, start: nat, t: nat, b: nat)
    requires (kind.Minute? ==> delay >= MINUTE) && Floor(kind, start) == start <= t
    ensures var after := StartAfter(kind, delay, start, Input.Tick(t));
            && Floor(kind, after) == after && start <= after
            && (after > start ==> after + LeftOpen(kind, delay, t) <= t)
            && (kind.Seconds(b) + LeftOpen(kind, delay, t) <= t ==> kind.Seconds(b) <= after)
  {
  }

  /** A record moves the window to the slot of its time. */
  lemma RecordMoves(kind: MetricsType, delay: nat, start: nat, items: seq<Item>, t: nat)
    requires (kind.Minute? ==> delay >= MINUTE) && Floor(kind, start) == start <= t
    ensures var after := StartAfter(kind, delay, start, Record(items, t));
            after <= t < after + kind.Seconds(1) && Floor(kind, after) == after
  {
  }

  /** A generator that sees the time of a tick keeps no slot open that the collector has left, so that what it
      still sends is not late, exactly if a whole delay has passed since time zero or the time is in the first
      slot of the window. */
  lemma TickBehindGenerator(kind: MetricsType, slots: nat, delay: nat, base: nat, t: nat)
    requires Config(kind, slots, delay) && kind.Seconds(base) <= t
    ensures StartAfter(kind, delay, kind.Seconds(base), Input.Tick(t)) <= NextWindow(kind.Seconds(base), t, kind, delay)
       <==> t >= delay || kind.Slots(t) == base
  {
  }

  function StartAt(kind: MetricsType, delay: nat, start: nat, es: seq<Input>): nat
    requires kind.Minute? ==> delay >= MINUTE
  {
    if es == [] then start else StartAfter(kind, delay, StartAt(kind, delay, start, es[..|es| - 1]), es[|es| - 1])
  }

  /** A time is not late after a run: it is not before the first slot, no record was of a later slot, and no tick
      left its slot behind. */
  predicate NotLate(kind: MetricsType, delay: nat, start: nat, es: seq<Input>, t: nat)
  {
    start <= t &&
    forall i :: 0 <= i < |es| ==>
      es[i].t < kind.Seconds(kind.Slots(t) + 1) + if es[i].Tick? then LeftOpen(kind, delay, es[i].t) else 0
  }

  /** The window after a run starts with the first slot whose times are not late. */
  lemma {:induction false} StartAtIff(kind: MetricsType, delay: nat, start: nat, es: seq<Input>, t: nat)
    requires (kind.Minute? ==> delay >= MINUTE) && Floor(kind, start) == start
    ensures var s := StartAt(kind, delay, start, es);
            Floor(kind, s) == s && (t >= s <==> NotLate(kind, delay, start, es, t))
  {
    hide StartAfter, LeftOpen, Floor;
    if es != [] {
      var front, e := es[..|es| - 1], es[|es| - 1];
      StartAtIff(kind, delay, start, front, t);
      StartStep(kind, delay, StartAt(kind, delay, start, front), e, t);
    }
  }

  lemma StartStep(kind: MetricsType, delay: nat, start: nat, e: Input, t: nat)
    requires (kind.Minute? ==> delay >= MINUTE) && Floor(kind, start) == start
    ensures var after, open := StartAfter(kind, delay, start, e), if e.Tick? then LeftOpen(kind, delay, e.t) else 0;
            && Floor(kind, after) == after
            && (t >= after <==> t >= start && e.t < kind.Seconds(kind.Slots(t) + 1) + open)
  {
  }

  /** Everything that the records of a run add: those not late when they come, each in the slot of its time. */
  function AddedBy(kind: MetricsType, delay: nat, start: nat, es: seq<Input>): seq<Added>
    requires kind.Minute? ==> delay >= MINUTE
  {
    if es == [] then []
    else
      var front, e := es[..|es| - 1], es[|es| - 1];
      AddedBy(kind, delay, start, front)
      + if e.Record? && NotLate(kind, delay, start, front, e.t) then AllAt(Floor(kind, e.t), e.items) else []
  }

  /** How many inputs of a run are late. */
  function DroppedBy(kind: MetricsType, delay: nat, start: nat, es: seq<Input>): nat
    requires kind.Minute? ==> delay >= MINUTE
  {
    if es == [] then 0
    else
      var front, e := es[..|es| - 1], es[|es| - 1];
      DroppedBy(kind, delay, start, front) + if NotLate(kind, delay, start, front, e.t) then 0 else 1
  }

  lemma RunStep(kind: MetricsType, delay: nat, start: nat, es: seq<Input>, i: nat)
    requires (kind.Minute? ==> delay >= MINUTE) && Floor(kind, start) == start && i < |es|
    ensures StartAt(kind, delay, start, es[..i + 1])
         == StartAfter(kind, delay, StartAt(kind, delay, start, es[..i]), es[i])
    ensures AddedBy(kind, delay, start, es[..i + 1])
         == AddedBy(kind, delay, start, es[..i])
            + if es[i].Record? && es[i].t >= StartAt(kind, delay, start, es[..i])
              then AllAt(Floor(kind, es[i].t), es[i].items) else []
    ensures DroppedBy(kind, delay, start, es[..i + 1])
         == DroppedBy(kind, delay, start, es[..i]) + if es[i].t < StartAt(kind, delay, start, es[..i]) then 1 else 0
  {
    hide NotLate, Floor, StartAfter;
    assert es[..i + 1][..i] == es[..i];
    StartAtIff(kind, delay, start, es[..i], es[i].t);
  }

  /** A collector fed records and ticks in any order and flushed at the end: one document for each slot and
      key that something was added to, with the sum of it, in batches of at most 1024; and as many drops
      as inputs came late. */
  method Run(kind: MetricsType, delay: nat, slot: nat, capacity: nat, es: seq<Input>)
    returns (batches: seq<seq<Document>>, ghost docs: seq<Document>, ghost end: nat, dropped: nat)
    requires kind.Minute? ==> MINUTE <= delay < 2 * MINUTE
    ensures end == StartAt(kind, delay, kind.Seconds(slot), es) + 1
    ensures Documents(docs, AddedBy(kind, delay, kind.Seconds(slot), es), end)
    ensures forall a :: a in AddedBy(kind, delay, kind.Seconds(slot), es) ==> a.timestamp < end
    ensures Delivers(batches, docs, capacity)
    ensures dropped == DroppedBy(kind, delay, kind.Seconds(slot), es)
  {
    hide Documents, Holds, UpTo, Delivers, AllAt, Floor, TickTime;
    var stash := new Stash(kind, delay, slot, capacity);
    ghost var start := kind.Seconds(slot);
    assert Floor(kind, start) == start by { FloorOfSlot(kind, slot); }
    for i := 0 to |es|
      invariant stash.Valid() && fresh(stash) && stash.kind == kind && stash.delay == delay
                && stash.capacity == capacity
      invariant stash.startTime == StartAt(kind, delay, start, es[..i])
      invariant stash.added == AddedBy(kind, delay, start, es[..i])
      invariant stash.dropBeforeWindow == DroppedBy(kind, delay, start, es[..i])
    {
      RunStep(kind, delay, start, es, i);
      FloorOfStart(kind, stash.startTime, es[i].t);
      stash.Collect(if es[i].Record? then Some(es[i].items) else None, es[i].t);
    }
    assert es[..|es|] == es;
    stash.Finish();
    end := stash.startTime + 1;
    docs, batches, dropped := stash.docs, stash.batches, stash.dropBeforeWindow;
  }
}
