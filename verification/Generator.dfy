/** SubQuadGen: the ring of QuadGen as an object that is updated in place. */
module Generator {
  import opened Wrappers
  import opened FlowHistory
  import opened Connections
  import opened QuadGen
  import opened Timeouts
  import opened FinalFlush

  /** Slots of one second or of one minute. */
  datatype MetricsType = Second | Minute {
    /** x / slot_interval. */
    function Slots(x: nat): nat { if Second? then x else x / 60 }

    /** slot_interval * x. */
    function Seconds(x: nat): nat { if Second? then x else 60 * x }
  }

  /** The two generators that are built: as many second slots as seconds of delay, or two
      minute slots and a delay of at least one minute and less than two. */
  predicate Config(kind: MetricsType, slots: nat, delay: nat)
  {
    match kind
    case Second => delay == slots
    case Minute => slots == 2 && 60 <= delay < 120
  }

  /** The window has to move, but with a single slot the counters have no next one to be merged into:
      the source panics. */
  predicate Stuck(start: nat, secs: nat, slots: nat, delay: nat)
  {
    slots == 1 && start + delay <= secs
  }

  /** The window start after a time has been seen. */
  function NextWindow(start: nat, secs: nat, kind: MetricsType, delay: nat): nat
  {
    if secs < start + delay then start else start + kind.Seconds(kind.Slots(secs - start - delay) + 1)
  }

  /** One move brings the time into the window: not before it, and before its delay. */
  lemma WindowMoved(start: nat, secs: nat, kind: MetricsType, slots: nat, delay: nat)
    requires Config(kind, slots, delay) && start + delay <= secs && slots > 0
    ensures start < NextWindow(start, secs, kind, delay) <= secs < NextWindow(start, secs, kind, delay) + delay
  {
  }

  /** The window moves no further than it must: no earlier slot start has the time within its delay. */
  lemma WindowNoFurther(base: nat, secs: nat, kind: MetricsType, delay: nat, b: nat)
    requires base <= b && kind.Seconds(base) <= secs < kind.Seconds(b) + delay
    ensures NextWindow(kind.Seconds(base), secs, kind, delay) <= kind.Seconds(b)
  {
  }

  /** A time inside the window falls in one of its slots, and the slot inside the window
      tells the slot counted from time zero. */
  lemma SlotInWindow(base: nat, secs: nat, kind: MetricsType, slots: nat, delay: nat)
    requires Config(kind, slots, delay) && kind.Seconds(base) <= secs < kind.Seconds(base) + delay
    ensures kind.Slots(secs - kind.Seconds(base)) < slots
    ensures kind.Slots(secs) == base + kind.Slots(secs - kind.Seconds(base))
  {
  }

  /** set_connection over some of the records of a stash, in any order: each record is
      given its load, and the counter it comes from is touched. */
  method EmitAll(stash: QuadrupleStash, keys: set<QgKey>, c: ConnMap) returns (batch: seq<AccFlow>, touched: ConnMap)
    requires forall k :: k in keys ==> k in stash && stash[k].key == k
    ensures Lists(batch, stash, keys, c) && SameCounts(c, touched) && Refreshed(c, touched, stash, keys)
  {
    batch, touched := [], c;
    var left := keys;
    while left != {}
      invariant left <= keys && SameCounts(c, touched) && Refreshed(c, touched, stash, keys - left)
      invariant Lists(batch, stash, keys - left, c)
      decreases |left|
    {
      var k :| k in left;
      var acc := stash[k];
      TouchedAlike(c, touched, acc);
      RefreshOne(c, touched, stash, keys - left, k);
      ListsOne(batch, stash, keys - left, c, k);
      assert keys - (left - {k}) == keys - left + {k};
      batch := batch + [Emitted(acc, touched)];
      if acc.first.tcpOrUdp {
        touched := Touch(touched, acc.time, k);
      }
      left := left - {k};
    }
    assert keys - {} == keys;
  }

  lemma TouchedAlike(c: ConnMap, touched: ConnMap, acc: AccFlow)
    requires SameCounts(c, touched)
    ensures Emitted(acc, touched) == Emitted(acc, c)
    ensures SameCounts(c, Touch(touched, acc.time, acc.key))
  {
  }

  lemma ListsOne(batch: seq<AccFlow>, stash: QuadrupleStash, keys: set<QgKey>, c: ConnMap, k: QgKey)
    requires Lists(batch, stash, keys, c) && k !in keys && k in stash && stash[k].key == k
    ensures Lists(batch + [Emitted(stash[k], c)], stash, keys + {k}, c)
  {
    var acc := Emitted(stash[k], c);
    assert Lists([acc], stash, {k}, c) by {
      assert [acc][0].key == k;
    }
    ListsBoth(batch, [acc], stash, keys, {k}, c);
  }

  /** The records of a stash, those of the one address family before those of the other. */
  method EmitStash(stash: QuadrupleStash, c: ConnMap) returns (batch: seq<AccFlow>, touched: ConnMap)
    requires forall k :: k in stash ==> stash[k].key == k
    ensures Lists(batch, stash, stash.Keys, c) && SameCounts(c, touched) && Refreshed(c, touched, stash, stash.Keys)
  {
    var v4 := set k | k in stash && k.V4?;
    var v6 := set k | k in stash && k.V6?;
    var batch4, touched4 := EmitAll(stash, v4, c);
    var batch6, touched6 := EmitAll(stash, v6, touched4);
    SameLists(batch6, stash, v6, touched4, c);
    ListsBoth(batch4, batch6, stash, v4, v6, c);
    RefreshBoth(c, touched4, touched6, stash, v4, v6);
    assert v4 + v6 == stash.Keys;
    batch, touched := batch4 + batch6, touched6;
  }

  /** Swapping a stash with a new one at the back leaves the new one in its place. */
  lemma SwappedOut(stashs: seq<QuadrupleStash>, i: nat)
    requires i < |stashs|
    ensures var more := stashs + [map[]]; more[i := more[|more| - 1]][..|more| - 1] == stashs[i := map[]]
  {
  }

  /** Each flow was put in the slot of its time. */
  ghost predicate InSlots(h: History, kind: MetricsType)
  {
    forall p :: p in h ==> p.slot == kind.Slots(Secs(p.flow.time))
  }

  lemma InSlotsAppend(h: History, kind: MetricsType, p: Placed)
    requires InSlots(h, kind) && p.slot == kind.Slots(Secs(p.flow.time))
    ensures InSlots(h + [p], kind)
  {
  }

  class SubQuadGen {
    const kind: MetricsType
    const slots: nat
    const delay: nat
    /** Start of the window, in seconds. */
    var windowStart: nat
    var stashs: seq<QuadrupleStash>
    var connections: seq<ConnMap>
    /** What has been sent to the collector. */
    var output: seq<AccFlow>

    /** Number of the slot at the window start. */
    ghost var base: nat
    /** The slot of each record sent. */
    ghost var slotOf: seq<nat>
    /** The flows accepted so far. */
    ghost var history: History
    /** Every slot so far was passed on in time. */
    ghost var inTime: bool

    ghost predicate At(i: nat)
      reads this
    {
      Wheel(stashs, connections, output, slotOf, history, inTime, slots, base, i)
    }

    /** Nothing sent is taken back. */
    twostate predicate Extends()
      reads this
    {
      old(output) <= output && old(slotOf) <= slotOf
    }

    ghost predicate Valid()
      reads this
    {
      Config(kind, slots, delay) && windowStart == kind.Seconds(base) && At(0) && InSlots(history, kind)
    }

    constructor (kind: MetricsType, slots: nat, delay: nat, start: nat)
      requires Config(kind, slots, delay)
      ensures this.kind == kind && this.slots == slots && this.delay == delay
      ensures Valid() && base == start && history == [] && output == [] && inTime
    {
      this.kind, this.slots, this.delay := kind, slots, delay;
      windowStart := kind.Seconds(start);
      stashs := seq(slots, _ => map[]);
      connections := seq(slots, _ => map[]);
      output := [];
      base, slotOf, history, inTime := start, [], [], true;
      new;
      forall j | 0 <= j < slots
        ensures Stashes(stashs[j], history, base + j) && CountsSlot(connections[j], history, base + j, false)
      {
        EmptySlot(history, base + j);
      }
      EmptyHistoryCounts(base);
    }

    /** flush_flow: the stash is swapped for an empty one and its records are sent. */
    method FlushFlow(i: nat, c: ConnMap) returns (touched: ConnMap, ghost batch: seq<AccFlow>)
      requires i < |stashs| && forall k :: k in stashs[i] ==> stashs[i][k].key == k
      modifies this`stashs, this`output
      ensures stashs == old(stashs)[i := map[]] && output == old(output) + batch
      ensures Lists(batch, old(stashs)[i], old(stashs)[i].Keys, c) && SameCounts(c, touched)
      ensures Refreshed(c, touched, old(stashs)[i], old(stashs)[i].Keys)
    {
      SwappedOut(stashs, i);
      var stash := stashs[i];
      var more := stashs + [map[]];
      stashs := more[i := more[|more| - 1]][..|more| - 1];
      var records, refreshed := EmitStash(stash, c);
      output := output + records;
      touched, batch := refreshed, records;
    }

    /** The body of the loops of move_window. */
    method ShiftOne(i: nat, t: Duration)
      requires At(i) && i < slots && slots >= 2
      modifies this`stashs, this`connections, this`output, this`slotOf, this`inTime
      ensures At(i + 1) && Extends()
      ensures old(inTime) && InTime(history, base + i, t) ==> inTime
    {
      hide Wheel;
      hide InTime;
      ghost var st, cs, out, so, h, n, b, l := stashs, connections, output, slotOf, history, slots, base, inTime;
      WheelShape(st, cs, out, so, h, l, n, b, i);
      StashKeys(st[i], h, b + i);
      var front := connections[0];
      connections := connections[1..];
      var touched, batch := FlushFlow(i, front);
      var merged := Merge(connections[0], t, touched);
      connections := connections[0 := merged];
      connections := connections + [map[]];
      slotOf := so + Repeat(b + i, |batch|);
      inTime := l && InTime(h, b + i, t);
      assert Wheel(st[i := map[]], [merged] + cs[2..] + [map[]], out + batch, so + Repeat(b + i, |batch|), h,
                   l && InTime(h, b + i, t), n, b, i + 1) by {
        WheelStep(st, cs, out, so, h, l, n, b, i, batch, touched, t, merged);
      }
      MovedOn(cs, merged);
    }

    method ShiftMany(count: nat, t: Duration)
      requires At(0) && count <= slots && slots != 1
      modifies this`stashs, this`connections, this`output, this`slotOf, this`inTime
      ensures At(count) && Extends() && (old(inTime) && AllInTime(history, base, count, t) ==> inTime)
    {
      hide Wheel;
      hide InTime;
      for i := 0 to count
        invariant At(i) && Extends() && (old(inTime) && AllInTime(history, base, i, t) ==> inTime)
      {
        ShiftOne(i, t);
      }
    }

    /** A shift past the whole window: every stash is sent. */
    method Jump(shift: nat, t: Duration)
      requires At(0) && shift >= slots && slots != 1
      modifies this`stashs, this`connections, this`output, this`slotOf, this`inTime, this`base
      ensures At(0) && Extends() && base == old(base) + shift
      ensures old(inTime) && AllInTime(history, old(base), slots, t) ==> inTime
    {
      hide Wheel;
      hide AllInTime;
      ShiftMany(slots, t);
      WheelJump(stashs, connections, output, slotOf, history, inTime, slots, base, shift);
      base := base + shift;
    }

    /** A shift inside the window: the stashes sent go to its end. */
    method Rotate(shift: nat, t: Duration)
      requires At(0) && shift < slots && slots >= 2
      modifies this`stashs, this`connections, this`output, this`slotOf, this`inTime, this`base
      ensures At(0) && Extends() && base == old(base) + shift
      ensures old(inTime) && AllInTime(history, old(base), shift, t) ==> inTime
    {
      hide Wheel;
      hide AllInTime;
      ShiftMany(shift, t);
      WheelShape(stashs, connections, output, slotOf, history, inTime, slots, base, shift);
      WheelRotate(stashs, connections, output, slotOf, history, inTime, slots, base, shift);
      stashs := stashs[shift..] + stashs[..shift];
      base := base + shift;
    }

    /** One turn of the outer loop of move_window. */
    method Advance(t: Duration)
      requires Valid() && Secs(t) >= windowStart + delay && slots != 1
      modifies this`windowStart, this`stashs, this`connections, this`output, this`slotOf, this`inTime, this`base
      ensures Valid() && Extends() && windowStart == NextWindow(old(windowStart), Secs(t), kind, delay)
      ensures old(inTime) && PassedInTime(history, old(base), old(windowStart), t, kind, slots, delay) ==> inTime
    {
      hide Wheel;
      hide AllInTime;
      var shift := kind.Slots(Secs(t) - windowStart - delay) + 1;
      assert windowStart + kind.Seconds(shift) == NextWindow(windowStart, Secs(t), kind, delay);
      assert kind.Seconds(base + shift) == kind.Seconds(base) + kind.Seconds(shift);
      if shift >= slots {
        Jump(shift, t);
      } else {
        Rotate(shift, t);
      }
      windowStart := windowStart + kind.Seconds(shift);
    }

    /** move_window: Some(false) if the time lies before the window, None where the source panics. The window
        moves at most once. */
    method MoveWindow(t: Duration) returns (accepted: Option<bool>)
      requires Valid()
      modifies this`windowStart, this`stashs, this`connections, this`output, this`slotOf, this`inTime, this`base
      ensures Valid() && Extends() && (accepted.None? <==> Stuck(old(windowStart), Secs(t), slots, delay))
      ensures accepted.Some? ==> accepted.value == (Secs(t) >= old(windowStart))
      ensures accepted == Some(true) ==> windowStart == NextWindow(old(windowStart), Secs(t), kind, delay)
      ensures accepted == Some(true) && slots > 0 ==> old(windowStart) <= windowStart <= Secs(t) < windowStart + delay
      ensures accepted == Some(true) ==>
        forall b: nat :: old(base) <= b && Secs(t) < kind.Seconds(b) + delay ==> windowStart <= kind.Seconds(b)
      ensures accepted != Some(true) ==> unchanged(this)
      ensures accepted == Some(true) && old(inTime) ==>
        (PassedInTime(history, old(base), old(windowStart), t, kind, slots, delay) ==> inTime)
    {
      hide Wheel;
      hide PassedInTime;
      if Secs(t) < windowStart { return Some(false); }
      ghost var turns := 0;
      while Secs(t) >= windowStart + delay
        invariant Valid() && Extends() && turns <= 1 && (turns == 0 ==> unchanged(this)) && (turns == 1 ==> slots != 1)
        invariant turns == 0 ==> windowStart == old(windowStart)
        invariant turns == 1 ==> windowStart == NextWindow(old(windowStart), Secs(t), kind, delay)
        invariant turns == 1 ==> Secs(t) < windowStart + delay
        invariant turns == 1 && slots > 0 ==> old(windowStart) <= windowStart <= Secs(t)
        invariant old(inTime) && turns == 0 ==> inTime
        invariant old(inTime) && PassedInTime(history, old(base), old(windowStart), t, kind, slots, delay) ==> inTime
        invariant turns == 0 ==> base == old(base)
        decreases 1 - turns
      {
        if slots > 0 { WindowMoved(windowStart, Secs(t), kind, slots, delay); }
        WheelShape(stashs, connections, output, slotOf, history, inTime, slots, base, 0);
        if |connections| == 1 { return None; }
        Advance(t);
        turns := turns + 1;
      }
      forall b: nat | old(base) <= b && Secs(t) < kind.Seconds(b) + delay
        ensures windowStart <= kind.Seconds(b)
      {
        WindowNoFurther(old(base), Secs(t), kind, delay, b);
      }
      return Some(true);
    }

    /** handle; false where the source panics. */
    method Handle(e: Event) returns (ok: bool)
      requires Valid()
      modifies this
      ensures Valid() && Extends() && (ok <==> !Fails(e, old(windowStart), slots, delay))
      ensures ok ==> windowStart == if Secs(e.Time()) < old(windowStart) then old(windowStart)
                                    else NextWindow(old(windowStart), Secs(e.Time()), kind, delay)
      ensures ok ==> history == if e.Report? && Secs(e.flow.time) >= old(windowStart)
                                then old(history) + [Placed(kind.Slots(Secs(e.flow.time)), e.flow)] else old(history)
      ensures ok && old(inTime) ==>
        (PassedInTime(old(history), old(base), old(windowStart), e.Time(), kind, slots, delay) ==> inTime)
    {
      hide Wheel;
      hide PassedInTime;
      var accepted := MoveWindow(e.Time());
      if accepted.None? { return false; }
      if e.Report? && accepted.value {
        WheelShape(stashs, connections, output, slotOf, history, inTime, slots, base, 0);
        if |stashs| == 0 { return false; }
        InjectFlow(e.flow);
      }
      return true;
    }

    method Run(es: seq<Event>) returns (ok: bool)
      requires Valid() && history == []
      modifies this
      ensures Valid() && (ok <==> !Sticks(es, old(windowStart), kind, slots, delay))
      ensures ok ==> windowStart == WindowAfter(es, old(windowStart), kind, delay)
      ensures ok ==> history == Accepted(es, old(windowStart), kind, delay)
      ensures ok && old(inTime) && NeverLate(es, old(windowStart), kind, slots, delay) ==> inTime
    {
      hide Wheel, PassedInTime, NeverLate, Accepted, WindowAfter, NextWindow;
      RunStarts(old(windowStart), kind, slots, delay);
      assert es[..0] == [];
      assert kind.Seconds(old(base)) == old(windowStart);
      for i := 0 to |es|
        invariant Valid() && windowStart == WindowAfter(es[..i], old(windowStart), kind, delay)
        invariant forall j :: 0 <= j < i ==> !FailsAt(es, j, old(windowStart), kind, slots, delay)
        invariant history == Accepted(es[..i], old(windowStart), kind, delay)
        invariant old(inTime) && NeverLate(es[..i], old(windowStart), kind, slots, delay) ==> inTime
      {
        RunStep(es, i, old(base), kind, delay);
        NeverLateStep(es, i, old(windowStart), kind, slots, delay);
        SlotsOfSeconds(kind, base);
        var fine := Handle(es[i]);
        if !fine {
          assert FailsAt(es, i, old(windowStart), kind, slots, delay);
          return false;
        }
      }
      assert es[..|es|] == es;
      return true;
    }

    /** flush_all_flow: every stash is sent, slot after slot, with a counter that runs over the slots. */
    method FlushAllFlow()
      requires Valid()
      modifies this`stashs, this`output, this`slotOf
      ensures Reports(output, slotOf, history, base + slots)
      ensures old(output) <= output && old(slotOf) <= slotOf && |stashs| == slots
      ensures forall j :: 0 <= j < slots ==> stashs[j] == map[]
      ensures inTime && Uniform(history) ==> FinallyLoaded(output, slotOf, history, base, |old(output)|)
    {
      hide Wheel, Draining, Uniform, Runs;
      ghost var st, out, so, lossless, first := stashs, output, slotOf, inTime && Uniform(history), |output|;
      WheelDrains(st, connections, out, so, history, inTime, slots, base);
      var tmp: ConnMap := map[];
      RunsFrom(history, base);
      for i := 0 to slots
        invariant Draining(stashs, output, slotOf, history, slots, base, i)
        invariant old(output) <= output && old(slotOf) <= slotOf
        invariant lossless ==> Runs(tmp, history, base, i) && FinallyLoaded(output, slotOf, history, base, first)
      {
        var merged := Merge(tmp, 0, connections[i]);
        if lossless {
          WheelCounts(st, connections, out, so, history, inTime, slots, base, i);
          RunsOn(tmp, connections[i], merged, history, base, i);
        }
        tmp := FlushSlot(i, merged, lossless, first);
      }
      Drained(stashs, output, slotOf, history, slots, base);
    }

    /** One turn of flush_all_flow. */
    method FlushSlot(i: nat, c: ConnMap, ghost lossless: bool, ghost first: nat) returns (touched: ConnMap)
      requires i < slots && Draining(stashs, output, slotOf, history, slots, base, i)
      requires lossless ==> Runs(c, history, base, i + 1) && FinallyLoaded(output, slotOf, history, base, first)
      modifies this`stashs, this`output, this`slotOf
      ensures Draining(stashs, output, slotOf, history, slots, base, i + 1)
      ensures old(output) <= output && old(slotOf) <= slotOf
      ensures lossless ==> Runs(touched, history, base, i + 1) && FinallyLoaded(output, slotOf, history, base, first)
    {
      hide Stashes, Lists, Reports, Runs, FinallyLoaded;
      ghost var st, out, so, h, n, b := stashs, output, slotOf, history, slots, base;
      StashKeys(st[i], h, b + i);
      ghost var batch;
      touched, batch := FlushFlow(i, c);
      slotOf := so + Repeat(b + i, |batch|);
      assert Draining(st[i := map[]], out + batch, so + Repeat(b + i, |batch|), h, n, b, i + 1) by {
        DrainStep(st, out, so, h, n, b, i, batch, c);
      }
      if lossless {
        FlushLoads(out, so, h, b, i, first, batch, st[i], c);
        RunsAlike(c, touched, h, b, i + 1);
      }
    }

    /** inject_flow, for a time inside the window. */
    method InjectFlow(f: Flow)
      requires Valid() && windowStart <= Secs(f.time) < windowStart + delay
      modifies this`stashs, this`connections, this`history
      ensures Valid() && history == old(history) + [Placed(kind.Slots(Secs(f.time)), f)]
    {
      hide Wheel;
      var slot := kind.Slots(Secs(f.time) - windowStart);
      SlotInWindow(base, Secs(f.time), kind, slots, delay);
      ghost var st, cs, h, p := stashs, connections, history, Placed(base + slot, f);
      WheelShape(st, cs, output, slotOf, h, inTime, slots, base, 0);
      var counted, put := CountFlow(connections[slot], f), Put(stashs[slot], f);
      assert Wheel(st[slot := put], cs[slot := counted], output, slotOf, h + [p], inTime, slots, base, 0) by {
        WheelInject(st, cs, output, slotOf, h, inTime, slots, base, slot, f);
      }
      InSlotsAppend(h, kind, p);
      history := h + [p];
      connections := connections[slot := counted];
      stashs := stashs[slot := put];
    }
  }

  // ----- Whole runs -----

  /** A flow report, or a tick of the clock while no report comes in. */
  datatype Event = Tick(now: Duration) | Report(flow: Flow) {
    function Time(): Duration { if Tick? then now else flow.time }
  }

  /** The window start after a run, from the times alone. */
  function WindowAfter(es: seq<Event>, start: nat, kind: MetricsType, delay: nat): nat
  {
    if es == [] then start
    else
      var w, secs := WindowAfter(es[..|es| - 1], start, kind, delay), Secs(es[|es| - 1].Time());
      if secs < w then w else NextWindow(w, secs, kind, delay)
  }

  /** The slot of a time is still open after a run: it is not before the first window, and no time of the run
      was as much as the delay past the slot's start. */
  predicate SlotOpen(es: seq<Event>, secs: nat, start: nat, kind: MetricsType, delay: nat)
  {
    start <= secs && forall i :: 0 <= i < |es| ==> Secs(es[i].Time()) < kind.Seconds(kind.Slots(secs)) + delay
  }

  /** The window after a run starts with the first slot that is still open. */
  lemma {:induction false} WindowAfterIff(es: seq<Event>, base: nat, kind: MetricsType, delay: nat, secs: nat)
    ensures var w := WindowAfter(es, kind.Seconds(base), kind, delay);
            kind.Seconds(kind.Slots(w)) == w && (secs >= w <==> SlotOpen(es, secs, kind.Seconds(base), kind, delay))
  {
    hide NextWindow;
    if es == [] {
      SlotsOfSeconds(kind, base);
    } else {
      var front, last := es[..|es| - 1], Secs(es[|es| - 1].Time());
      WindowAfterIff(front, base, kind, delay, secs);
      WindowStep(kind.Slots(WindowAfter(front, kind.Seconds(base), kind, delay)), last, kind, delay, secs);
      assert SlotOpen(es, secs, kind.Seconds(base), kind, delay)
        <==> SlotOpen(front, secs, kind.Seconds(base), kind, delay) && last < kind.Seconds(kind.Slots(secs)) + delay;
    }
  }

  lemma WindowStep(b: nat, seen: nat, kind: MetricsType, delay: nat, secs: nat)
    ensures var w := kind.Seconds(b);
            var w' := if seen < w then w else NextWindow(w, seen, kind, delay);
            && kind.Seconds(kind.Slots(w')) == w'
            && (secs >= w' <==> secs >= w && seen < kind.Seconds(kind.Slots(secs)) + delay)
  {
  }

  /** The flows of a run that are accepted: those whose slot is still open when they come. */
  function Accepted(es: seq<Event>, start: nat, kind: MetricsType, delay: nat): History
  {
    if es == [] then []
    else
      var front, last := es[..|es| - 1], es[|es| - 1];
      var h := Accepted(front, start, kind, delay);
      if last.Report? && SlotOpen(front, Secs(last.flow.time), start, kind, delay)
      then h + [Placed(kind.Slots(Secs(last.flow.time)), last.flow)] else h
  }

  /** An event on which the source panics: it finds the window stuck, or is a report when there is no slot
      to put it in. */
  predicate Fails(e: Event, start: nat, slots: nat, delay: nat)
  {
    Stuck(start, Secs(e.Time()), slots, delay) || (slots == 0 && e.Report? && Secs(e.flow.time) >= start)
  }

  predicate FailsAt(es: seq<Event>, i: nat, start: nat, kind: MetricsType, slots: nat, delay: nat)
    requires i < |es|
  {
    Fails(es[i], WindowAfter(es[..i], start, kind, delay), slots, delay)
  }

  /** Some event of the run is one of those. */
  ghost predicate Sticks(es: seq<Event>, start: nat, kind: MetricsType, slots: nat, delay: nat)
  {
    exists i: nat :: i < |es| && FailsAt(es, i, start, kind, slots, delay)
  }

  /** An event that the source panics on, from the times alone: with a single slot, one after the first window;
      with none, a report whose slot is still open. */
  predicate PanicsAt(es: seq<Event>, i: nat, start: nat, kind: MetricsType, slots: nat)
    requires i < |es|
  {
    var secs := Secs(es[i].Time());
    if slots == 0 then es[i].Report? && SlotOpen(es[..i], secs, start, kind, 0) else slots == 1 && secs > start
  }

  ghost predicate Panics(es: seq<Event>, start: nat, kind: MetricsType, slots: nat)
  {
    exists i: nat :: i < |es| && PanicsAt(es, i, start, kind, slots)
  }

  /** A time that moves the window, which starts with slot base, finds each slot it passes on in time. */
  ghost predicate PassedInTime(h: History, base: nat, start: nat, t: Duration, kind: MetricsType, slots: nat,
                               delay: nat)
  {
    Secs(t) >= start + delay ==>
      var shift := kind.Slots(Secs(t) - start - delay) + 1;
      AllInTime(h, base, if shift < slots then shift else slots, t)
  }

  /** In the whole run, no key that still has connections goes unseen for more than the timeout. */
  ghost predicate NeverLate(es: seq<Event>, start: nat, kind: MetricsType, slots: nat, delay: nat)
  {
    es == [] ||
    var front, last := es[..|es| - 1], es[|es| - 1];
    var w := WindowAfter(front, start, kind, delay);
    && NeverLate(front, start, kind, slots, delay)
    && PassedInTime(Accepted(front, start, kind, delay), kind.Slots(w), w, last.Time(), kind, slots, delay)
  }

  lemma RunStarts(start: nat, kind: MetricsType, slots: nat, delay: nat)
    ensures WindowAfter([], start, kind, delay) == start && Accepted([], start, kind, delay) == []
    ensures NeverLate([], start, kind, slots, delay)
  {
  }

  lemma RunStep(es: seq<Event>, i: nat, base: nat, kind: MetricsType, delay: nat)
    requires i < |es|
    ensures var start := kind.Seconds(base);
            var w, e, h := WindowAfter(es[..i], start, kind, delay), es[i], Accepted(es[..i], start, kind, delay);
            && WindowAfter(es[..i + 1], start, kind, delay)
               == (if Secs(e.Time()) < w then w else NextWindow(w, Secs(e.Time()), kind, delay))
            && Accepted(es[..i + 1], start, kind, delay)
               == if e.Report? && Secs(e.flow.time) >= w
                  then h + [Placed(kind.Slots(Secs(e.flow.time)), e.flow)] else h
  {
    hide NextWindow, SlotOpen;
    assert es[..i + 1][..i] == es[..i];
    WindowAfterIff(es[..i], base, kind, delay, Secs(es[i].Time()));
  }

  /** The window stays until a time is past it. */
  lemma {:induction false} WindowStays(es: seq<Event>, start: nat, kind: MetricsType, delay: nat)
    ensures WindowAfter(es, start, kind, delay) >= start
    ensures (forall i :: 0 <= i < |es| ==> Secs(es[i].Time()) < start + delay) ==>
      WindowAfter(es, start, kind, delay) == start
  {
    if es != [] {
      var front := es[..|es| - 1];
      WindowStays(front, start, kind, delay);
      assert forall i :: 0 <= i < |front| ==> front[i] == es[i];
    }
  }

  lemma {:induction false} SomeFails(es: seq<Event>, i: nat, start: nat, kind: MetricsType)
    requires i < |es| && PanicsAt(es, i, start, kind, 1)
    ensures Sticks(es, start, kind, 1, 1)
    decreases i
  {
    if j: nat :| j < i && PanicsAt(es, j, start, kind, 1) {
      SomeFails(es, j, start, kind);
    } else {
      WindowStays(es[..i], start, kind, 1);
      assert FailsAt(es, i, start, kind, 1, 1) by {
        forall j | 0 <= j < i
          ensures Secs(es[..i][j].Time()) < start + 1
        {
          assert !PanicsAt(es, j, start, kind, 1);
        }
      }
    }
  }

  /** When a run fails, from the times alone. */
  lemma SticksIff(es: seq<Event>, base: nat, kind: MetricsType, slots: nat, delay: nat)
    requires Config(kind, slots, delay)
    ensures Sticks(es, kind.Seconds(base), kind, slots, delay) <==> Panics(es, kind.Seconds(base), kind, slots)
  {
    hide WindowAfter, SlotOpen;
    var start := kind.Seconds(base);
    forall i: nat | i < |es|
      ensures FailsAt(es, i, start, kind, slots, delay) ==> PanicsAt(es, i, start, kind, slots)
      ensures slots != 1 && PanicsAt(es, i, start, kind, slots) ==> FailsAt(es, i, start, kind, slots, delay)
    {
      WindowAfterIff(es[..i], base, kind, delay, Secs(es[i].Time()));
      WindowStays(es[..i], start, kind, delay);
    }
    forall i: nat | i < |es| && slots == 1 && PanicsAt(es, i, start, kind, slots)
      ensures Sticks(es, start, kind, slots, delay)
    {
      SomeFails(es, i, start, kind);
    }
  }

  lemma SlotsOfSeconds(kind: MetricsType, base: nat)
    ensures kind.Slots(kind.Seconds(base)) == base
  {
  }

  lemma NeverLateStep(es: seq<Event>, i: nat, start: nat, kind: MetricsType, slots: nat, delay: nat)
    requires i < |es|
    ensures var w := WindowAfter(es[..i], start, kind, delay);
            NeverLate(es[..i + 1], start, kind, slots, delay) ==>
              && NeverLate(es[..i], start, kind, slots, delay)
              && PassedInTime(Accepted(es[..i], start, kind, delay), kind.Slots(w), w, es[i].Time(), kind, slots, delay)
  {
    assert es[..i + 1][..i] == es[..i];
  }

  /** The records sent over a whole run and its end: end is the slot at the window start when it ends, and moved
      how many records were sent while the window moved. */
  ghost predicate EndsRight(sent: seq<AccFlow>, slotOf: seq<nat>, end: nat, moved: nat,
                            kind: MetricsType, slots: nat, delay: nat, start: nat, es: seq<Event>)
  {
    var h := Accepted(es, start, kind, delay);
    && kind.Seconds(end) == WindowAfter(es, start, kind, delay)
    && Reports(sent, slotOf, h, end + slots) && (forall p :: p in h ==> p.slot < end + slots)
    && moved <= |sent| && Reports(sent[..moved], slotOf[..moved], h, end)
    && (Uniform(h) && NeverLate(es, start, kind, slots, delay) ==>
          Loaded(sent[..moved], slotOf[..moved], h) && FinallyLoaded(sent, slotOf, h, end, moved))
  }

  /** The generator over a whole run and its end: None if the window gets stuck. Else the records sent are,
      slot after slot and once each, those of the accepted flows; and if no key that still had connections
      went unseen for more than the timeout, the records sent while the window moved carry the load of their
      slot, and those sent at the end carry the running count. */
  method RunToEnd(kind: MetricsType, slots: nat, delay: nat, start: nat, es: seq<Event>)
    returns (sent: Option<seq<AccFlow>>, ghost slotOf: seq<nat>, ghost end: nat, ghost moved: nat)
    requires Config(kind, slots, delay)
    ensures sent.None? <==> Panics(es, kind.Seconds(start), kind, slots)
    ensures sent.Some? ==> EndsRight(sent.value, slotOf, end, moved, kind, slots, delay, kind.Seconds(start), es)
  {
    hide Wheel, Reports, Loaded, FinallyLoaded, NeverLate, Uniform, Accepted, Sticks, Panics;
    SticksIff(es, start, kind, slots, delay);
    ghost var h := Accepted(es, kind.Seconds(start), kind, delay);
    var g := new SubQuadGen(kind, slots, delay, start);
    var ok := g.Run(es);
    if !ok { return None, [], 0, 0; }
    ghost var out, of := g.output, g.slotOf;
    moved, end := |out|, g.base;
    WheelTells(g.stashs, g.connections, out, of, h, g.inTime, slots, end);
    g.FlushAllFlow();
    sent, slotOf := Some(g.output), g.slotOf;
    assert sent.value[..moved] == out && slotOf[..moved] == of;
  }

  lemma EmptyHistoryCounts(s: nat)
    ensures CountsSlot(map[], [], s, true)
  {
    forall k
      ensures SlotCount(map[], [], s, k, true)
    {
      CarriedAcross([], 0, s, k);
    }
  }

  lemma StashKeys(stash: QuadrupleStash, h: History, s: nat)
    requires Stashes(stash, h, s)
    ensures forall k :: k in stash ==> stash[k].key == k
  {
    forall k | k in stash
      ensures stash[k].key == k
    {
      assert StashEntry(stash, h, s, k);
      var c := Contrib(h, s, k);
      FoldOf(c);
      ContribMembers(h, s, k);
      assert c[0] in c;
    }
  }

  /** Touching does not change the loads. */
  lemma SameLists(batch: seq<AccFlow>, stash: QuadrupleStash, keys: set<QgKey>, c: ConnMap, c': ConnMap)
    requires Lists(batch, stash, keys, c) && SameCounts(c', c)
    ensures Lists(batch, stash, keys, c')
  {
  }
}
