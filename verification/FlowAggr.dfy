/** The flow log's minute aggregation: reports of a flow in one minute become one record. */
module FlowAggr {
  import opened FlowHistory
  import opened FlowLogs
  import opened FlowRecords

  const MINUTE_SLOTS := 2
  const FLUSH_TIMEOUT: Duration := 120 * NANOS

  /** Counted from a whole minute, a time is as many slots away as its minute is. */
  lemma SlotOfMinute(t: Duration, base: nat)
    ensures t < base * 60 * NANOS <==> MinuteOf(t) < base
    ensures t >= base * 60 * NANOS ==> Secs(t - base * 60 * NANOS) / 60 == MinuteOf(t) - base
  {
  }

  class Aggregator {
    var slotStart: Duration
    var stashs: seq<Slot>
    var lastFlush: Duration
    var dropBeforeWindow: nat
    /** What has been handed to the throttling queue. */
    var sent: seq<TaggedFlow>
    ghost var accepted: seq<TaggedFlow>
    /** The minute of the front slot. */
    ghost var base: nat

    /** With the minutes before done being flushed. */
    ghost predicate Holds(done: nat)
      reads this
    {
      |stashs| == MINUTE_SLOTS && slotStart == base * 60 * NANOS
        && Sound(accepted, sent, stashs[0], stashs[1], base, done)
    }

    ghost predicate Valid()
      reads this
    {
      Holds(base)
    }

    constructor ()
      ensures Valid() && base == 0 && accepted == [] && sent == [] && lastFlush == 0 && dropBeforeWindow == 0
    {
      slotStart, lastFlush, dropBeforeWindow := 0, 0, 0;
      stashs := [map[], map[]];
      sent, accepted, base := [], [], 0;
      new;
      forall id: nat, m: nat, q: Measure
        ensures Balanced([], [], map[], map[], 0, id, m, q) && Tidy([], [], map[], map[], 0, 0, id, m)
        ensures Framed([], [], map[], map[], 0, id, m)
      {
      }
    }

    method SendFlow(f: TaggedFlow)
      modifies this`sent
      ensures sent == old(sent) + [Finished(f)]
    {
      var r := f;
      if !r.isNew {
        r := r.(startTime := RoundToMinute(r.statTime));
      }
      if r.closeType == ForcedReport {
        r := r.(endTime := RoundToMinute(r.statTime + 60 * NANOS));
      }
      sent := sent + [r];
    }

    /** Send everything in the front slot, in some order. */
    method Drain()
      requires Holds(base + 1)
      modifies this`sent, this`stashs
      ensures Holds(base + 1) && stashs == [map[], old(stashs[1])]
    {
      hide Sound, Finished;
      while stashs[0] != map[]
        invariant Holds(base + 1) && stashs[1] == old(stashs[1])
        decreases |stashs[0]|
      {
        var id :| id in stashs[0];
        var record := stashs[0][id];
        SendSound(accepted, sent, stashs[0], stashs[1], base, base + 1, id);
        SendFlow(record);
        stashs := stashs[0 := stashs[0] - {id}];
      }
    }

    method FlushFrontSlotAndRotate(now: Duration)
      requires Valid()
      modifies this
      ensures Valid() && base == old(base) + 1 && lastFlush == now
      ensures stashs == [old(stashs[1]), map[]]
      ensures accepted == old(accepted) && dropBeforeWindow == old(dropBeforeWindow)
    {
      FlushTidy(accepted, sent, stashs[0], stashs[1], base);
      Drain();
      RotateSound(accepted, sent, stashs[1], base);
      stashs := [stashs[1], map[]];
      lastFlush := now;
      slotStart := slotStart + 60 * NANOS;
      base := base + 1;
    }

    /** The slots move on by exactly the given number of minutes. */
    method FlushSlots(slotCount: nat, now: Duration)
      requires Valid()
      modifies this
      ensures Valid() && base == old(base) + slotCount && lastFlush == (if slotCount == 0 then old(lastFlush) else now)
      ensures slotCount >= MINUTE_SLOTS ==> stashs == [map[], map[]]
      ensures slotCount == 1 ==> stashs == [old(stashs[1]), map[]]
      ensures slotCount == 0 ==> stashs == old(stashs)
      ensures accepted == old(accepted) && dropBeforeWindow == old(dropBeforeWindow)
    {
      var i := 0;
      while i < slotCount && i < MINUTE_SLOTS
        invariant i <= slotCount && i <= MINUTE_SLOTS
        invariant Valid() && base == old(base) + i && lastFlush == (if i == 0 then old(lastFlush) else now)
        invariant stashs == (if i == 0 then old(stashs) else if i == 1 then [old(stashs[1]), map[]] else [map[], map[]])
        invariant accepted == old(accepted) && dropBeforeWindow == old(dropBeforeWindow)
      {
        FlushFrontSlotAndRotate(now);
        i := i + 1;
      }
      if slotCount > MINUTE_SLOTS {
        var rest := slotCount - MINUTE_SLOTS;
        JumpSound(accepted, sent, base, base + rest);
        slotStart := slotStart + 60 * rest * NANOS;
        base := base + rest;
      }
    }

    /** A report whose minute has a record is merged into it. */
    method MergeInto(slot: nat, f: TaggedFlow)
      requires Valid() && slot < MINUTE_SLOTS && f.id in stashs[slot] && MinuteOf(f.statTime) == base + slot
      modifies this`sent, this`stashs, this`accepted
      ensures Valid() && accepted == old(accepted) + [f]
      ensures var r := Merged(old(stashs[slot][f.id]), f);
              if f.closeType == ForcedReport
              then stashs[slot] == old(stashs[slot])[f.id := r] && sent == old(sent)
              else stashs[slot] == old(stashs[slot]) - {f.id} && sent == old(sent) + [Finished(r)]
      ensures stashs[1 - slot] == old(stashs[1 - slot])
    {
      hide Sound, Finished;
      MergeSound(accepted, sent, stashs[0], stashs[1], base, f, slot);
      var record := stashs[slot][f.id];
      if record.reversed != f.reversed {
        record := record.Reverse();
        if record.perf.Some? {
          record := record.ReversePerf();
        }
      }
      record := record.Merge(f);
      assert record == Merged(stashs[slot][f.id], f);
      accepted := accepted + [f];
      if record.closeType != ForcedReport {
        stashs := stashs[slot := stashs[slot] - {f.id}];
        SendFlow(record);
      } else {
        var changed: Slot := stashs[slot][f.id := record];
        stashs := stashs[slot := changed];
      }
    }

    /** A report whose minute has no record starts one, or is sent if it closes the flow; either
        way the record of the minute before it is sent. */
    method Start(slot: nat, f: TaggedFlow)
      requires Valid() && slot < MINUTE_SLOTS && f.id !in stashs[slot] && MinuteOf(f.statTime) == base + slot
      modifies this`sent, this`stashs, this`accepted
      ensures Valid() && accepted == old(accepted) + [f]
      ensures slot == 1 ==> f.id !in stashs[0]
    {
      hide Sound, Finished;
      StartSound(accepted, sent, stashs[0], stashs[1], base, f, slot);
      if f.closeType != ForcedReport {
        accepted := accepted + [f];
        SendFlow(f);
      } else {
        accepted := accepted + [f];
        var changed: Slot := stashs[slot][f.id := f];
        stashs := stashs[slot := changed];
      }
      if slot > 0 && f.id in stashs[slot - 1] {
        SendSound(accepted, sent, stashs[0], stashs[1], base, base, f.id);
        var before := stashs[slot - 1][f.id];
        stashs := stashs[slot - 1 := stashs[slot - 1] - {f.id}];
        SendFlow(before);
      }
    }

    /** A report is dropped if and only if its minute is before the front slot's. Otherwise the slots
        move on just far enough to hold it. */
    method MinuteMerge(f: TaggedFlow, now: Duration)
      requires Valid()
      modifies this
      ensures Valid() && Window(base, lastFlush) == Window(old(base), old(lastFlush)).After(f.statTime, now)
      ensures if MinuteOf(f.statTime) < old(base)
              then accepted == old(accepted) && sent == old(sent) && stashs == old(stashs)
                && dropBeforeWindow == old(dropBeforeWindow) + 1
              else accepted == old(accepted) + [f] && dropBeforeWindow == old(dropBeforeWindow)
    {
      SlotOfMinute(f.statTime, base);
      if f.statTime < slotStart {
        dropBeforeWindow := dropBeforeWindow + 1;
        return;
      }
      var slot := Secs(f.statTime - slotStart) / 60;
      if slot >= MINUTE_SLOTS {
        FlushSlots(slot - MINUTE_SLOTS + 1, now);
        slot := MINUTE_SLOTS - 1;
      }
      if f.id in stashs[slot] {
        MergeInto(slot, f);
      } else {
        Start(slot, f);
      }
    }

    /** One turn of the loop: a report, or a wait that timed out. */
    method Handle(e: Event)
      requires Valid()
      modifies this
      ensures Valid() && Window(base, lastFlush) == Window(old(base), old(lastFlush)).Next(e)
      ensures accepted == old(accepted) + (if Window(old(base), old(lastFlush)).Accepts(e) then [e.flow] else [])
    {
      match e
      case Report(f, stored, now) =>
        if stored {
          MinuteMerge(f, now);
        }
      case Timeout(now) =>
        if now > lastFlush + FLUSH_TIMEOUT {
          FlushFrontSlotAndRotate(now);
        }
    }
  }

  // ----- Whole runs -----

  /** A report, with whether its tap type is stored and the clock; or a wait that timed out. */
  datatype Event = Report(flow: TaggedFlow, stored: bool, now: Duration) | Timeout(now: Duration)

  /** The minute of the front slot, and when the slots last moved. */
  datatype Window = Window(base: nat, lastFlush: Duration) {
    function After(t: Duration, now: Duration): Window
    {
      if MinuteOf(t) < base + MINUTE_SLOTS then this else Window(MinuteOf(t) + 1 - MINUTE_SLOTS, now)
    }

    predicate Accepts(e: Event) { e.Report? && e.stored && MinuteOf(e.flow.statTime) >= base }

    function Next(e: Event): Window
    {
      match e
      case Report(f, stored, now) => if stored then After(f.statTime, now) else this
      case Timeout(now) => if now > lastFlush + FLUSH_TIMEOUT then Window(base + 1, now) else this
    }
  }

  /** The slots move on just far enough to hold a minute. */
  lemma WindowHolds(w: Window, t: Duration, now: Duration, b: nat)
    ensures var after := w.After(t, now);
            && w.base <= after.base && MinuteOf(t) < after.base + MINUTE_SLOTS
            && (w.base <= b && MinuteOf(t) < b + MINUTE_SLOTS ==> after.base <= b)
            && after.lastFlush == if after.base > w.base then now else w.lastFlush
  {
  }

  function WindowAfter(es: seq<Event>): Window
  {
    if es == [] then Window(0, 0) else WindowAfter(es[..|es| - 1]).Next(es[|es| - 1])
  }

  /** How many waits from event i on timed out more than 120 seconds after the slots last moved. */
  function Flushes(es: seq<Event>, i: nat): nat
  {
    if |es| <= i then 0
    else
      var before, e := es[..|es| - 1], es[|es| - 1];
      Flushes(before, i) + if e.Timeout? && e.now > WindowAfter(before).lastFlush + 120 * NANOS then 1 else 0
  }

  /** Minute m has not been flushed: no stored report was so far after it, counting a minute more for each flush
      since, that it had to make way. */
  predicate StillOpen(es: seq<Event>, m: nat)
  {
    && Flushes(es, 0) <= m
    && forall i :: 0 <= i < |es| && es[i].Report? && es[i].stored ==>
         MinuteOf(es[i].flow.statTime) + Flushes(es, i + 1) <= m + 1
  }

  /** The front slot is the first minute that has not been flushed. */
  lemma {:induction false} WindowAfterIff(es: seq<Event>, m: nat)
    ensures m >= WindowAfter(es).base <==> StillOpen(es, m)
  {
    if es != [] {
      var n := |es| - 1;
      var before, e := es[..n], es[n];
      var flushed := e.Timeout? && e.now > WindowAfter(before).lastFlush + 120 * NANOS;
      assert Flushes(es, |es|) == 0;
      assert forall i :: 0 <= i <= n ==> Flushes(es, i) == Flushes(before, i) + if flushed then 1 else 0;
      if !flushed {
        WindowAfterIff(before, m);
      } else if m > 0 {
        WindowAfterIff(before, m - 1);
      }
    }
  }

  /** The reports of a run that are not filtered out and not late. */
  function Accepted(es: seq<Event>): seq<TaggedFlow>
  {
    if es == [] then []
    else
      var before, e := es[..|es| - 1], es[|es| - 1];
      Accepted(before)
      + if e.Report? && e.stored && StillOpen(before, MinuteOf(e.flow.statTime)) then [e.flow] else []
  }

  lemma AcceptedStep(es: seq<Event>, i: nat)
    requires i < |es|
    ensures WindowAfter(es[..i + 1]) == WindowAfter(es[..i]).Next(es[i])
    ensures Accepted(es[..i + 1])
         == Accepted(es[..i]) + if WindowAfter(es[..i]).Accepts(es[i]) then [es[i].flow] else []
  {
    hide StillOpen;
    assert es[..i + 1][..i] == es[..i];
    if es[i].Report? { WindowAfterIff(es[..i], MinuteOf(es[i].flow.statTime)); }
  }

  /** The minute the slots had reached never goes back. */
  lemma {:induction false} WindowAdvances(es: seq<Event>, i: nat)
    requires i <= |es|
    ensures WindowAfter(es[..i]).base <= WindowAfter(es).base
    decreases |es| - i
  {
    if i == |es| {
      assert es[..i] == es;
    } else {
      assert es[..i + 1][..i] == es[..i];
      WindowAdvances(es, i + 1);
    }
  }

  /** What a run leaves: what was accepted of a flow in a minute is what was sent plus what is held, in
      the flow's original direction. Of a minute that is over all was sent; a flow has a record for it
      if and only if it reported in it, and only one if its reports came in order, which begins as the first
      report of the minute and ends as the last. */
  method Run(es: seq<Event>) returns (sent: seq<TaggedFlow>, front: Slot, back: Slot)
    ensures Sound(Accepted(es), sent, front, back, WindowAfter(es).base, WindowAfter(es).base)
    ensures forall id: nat, m: nat, q: Measure :: m < WindowAfter(es).base ==>
      SumOf(sent, id, m, q) == SumOf(Accepted(es), id, m, q)
    ensures forall id: nat, m: nat :: m < WindowAfter(es).base ==>
      (Records(sent, id, m) > 0 <==> Reported(Accepted(es), id, m))
    ensures forall id: nat, m: nat :: m < WindowAfter(es).base && Orderly(Accepted(es), id) ==>
      Records(sent, id, m) <= 1
    ensures forall id: nat, m: nat :: m < WindowAfter(es).base && Orderly(Accepted(es), id) ==>
      AllSentRight(sent, Accepted(es), id, m)
  {
    var a := new Aggregator();
    var i := 0;
    while i < |es|
      invariant i <= |es| && a.Valid() && fresh(a)
      invariant a.accepted == Accepted(es[..i]) && Window(a.base, a.lastFlush) == WindowAfter(es[..i])
    {
      AcceptedStep(es, i);
      a.Handle(es[i]);
      i := i + 1;
    }
    assert es[..i] == es;
    sent, front, back := a.sent, a.stashs[0], a.stashs[1];
    forall id: nat, m: nat, q: Measure | m < WindowAfter(es).base
      ensures SumOf(sent, id, m, q) == SumOf(Accepted(es), id, m, q)
    {
      PastMinute(Accepted(es), sent, front, back, WindowAfter(es).base, id, m, q);
    }
    forall id: nat, m: nat | m < WindowAfter(es).base
      ensures Records(sent, id, m) > 0 <==> Reported(Accepted(es), id, m)
      ensures Orderly(Accepted(es), id) ==>
        Records(sent, id, m) <= 1 && AllSentRight(sent, Accepted(es), id, m)
    {
      PastMinute(Accepted(es), sent, front, back, WindowAfter(es).base, id, m, OfDestination(Bytes));
    }
  }
}
