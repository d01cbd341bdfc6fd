/** The records a flow gets for a minute: exactly one for each minute it reported in, if its reports come in
    the order of their minutes and the one that closes it is the last of its minute; and that record begins as
    the first report of the minute does and ends as the last. */
module FlowRecords {
  import opened FlowHistory
  import opened FlowLogs

  /** The number of records of flow id for minute m. */
  function Records(out: seq<TaggedFlow>, id: nat, m: nat): nat
  {
    if out == [] then 0
    else
      var last := out[|out| - 1];
      Records(out[..|out| - 1], id, m) + if last.id == id && MinuteOf(last.statTime) == m then 1 else 0
  }

  function InSlot(slot: Slot, at: nat, id: nat, m: nat): nat { if m == at && id in slot then 1 else 0 }

  predicate IsReport(f: TaggedFlow, id: nat, m: nat) { f.id == id && MinuteOf(f.statTime) == m }

  predicate Reported(h: seq<TaggedFlow>, id: nat, m: nat)
  {
    exists i :: 0 <= i < |h| && IsReport(h[i], id, m)
  }

  /** f says that flow id is done with minute m. */
  predicate Leaves(f: TaggedFlow, id: nat, m: nat)
  {
    f.id == id && (MinuteOf(f.statTime) > m || (MinuteOf(f.statTime) == m && f.closeType != ForcedReport))
  }

  predicate Left(h: seq<TaggedFlow>, id: nat, m: nat)
  {
    exists i :: 0 <= i < |h| && Leaves(h[i], id, m)
  }

  /** No report of the flow is for a minute the flow was done with. */
  predicate Orderly(h: seq<TaggedFlow>, id: nat)
  {
    forall i, j :: 0 <= i < j < |h| && h[j].id == id ==> !Leaves(h[i], id, MinuteOf(h[j].statTime))
  }

  /** Flow id has a record for minute m if and only if it reported in it. If its reports are in order
      it has only one, which, with the minutes before done flushed, has only been sent if its minute
      was flushed or the flow was done with it. */
  ghost predicate Tidy(h: seq<TaggedFlow>, out: seq<TaggedFlow>, s0: Slot, s1: Slot, base: nat, done: nat, id: nat,
                       m: nat)
  {
    var records := Records(out, id, m) + InSlot(s0, base, id, m) + InSlot(s1, base + 1, id, m);
    && (records > 0 <==> Reported(h, id, m))
    && (Orderly(h, id) ==> records <= 1 && (Records(out, id, m) > 0 ==> m < done || Left(h, id, m)))
  }

  ghost predicate AllTidy(h: seq<TaggedFlow>, out: seq<TaggedFlow>, s0: Slot, s1: Slot, base: nat, done: nat)
  {
    forall id: nat, m: nat :: Tidy(h, out, s0, s1, base, done, id, m)
  }

  lemma RecordsAppend(out: seq<TaggedFlow>, r: TaggedFlow, id: nat, m: nat)
    ensures Records(out + [r], id, m) == Records(out, id, m) + if IsReport(r, id, m) then 1 else 0
  {
    assert (out + [r])[..|out|] == out;
  }

  lemma ReportAppend(h: seq<TaggedFlow>, f: TaggedFlow, id: nat, m: nat)
    ensures Reported(h + [f], id, m) <==> Reported(h, id, m) || IsReport(f, id, m)
    ensures Left(h + [f], id, m) <==> Left(h, id, m) || Leaves(f, id, m)
    ensures Orderly(h + [f], id) ==> Orderly(h, id) && (f.id == id ==> !Left(h, id, MinuteOf(f.statTime)))
  {
    var g := h + [f];
    assert g[|h|] == f;
    assert forall i :: 0 <= i < |h| ==> g[i] == h[i];
    if Reported(h, id, m) {
      var i :| 0 <= i < |h| && IsReport(h[i], id, m);
      assert IsReport(g[i], id, m);
    }
    if Left(h, id, m) {
      var i :| 0 <= i < |h| && Leaves(h[i], id, m);
      assert Leaves(g[i], id, m);
    }
    if Orderly(g, id) {
      forall i, j | 0 <= i < j < |h| && h[j].id == id
        ensures !Leaves(h[i], id, MinuteOf(h[j].statTime))
      {
        assert !Leaves(g[i], id, MinuteOf(g[j].statTime));
      }
      forall i | 0 <= i < |h| && f.id == id
        ensures !Leaves(h[i], id, MinuteOf(f.statTime))
      {
        assert !Leaves(g[i], id, MinuteOf(g[|h|].statTime));
      }
    }
  }

  /** A report without a record starts one. */
  lemma InsertTidy(h: seq<TaggedFlow>, out: seq<TaggedFlow>, s0: Slot, s1: Slot, base: nat, f: TaggedFlow, slot: nat)
    requires AllTidy(h, out, s0, s1, base, base) && slot < 2 && MinuteOf(f.statTime) == base + slot
    requires f.id !in (if slot == 0 then s0 else s1)
    ensures AllTidy(h + [f], out, if slot == 0 then s0[f.id := f] else s0, if slot == 1 then s1[f.id := f] else s1,
                    base, base)
  {
    var t0, t1 := if slot == 0 then s0[f.id := f] else s0, if slot == 1 then s1[f.id := f] else s1;
    forall id: nat, m: nat
      ensures Tidy(h + [f], out, t0, t1, base, base, id, m)
    {
      assert Tidy(h, out, s0, s1, base, base, id, m);
      ReportAppend(h, f, id, m);
    }
  }

  /** A report with a record is merged into it, which leaves the slots' keys as they are. */
  lemma MergeTidy(h: seq<TaggedFlow>, out: seq<TaggedFlow>, s0: Slot, s1: Slot, t0: Slot, t1: Slot, base: nat,
                  f: TaggedFlow)
    requires AllTidy(h, out, s0, s1, base, base) && t0.Keys == s0.Keys && t1.Keys == s1.Keys
    requires (MinuteOf(f.statTime) == base && f.id in s0) || (MinuteOf(f.statTime) == base + 1 && f.id in s1)
    ensures AllTidy(h + [f], out, t0, t1, base, base)
  {
    forall id: nat, m: nat
      ensures Tidy(h + [f], out, t0, t1, base, base, id, m)
    {
      assert Tidy(h, out, s0, s1, base, base, id, m);
      assert id in t0.Keys <==> id in s0.Keys;
      assert id in t1.Keys <==> id in s1.Keys;
      ReportAppend(h, f, id, m);
    }
  }

  /** A report that closes the flow and has no record is sent on its own. */
  lemma PassTidy(h: seq<TaggedFlow>, out: seq<TaggedFlow>, s0: Slot, s1: Slot, base: nat, f: TaggedFlow, slot: nat)
    requires AllTidy(h, out, s0, s1, base, base) && slot < 2 && MinuteOf(f.statTime) == base + slot
             && f.closeType != ForcedReport
    requires f.id !in (if slot == 0 then s0 else s1)
    ensures AllTidy(h + [f], out + [Finished(f)], s0, s1, base, base)
  {
    forall id: nat, m: nat
      ensures Tidy(h + [f], out + [Finished(f)], s0, s1, base, base, id, m)
    {
      assert Tidy(h, out, s0, s1, base, base, id, m);
      ReportAppend(h, f, id, m);
      FinishedKeeps(f, OfDestination(Bytes));
      RecordsAppend(out, Finished(f), id, m);
    }
  }

  /** A record is sent because the flow is done with its minute, or because the minute is flushed. */
  lemma SendTidy(h: seq<TaggedFlow>, out: seq<TaggedFlow>, s0: Slot, s1: Slot, base: nat, done: nat, id: nat, slot: nat)
    requires AllTidy(h, out, s0, s1, base, done) && slot < 2
    requires var s := if slot == 0 then s0 else s1; id in s && IsReport(s[id], id, base + slot)
    requires base + slot < done || Left(h, id, base + slot)
    ensures var s := if slot == 0 then s0 else s1;
            AllTidy(h, out + [Finished(s[id])], if slot == 0 then s0 - {id} else s0,
                    if slot == 1 then s1 - {id} else s1, base, done)
  {
    var r := (if slot == 0 then s0 else s1)[id];
    var t0, t1 := if slot == 0 then s0 - {id} else s0, if slot == 1 then s1 - {id} else s1;
    FinishedKeeps(r, OfDestination(Bytes));
    forall x: nat, m: nat
      ensures Tidy(h, out + [Finished(r)], t0, t1, base, done, x, m)
    {
      assert Tidy(h, out, s0, s1, base, done, x, m);
      RecordsAppend(out, Finished(r), x, m);
    }
  }

  lemma FlushTidy(h: seq<TaggedFlow>, out: seq<TaggedFlow>, s0: Slot, s1: Slot, base: nat)
    requires AllTidy(h, out, s0, s1, base, base)
    ensures AllTidy(h, out, s0, s1, base, base + 1)
  {
    var done := base + 1;
    forall id: nat, m: nat
      ensures Tidy(h, out, s0, s1, base, done, id, m)
    {
      assert Tidy(h, out, s0, s1, base, base, id, m);
    }
  }

  lemma RotateTidy(h: seq<TaggedFlow>, out: seq<TaggedFlow>, s1: Slot, base: nat)
    requires AllTidy(h, out, map[], s1, base, base + 1)
    ensures AllTidy(h, out, s1, map[], base + 1, base + 1)
  {
    var b := base + 1;
    forall id: nat, m: nat
      ensures Tidy(h, out, s1, map[], b, b, id, m)
    {
      assert Tidy(h, out, map[], s1, base, b, id, m);
    }
  }

  lemma JumpTidy(h: seq<TaggedFlow>, out: seq<TaggedFlow>, base: nat, base': nat)
    requires AllTidy(h, out, map[], map[], base, base) && base <= base'
    ensures AllTidy(h, out, map[], map[], base', base')
  {
    forall id: nat, m: nat
      ensures Tidy(h, out, map[], map[], base', base', id, m)
    {
      assert Tidy(h, out, map[], map[], base, base, id, m);
    }
  }

  // ----- Where a record begins and ends -----

  /** The first and the last report of a flow in a minute. */
  function First(h: seq<TaggedFlow>, id: nat, m: nat): TaggedFlow
    requires Reported(h, id, m)
  {
    var front := h[..|h| - 1];
    if Reported(front, id, m) then First(front, id, m) else h[|h| - 1]
  }

  function Last(h: seq<TaggedFlow>, id: nat, m: nat): TaggedFlow
    requires Reported(h, id, m)
  {
    if IsReport(h[|h| - 1], id, m) then h[|h| - 1] else Last(h[..|h| - 1], id, m)
  }

  /** The longest response time that a flow reports in a minute. */
  function Longest(h: seq<TaggedFlow>, id: nat, m: nat): nat
  {
    if h == [] then 0
    else
      var front, last := Longest(h[..|h| - 1], id, m), h[|h| - 1];
      if IsReport(last, id, m) && LongestRrt(last) > front then LongestRrt(last) else front
  }

  lemma EndsAppend(h: seq<TaggedFlow>, f: TaggedFlow, id: nat, m: nat)
    requires Reported(h + [f], id, m)
    ensures First(h + [f], id, m) == if Reported(h, id, m) then First(h, id, m) else f
    ensures !IsReport(f, id, m) ==> Reported(h, id, m)
    ensures Last(h + [f], id, m) == if IsReport(f, id, m) then f else Last(h, id, m)
    ensures Longest(h + [f], id, m)
         == if IsReport(f, id, m) && LongestRrt(f) > Longest(h, id, m) then LongestRrt(f) else Longest(h, id, m)
  {
    ReportAppend(h, f, id, m);
    assert (h + [f])[..|h|] == h;
  }

  lemma {:induction false} NoneLonger(h: seq<TaggedFlow>, id: nat, m: nat)
    requires !Reported(h, id, m)
    ensures Longest(h, id, m) == 0
  {
    if h != [] {
      var front := h[..|h| - 1];
      assert !IsReport(h[|h| - 1], id, m) && forall i :: 0 <= i < |front| ==> front[i] == h[i];
      NoneLonger(front, id, m);
    }
  }

  /** The record of flow id for minute m, with the given start and end time: it is that of a new flow if the first
      report was; the rest it has from the last report. */
  ghost predicate Reaches(r: TaggedFlow, h: seq<TaggedFlow>, id: nat, m: nat, start: Duration, end: Duration)
    requires Reported(h, id, m)
  {
    var first, last := First(h, id, m), Last(h, id, m);
    && r.isNew == first.isNew && r.startTime == start && Tags(r) == Tags(first)
    && r.closeType == last.closeType && r.endTime == end && r.reversed == last.reversed
    && r.src.epc == last.src.epc && r.dst.epc == last.dst.epc && LongestRrt(r) == Longest(h, id, m)
  }

  /** While it is held, a record has the times of the reports. */
  ghost predicate HeldRight(r: TaggedFlow, h: seq<TaggedFlow>, id: nat, m: nat)
  {
    Reported(h, id, m) && Reaches(r, h, id, m, First(h, id, m).startTime, Last(h, id, m).endTime)
  }

  /** When it is sent, a record starts with its minute unless the flow is new, and ends with its minute unless the
      flow is closed. */
  ghost predicate SentRight(r: TaggedFlow, h: seq<TaggedFlow>, id: nat, m: nat)
  {
    && Reported(h, id, m)
    && var first, last := First(h, id, m), Last(h, id, m);
       Reaches(r, h, id, m, if first.isNew then first.startTime else m * 60 * NANOS,
               if last.closeType == ForcedReport then (m + 1) * 60 * NANOS else last.endTime)
  }

  ghost predicate AllSentRight(out: seq<TaggedFlow>, h: seq<TaggedFlow>, id: nat, m: nat)
  {
    forall i :: 0 <= i < |out| && IsReport(out[i], id, m) ==> SentRight(out[i], h, id, m)
  }

  /** If the reports of flow id are in order, its records for minute m reach from the first to the last of them. */
  ghost predicate Framed(h: seq<TaggedFlow>, out: seq<TaggedFlow>, s0: Slot, s1: Slot, base: nat, id: nat, m: nat)
  {
    Orderly(h, id) ==>
      && (m == base && id in s0 ==> HeldRight(s0[id], h, id, m))
      && (m == base + 1 && id in s1 ==> HeldRight(s1[id], h, id, m))
      && AllSentRight(out, h, id, m)
  }

  ghost predicate AllFramed(h: seq<TaggedFlow>, out: seq<TaggedFlow>, s0: Slot, s1: Slot, base: nat)
  {
    forall id: nat, m: nat :: Framed(h, out, s0, s1, base, id, m)
  }

  lemma FinishedRight(r: TaggedFlow, h: seq<TaggedFlow>, id: nat, m: nat)
    requires IsReport(r, id, m) && HeldRight(r, h, id, m)
    ensures SentRight(Finished(r), h, id, m)
  {
    NextMinute(r.statTime);
  }

  /** A report that starts the record of its minute is both the first and the last. */
  lemma StartRight(h: seq<TaggedFlow>, f: TaggedFlow, id: nat, m: nat)
    requires IsReport(f, id, m) && !Reported(h, id, m)
    ensures HeldRight(f, h + [f], id, m)
  {
    ReportAppend(h, f, id, m);
    EndsAppend(h, f, id, m);
    NoneLonger(h, id, m);
  }

  lemma MergeRight(r: TaggedFlow, h: seq<TaggedFlow>, f: TaggedFlow, id: nat, m: nat)
    requires IsReport(f, id, m) && HeldRight(r, h, id, m)
    ensures HeldRight(Merged(r, f), h + [f], id, m)
  {
    hide Merged, Tags;
    ReportAppend(h, f, id, m);
    EndsAppend(h, f, id, m);
    MergedEnds(r, f);
    MergedAddsUp(r, f, OfDestination(Bytes));
  }

  /** A report of another flow or minute changes nothing. */
  lemma OtherRight(r: TaggedFlow, h: seq<TaggedFlow>, f: TaggedFlow, id: nat, m: nat)
    requires !IsReport(f, id, m)
    ensures HeldRight(r, h, id, m) ==> HeldRight(r, h + [f], id, m)
    ensures SentRight(r, h, id, m) ==> SentRight(r, h + [f], id, m)
  {
    ReportAppend(h, f, id, m);
    if Reported(h, id, m) { EndsAppend(h, f, id, m); }
  }

  lemma {:induction false} NoRecords(out: seq<TaggedFlow>, id: nat, m: nat)
    requires Records(out, id, m) == 0
    ensures forall i :: 0 <= i < |out| ==> !IsReport(out[i], id, m)
  {
    if out != [] { NoRecords(out[..|out| - 1], id, m); }
  }

  /** A flow that is not done with a minute has no record of it sent, and has reported in it if one is held. */
  lemma NotSentYet(h: seq<TaggedFlow>, out: seq<TaggedFlow>, s0: Slot, s1: Slot, base: nat, f: TaggedFlow)
    requires AllTidy(h, out, s0, s1, base, base) && MinuteOf(f.statTime) >= base && Orderly(h + [f], f.id)
    ensures var m := MinuteOf(f.statTime);
            && (forall i :: 0 <= i < |out| ==> !IsReport(out[i], f.id, m))
            && (Reported(h, f.id, m) <==> (m == base && f.id in s0) || (m == base + 1 && f.id in s1))
  {
    var m := MinuteOf(f.statTime);
    assert Tidy(h, out, s0, s1, base, base, f.id, m);
    ReportAppend(h, f, f.id, m);
    NoRecords(out, f.id, m);
  }

  /** The framing after a report, if its own flow and minute are right. */
  lemma ReportFramed(h: seq<TaggedFlow>, out: seq<TaggedFlow>, s0: Slot, s1: Slot, t0: Slot, t1: Slot, base: nat,
                     f: TaggedFlow)
    requires AllFramed(h, out, s0, s1, base) && MinuteOf(f.statTime) >= base
    requires t0 == s0 || (f.id in t0 && t0 == s0[f.id := t0[f.id]] && MinuteOf(f.statTime) == base)
    requires t1 == s1 || (f.id in t1 && t1 == s1[f.id := t1[f.id]] && MinuteOf(f.statTime) == base + 1)
    requires Framed(h + [f], out, t0, t1, base, f.id, MinuteOf(f.statTime))
    ensures AllFramed(h + [f], out, t0, t1, base)
  {
    hide HeldRight, SentRight, Orderly;
    forall id: nat, m: nat
      ensures Framed(h + [f], out, t0, t1, base, id, m)
    {
      assert Framed(h, out, s0, s1, base, id, m);
      if Orderly(h + [f], id) && !IsReport(f, id, m) {
        ReportAppend(h, f, id, m);
        if m == base && id in s0 { OtherRight(s0[id], h, f, id, m); }
        if m == base + 1 && id in s1 { OtherRight(s1[id], h, f, id, m); }
        forall i | 0 <= i < |out| && IsReport(out[i], id, m)
          ensures SentRight(out[i], h + [f], id, m)
        {
          OtherRight(out[i], h, f, id, m);
        }
      }
    }
  }

  lemma InsertFramed(h: seq<TaggedFlow>, out: seq<TaggedFlow>, s0: Slot, s1: Slot, base: nat, f: TaggedFlow, slot: nat)
    requires AllTidy(h, out, s0, s1, base, base) && AllFramed(h, out, s0, s1, base)
    requires slot < 2 && MinuteOf(f.statTime) == base + slot && f.id !in (if slot == 0 then s0 else s1)
    ensures AllFramed(h + [f], out, if slot == 0 then s0[f.id := f] else s0, if slot == 1 then s1[f.id := f] else s1,
                      base)
  {
    hide HeldRight, SentRight;
    var t0, t1 := if slot == 0 then s0[f.id := f] else s0, if slot == 1 then s1[f.id := f] else s1;
    if Orderly(h + [f], f.id) {
      NotSentYet(h, out, s0, s1, base, f);
      StartRight(h, f, f.id, base + slot);
    }
    ReportFramed(h, out, s0, s1, t0, t1, base, f);
  }

  lemma MergeFramed(h: seq<TaggedFlow>, out: seq<TaggedFlow>, s0: Slot, s1: Slot, base: nat, f: TaggedFlow, slot: nat)
    requires AllTidy(h, out, s0, s1, base, base) && AllFramed(h, out, s0, s1, base)
    requires slot < 2 && MinuteOf(f.statTime) == base + slot && f.id in (if slot == 0 then s0 else s1)
    ensures var r := Merged((if slot == 0 then s0 else s1)[f.id], f);
            AllFramed(h + [f], out, if slot == 0 then s0[f.id := r] else s0, if slot == 1 then s1[f.id := r] else s1,
                      base)
  {
    hide HeldRight, SentRight, Merged;
    var held := (if slot == 0 then s0 else s1)[f.id];
    var r := Merged(held, f);
    var t0, t1 := if slot == 0 then s0[f.id := r] else s0, if slot == 1 then s1[f.id := r] else s1;
    if Orderly(h + [f], f.id) {
      ReportAppend(h, f, f.id, base + slot);
      assert Framed(h, out, s0, s1, base, f.id, base + slot);
      NotSentYet(h, out, s0, s1, base, f);
      MergeRight(held, h, f, f.id, base + slot);
    }
    ReportFramed(h, out, s0, s1, t0, t1, base, f);
  }

  lemma SendFramed(h: seq<TaggedFlow>, out: seq<TaggedFlow>, s0: Slot, s1: Slot, base: nat, id: nat, slot: nat)
    requires AllFramed(h, out, s0, s1, base) && slot < 2
    requires var s := if slot == 0 then s0 else s1; id in s && IsReport(s[id], id, base + slot)
    ensures var s := if slot == 0 then s0 else s1;
            AllFramed(h, out + [Finished(s[id])], if slot == 0 then s0 - {id} else s0,
                      if slot == 1 then s1 - {id} else s1, base)
  {
    hide HeldRight, SentRight, Finished;
    var r := (if slot == 0 then s0 else s1)[id];
    var t0, t1 := if slot == 0 then s0 - {id} else s0, if slot == 1 then s1 - {id} else s1;
    FinishedKeeps(r, OfDestination(Bytes));
    forall x: nat, m: nat
      ensures Framed(h, out + [Finished(r)], t0, t1, base, x, m)
    {
      assert Framed(h, out, s0, s1, base, x, m);
      if Orderly(h, x) && IsReport(r, x, m) { FinishedRight(r, h, x, m); }
    }
  }

  /** A report that closes the flow and has no record: as if it started one that is sent at once. */
  lemma PassFramed(h: seq<TaggedFlow>, out: seq<TaggedFlow>, s0: Slot, s1: Slot, base: nat, f: TaggedFlow, slot: nat)
    requires AllTidy(h, out, s0, s1, base, base) && AllFramed(h, out, s0, s1, base)
    requires slot < 2 && MinuteOf(f.statTime) == base + slot && f.id !in (if slot == 0 then s0 else s1)
    ensures AllFramed(h + [f], out + [Finished(f)], s0, s1, base)
  {
    hide AllFramed, Finished;
    var t0, t1 := if slot == 0 then s0[f.id := f] else s0, if slot == 1 then s1[f.id := f] else s1;
    InsertFramed(h, out, s0, s1, base, f, slot);
    SendFramed(h + [f], out, t0, t1, base, f.id, slot);
    assert slot == 0 ==> t0 - {f.id} == s0;
    assert slot == 1 ==> t1 - {f.id} == s1;
  }

  lemma RotateFramed(h: seq<TaggedFlow>, out: seq<TaggedFlow>, s1: Slot, base: nat)
    requires AllFramed(h, out, map[], s1, base)
    ensures AllFramed(h, out, s1, map[], base + 1)
  {
    hide HeldRight, SentRight;
    var b := base + 1;
    forall id: nat, m: nat
      ensures Framed(h, out, s1, map[], b, id, m)
    {
      assert Framed(h, out, map[], s1, base, id, m);
    }
  }

  lemma JumpFramed(h: seq<TaggedFlow>, out: seq<TaggedFlow>, base: nat, base': nat)
    requires AllFramed(h, out, map[], map[], base)
    ensures AllFramed(h, out, map[], map[], base')
  {
    hide HeldRight, SentRight;
    forall id: nat, m: nat
      ensures Framed(h, out, map[], map[], base', id, m)
    {
      assert Framed(h, out, map[], map[], base, id, m);
    }
  }

  // ----- Sums, numbers and ends together -----

  ghost predicate Sound(h: seq<TaggedFlow>, out: seq<TaggedFlow>, s0: Slot, s1: Slot, base: nat, done: nat)
  {
    Consistent(h, out, s0, s1, base) && AllTidy(h, out, s0, s1, base, done) && AllFramed(h, out, s0, s1, base)
  }

  lemma SendSound(h: seq<TaggedFlow>, out: seq<TaggedFlow>, s0: Slot, s1: Slot, base: nat, done: nat, id: nat)
    requires Sound(h, out, s0, s1, base, done) && id in s0 && (base < done || Left(h, id, base))
    ensures Sound(h, out + [Finished(s0[id])], s0 - {id}, s1, base, done)
  {
    SendKeeps(h, out, s0, s1, base, id, 0);
    SendTidy(h, out, s0, s1, base, done, id, 0);
    SendFramed(h, out, s0, s1, base, id, 0);
  }

  lemma StartSound(h: seq<TaggedFlow>, out: seq<TaggedFlow>, s0: Slot, s1: Slot, base: nat, f: TaggedFlow, slot: nat)
    requires Sound(h, out, s0, s1, base, base) && slot < 2 && MinuteOf(f.statTime) == base + slot
    requires f.id !in (if slot == 0 then s0 else s1)
    ensures if f.closeType == ForcedReport
            then Sound(h + [f], out, if slot == 0 then s0[f.id := f] else s0, if slot == 1 then s1[f.id := f] else s1,
                       base, base)
            else Sound(h + [f], out + [Finished(f)], s0, s1, base, base)
    ensures slot == 1 ==> Left(h + [f], f.id, base)
  {
    if f.closeType == ForcedReport {
      InsertKeeps(h, out, s0, s1, base, f, slot);
      InsertTidy(h, out, s0, s1, base, f, slot);
      InsertFramed(h, out, s0, s1, base, f, slot);
    } else {
      PassKeeps(h, out, s0, s1, base, f);
      PassTidy(h, out, s0, s1, base, f, slot);
      PassFramed(h, out, s0, s1, base, f, slot);
    }
    ReportAppend(h, f, f.id, base);
  }

  lemma MergeSound(h: seq<TaggedFlow>, out: seq<TaggedFlow>, s0: Slot, s1: Slot, base: nat, f: TaggedFlow, slot: nat)
    requires Sound(h, out, s0, s1, base, base) && slot < 2 && MinuteOf(f.statTime) == base + slot
    requires f.id in (if slot == 0 then s0 else s1)
    ensures var r := Merged((if slot == 0 then s0 else s1)[f.id], f);
            if f.closeType == ForcedReport
            then Sound(h + [f], out, if slot == 0 then s0[f.id := r] else s0, if slot == 1 then s1[f.id := r] else s1,
                       base, base)
            else Sound(h + [f], out + [Finished(r)],
                       if slot == 0 then s0 - {f.id} else s0, if slot == 1 then s1 - {f.id} else s1, base, base)
  {
    var r := Merged((if slot == 0 then s0 else s1)[f.id], f);
    var t0, t1 := if slot == 0 then s0[f.id := r] else s0, if slot == 1 then s1[f.id := r] else s1;
    MergeKeeps(h, out, s0, s1, base, f, slot);
    MergeTidy(h, out, s0, s1, t0, t1, base, f);
    MergeFramed(h, out, s0, s1, base, f, slot);
    if f.closeType != ForcedReport {
      MergedAddsUp((if slot == 0 then s0 else s1)[f.id], f, OfDestination(Bytes));
      ReportAppend(h, f, f.id, base + slot);
      SendTidy(h + [f], out, t0, t1, base, base, f.id, slot);
      SendFramed(h + [f], out, t0, t1, base, f.id, slot);
      assert slot == 0 ==> t0 - {f.id} == s0 - {f.id};
      assert slot == 1 ==> t1 - {f.id} == s1 - {f.id};
    }
  }

  lemma RotateSound(h: seq<TaggedFlow>, out: seq<TaggedFlow>, s1: Slot, base: nat)
    requires Sound(h, out, map[], s1, base, base + 1)
    ensures Sound(h, out, s1, map[], base + 1, base + 1)
  {
    RotateBalances(h, out, s1, base);
    RotateTidy(h, out, s1, base);
    RotateFramed(h, out, s1, base);
  }

  lemma JumpSound(h: seq<TaggedFlow>, out: seq<TaggedFlow>, base: nat, base': nat)
    requires Sound(h, out, map[], map[], base, base) && base <= base'
    ensures Sound(h, out, map[], map[], base', base')
  {
    JumpBalances(h, out, base, base');
    JumpTidy(h, out, base, base');
    JumpFramed(h, out, base, base');
  }

  /** A minute the slots have left is over: its reports are all in the records sent for it, a flow has
      such a record if and only if it reported in that minute, and only one if its reports were in order, which
      then begins as the first of them and ends as the last. */
  lemma PastMinute(h: seq<TaggedFlow>, out: seq<TaggedFlow>, s0: Slot, s1: Slot, base: nat, id: nat, m: nat, q: Measure)
    requires Sound(h, out, s0, s1, base, base) && m < base
    ensures SumOf(out, id, m, q) == SumOf(h, id, m, q)
    ensures Records(out, id, m) > 0 <==> Reported(h, id, m)
    ensures Orderly(h, id) ==> Records(out, id, m) <= 1
    ensures Orderly(h, id) ==> AllSentRight(out, h, id, m)
  {
    hide AllSentRight;
    PastMinutesComplete(h, out, s0, s1, base, id, m, q);
    assert Tidy(h, out, s0, s1, base, base, id, m);
    assert Framed(h, out, s0, s1, base, id, m);
  }
}
