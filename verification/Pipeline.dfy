/** The generator feeding the collector. */
module Pipeline {
  import opened Wrappers
  import opened FlowHistory
  import opened QuadGen
  import opened Generator
  import opened Collector

  /** Everything that the records add, slot by slot; fill is what one record adds. */
  function AllRecords(sent: seq<AccFlow>, slotOf: seq<nat>, kind: MetricsType, fill: AccFlow -> seq<Item>): seq<Added>
    requires |sent| == |slotOf|
  {
    if sent == [] then []
    else
      var n := |sent| - 1;
      AllRecords(sent[..n], slotOf[..n], kind, fill) + AllAt(kind.Seconds(slotOf[n]), fill(sent[n]))
  }

  /** Each flow was put in the slot of its time, none before slot first. */
  ghost predicate Fits(h: History, kind: MetricsType, first: nat)
  {
    forall p :: p in h ==> p.slot == kind.Slots(Secs(p.flow.time)) && p.slot >= first
  }

  lemma {:induction false} AcceptedFits(es: seq<Event>, first: nat, kind: MetricsType, delay: nat)
    ensures Fits(Accepted(es, kind.Seconds(first), kind, delay), kind, first)
  {
    if es != [] {
      var front := es[..|es| - 1];
      AcceptedFits(front, first, kind, delay);
    }
  }

  /** The first flow of a record gives the slot of the record. */
  lemma RecordTime(acc: AccFlow, s: nat, h: History, kind: MetricsType, first: nat)
    requires RecordOf(acc, s, h) && Fits(h, kind, first)
    ensures Floor(kind, Secs(acc.first.time)) == kind.Seconds(s) <= Secs(acc.first.time) && s >= first
  {
    var c := Contrib(h, s, acc.key);
    FoldOf(c);
    ContribMembers(h, s, acc.key);
    assert Content(acc).first == c[0] && c[0] in c;
    assert Placed(s, c[0]) in h;
  }

  /** Fed the records of a generator, a collector that started no later drops none, and its
      documents group exactly what the records add. */
  method Feed(stash: Stash, sent: seq<AccFlow>, ghost slotOf: seq<nat>, ghost h: History, ghost bound: nat,
              ghost first: nat, fill: AccFlow -> seq<Item>)
    requires stash.Valid() && stash.added == [] && stash.startTime <= stash.kind.Seconds(first)
    requires Reports(sent, slotOf, h, bound) && Fits(h, stash.kind, first)
    modifies stash
    ensures stash.Valid() && stash.dropBeforeWindow == old(stash.dropBeforeWindow)
    ensures stash.added == AllRecords(sent, slotOf, stash.kind, fill)
  {
    hide Documents, Holds, UpTo, Delivers, AllAt, Floor, RecordOf;
    for i := 0 to |sent|
      invariant stash.Valid() && stash.dropBeforeWindow == old(stash.dropBeforeWindow)
      invariant stash.added == AllRecords(sent[..i], slotOf[..i], stash.kind, fill)
      invariant stash.startTime <= stash.kind.Seconds(if i == 0 then first else slotOf[i - 1])
    {
      RecordTime(sent[i], slotOf[i], h, stash.kind, first);
      assert sent[..i + 1][..i] == sent[..i] && slotOf[..i + 1][..i] == slotOf[..i];
      stash.Collect(Some(fill(sent[i])), Secs(sent[i].first.time));
    }
    assert sent[..|sent|] == sent && slotOf[..|slotOf|] == slotOf;
  }

  /** The documents group what the records of the accepted flows add, by slot and key. */
  ghost predicate Groups(docs: seq<Document>, end: nat, sent: seq<AccFlow>, slotOf: seq<nat>, bound: nat, h: History,
                         kind: MetricsType, fill: AccFlow -> seq<Item>)
  {
    && Reports(sent, slotOf, h, bound) && (forall p :: p in h ==> p.slot < bound)
    && Documents(docs, AllRecords(sent, slotOf, kind, fill), end)
    && (forall a :: a in AllRecords(sent, slotOf, kind, fill) ==> a.timestamp < end)
  }

  /** A whole run through both: unless the window gets stuck, for each slot and document key exactly one
      document, holding the sum of what the records of that slot add under that key; nothing is dropped. */
  method RunPipeline(kind: MetricsType, slots: nat, delay: nat, first: nat, es: seq<Event>,
                     collectorFirst: nat, capacity: nat, fill: AccFlow -> seq<Item>)
    returns (sent: Option<seq<AccFlow>>, ghost slotOf: seq<nat>, ghost bound: nat, ghost docs: seq<Document>,
             ghost end: nat, batches: seq<seq<Document>>, dropped: nat)
    requires Config(kind, slots, delay) && collectorFirst <= first
    ensures sent.None? <==> Panics(es, kind.Seconds(first), kind, slots)
    ensures sent.Some? ==>
      Groups(docs, end, sent.value, slotOf, bound, Accepted(es, kind.Seconds(first), kind, delay), kind, fill)
    ensures Delivers(batches, docs, capacity) && dropped == 0
  {
    hide Documents, Reports, Delivers, Holds, UpTo, Fits, Accepted, AllRecords, NeverLate, Loaded, Panics;
    var stash := new Stash(kind, delay, collectorFirst, capacity);
    docs, end, bound, batches, dropped := stash.docs, 0, 0, stash.batches, 0;
    ghost var last, moved;
    sent, slotOf, last, moved := RunToEnd(kind, slots, delay, first, es);
    if sent.None? { return; }
    bound := last + slots;
    AcceptedFits(es, first, kind, delay);
    assert collectorFirst <= first ==> kind.Seconds(collectorFirst) <= kind.Seconds(first);
    Feed(stash, sent.value, slotOf, Accepted(es, kind.Seconds(first), kind, delay), bound, first, fill);
    stash.Finish();
    end := stash.startTime + 1;
    docs, batches, dropped := stash.docs, stash.batches, stash.dropBeforeWindow;
  }
}
