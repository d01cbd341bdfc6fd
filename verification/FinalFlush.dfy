/** The loads of the records that are sent when the generator ends. The slots still in the window
    are then sent with one running counter, to which each slot adds the connections it leaves open. */
module FinalFlush {
  import opened FlowHistory
  import opened Connections
  import opened QuadGen

  /** The running count of k once slot base + i has been added. */
  function Running(h: History, base: nat, i: nat, k: QgKey): nat
  {
    if i == 0 then Carried(h, base + 1, k) else Running(h, base, i - 1, k) + AtLeastZero(Net(h, base + i, k))
  }

  /** The load that slot s of the last window reports for k; base is the slot at the window start. */
  function FinalLoad(h: History, base: nat, s: nat, k: QgKey): nat
    requires base <= s
  {
    AtLeastOne(Running(h, base, s - base, k))
  }

  lemma CarriedOn(h: History, s: nat, k: QgKey)
    ensures Carried(h, s + 1, k) <= Carried(h, s, k) + AtLeastZero(Net(h, s, k))
    ensures Carried(h, s + 1, k) == Carried(h, s, k) + AtLeastZero(Net(h, s, k)) <==> NothingLost(h, s, k)
  {
    hide Net;
  }

  /** The running count is never below what the slot leaves open. It is just that iff, in every slot
      after the first, either the key had nothing open or no more closed than opened. */
  lemma {:induction false} RunningIsCarriedIff(h: History, base: nat, i: nat, k: QgKey)
    ensures Running(h, base, i, k) >= Carried(h, base + i + 1, k)
    ensures Running(h, base, i, k) == Carried(h, base + i + 1, k)
       <==> forall s :: base < s <= base + i ==> NothingLost(h, s, k)
    decreases i
  {
    hide Carried, Net, NothingLost, AtLeastZero;
    if i > 0 {
      RunningIsCarriedIff(h, base, i - 1, k);
      var s := base + i;
      CarriedOn(h, s, k);
    }
  }

  predicate NothingLost(h: History, s: nat, k: QgKey)
  {
    Carried(h, s, k) == 0 || Net(h, s, k) >= 0
  }

  // ----- The load of a slot and the running count -----

  /** The end of a connection, in the report that begins it or in a later one. */
  predicate Ending(f: Flow) { f.tcpOrUdp && f.closeType != ForcedReport }

  /** What begins in a slot is what it adds to the open connections and what ends in it. */
  lemma {:induction false} BeginOpenEnd(fs: seq<Flow>)
    ensures Count(fs, IsNewFlow) == Count(fs, Opens) - Count(fs, Closes) + Count(fs, Ending)
  {
    if fs != [] { BeginOpenEnd(fs[..|fs| - 1]); }
  }

  /** Of the first slot of the last window, the final load is the load iff nothing of the key ends in the
      slot or at most one connection is open in it at all. */
  lemma FirstLoadIff(h: History, base: nat, k: QgKey)
    ensures FinalLoad(h, base, base, k) == Load(h, base, k)
       <==> Count(Contrib(h, base, k), Ending) == 0 || Carried(h, base, k) + News(h, base, k) <= 1
  {
    var c, news, ended := Carried(h, base, k), News(h, base, k), Count(Contrib(h, base, k), Ending);
    assert FinalLoad(h, base, base, k) == AtLeastOne(AtLeastZero(c + news - ended)) by {
      hide Count, Contrib;
      BeginOpenEnd(Contrib(h, base, k));
      assert Running(h, base, base - base, k) == Carried(h, base + 1, k) == AtLeastZero(c + Net(h, base, k));
    }
    hide Carried, News, Count, Contrib, Running, AtLeastOne, AtLeastZero;
    LoadsAgree(c, news, ended);
  }

  lemma LoadsAgree(c: nat, news: nat, ended: nat)
    ensures AtLeastOne(AtLeastZero(c + news - ended)) == AtLeastOne(c + news) <==> ended == 0 || c + news <= 1
  {
  }

  /** Nothing of the key ends in slots base to base + i. */
  ghost predicate NothingEnds(h: History, base: nat, i: nat, k: QgKey)
  {
    forall s :: base <= s <= base + i ==> Count(Contrib(h, s, k), Ending) == 0
  }

  lemma {:induction false} RunningWhenNothingEnds(h: History, base: nat, i: nat, k: QgKey)
    requires NothingEnds(h, base, i, k)
    ensures Running(h, base, i, k) == Carried(h, base + i, k) + News(h, base + i, k) == Carried(h, base + i + 1, k)
    decreases i
  {
    hide Count, Contrib;
    BeginOpenEnd(Contrib(h, base + i, k));
    assert Carried(h, base + i + 1, k) == AtLeastZero(Carried(h, base + i, k) + Net(h, base + i, k));
    if i > 0 { RunningWhenNothingEnds(h, base, i - 1, k); }
  }

  /** The final load is the load of the slot if nothing of the key ends in the last window up to it. */
  lemma FinalLoadIsLoad(h: History, base: nat, s: nat, k: QgKey)
    requires base <= s && NothingEnds(h, base, s - base, k)
    ensures FinalLoad(h, base, s, k) == Load(h, s, k)
  {
    hide Count, Contrib, Carried, Running;
    RunningWhenNothingEnds(h, base, s - base, k);
  }

  /** Two connections that begin and end in one slot: their load is 2, and 1 if they are sent at the end. */
  lemma FinalLoadDiffers(f: Flow)
    requires Ending(f) && f.isNew
    ensures var h := [Placed(0, f), Placed(0, f)]; Load(h, 0, f.key) == 2 && FinalLoad(h, 0, 0, f.key) == 1
  {
    hide Contrib, Net, News;
    var h, k := [Placed(0, f), Placed(0, f)], f.key;
    ContribOfTwo(Placed(0, f), Placed(0, f), 0, k);
    TwoBeginAndEnd(h, f);
    assert Carried(h, 1, k) == AtLeastZero(Carried(h, 0, k) + Net(h, 0, k));
  }

  lemma TwoBeginAndEnd(h: History, f: Flow)
    requires Ending(f) && f.isNew && Contrib(h, 0, f.key) == [f, f]
    ensures News(h, 0, f.key) == 2 && Net(h, 0, f.key) == 0
  {
    hide Count, Contrib;
    assert [f, f] == [f] + [f];
    CountOne(f, IsNewFlow);
    CountAppend([f], f, IsNewFlow);
    CountOne(f, Ending);
    CountAppend([f], f, Ending);
    BeginOpenEnd([f, f]);
  }

  // ----- The running counter -----

  /** c is the running counter before slot base + i is added. */
  ghost predicate Runs(c: ConnMap, h: History, base: nat, i: nat)
  {
    forall k :: RunsAt(c, h, base, i, k)
  }

  ghost predicate RunsAt(c: ConnMap, h: History, base: nat, i: nat, k: QgKey)
  {
    Sum(c, k) == Living(c, k) == if i == 0 then 0 else Running(h, base, i - 1, k)
  }

  lemma RunsFrom(h: History, base: nat)
    ensures Runs(map[], h, base, 0)
  {
    forall k
      ensures RunsAt(map[], h, base, 0, k)
    {
    }
  }

  /** Nothing is too old at time zero. */
  lemma RunsOn(c: ConnMap, conn: ConnMap, m: ConnMap, h: History, base: nat, i: nat)
    requires Runs(c, h, base, i) && CountsSlot(conn, h, base + i, i == 0) && IsMerge(m, c, 0, conn, conn.Keys)
    ensures Runs(m, h, base, i + 1)
  {
    var i' := i + 1;
    forall k
      ensures RunsAt(m, h, base, i', k)
    {
      assert RunsAt(c, h, base, i, k) && SlotCount(conn, h, base + i, k, i == 0);
      assert MergedEntry(m, c, 0, conn, conn.Keys, k);
      assert i == 0 ==> Carried(h, base + 1, k) == AtLeastZero(Carried(h, base, k) + Net(h, base, k));
    }
  }

  lemma RunsAlike(c: ConnMap, c': ConnMap, h: History, base: nat, i: nat)
    requires Runs(c, h, base, i) && SameCounts(c, c')
    ensures Runs(c', h, base, i)
  {
    forall k
      ensures RunsAt(c', h, base, i, k)
    {
      assert RunsAt(c, h, base, i, k);
    }
  }

  ghost predicate RightAtEnd(acc: AccFlow, s: nat, h: History, base: nat)
  {
    && base <= s
    && (acc.first.tcpOrUdp ==>
          acc.load == FinalLoad(h, base, s, acc.key) && acc.flowCount == AtLeastZero(acc.load - acc.traffic.closedFlow))
  }

  /** From record first on, every TCP or UDP record carries the running count of its slot. */
  ghost predicate FinallyLoaded(out: seq<AccFlow>, slots: seq<nat>, h: History, base: nat, first: nat)
  {
    first <= |out| == |slots| && forall i :: first <= i < |out| ==> RightAtEnd(out[i], slots[i], h, base)
  }

  lemma FlushLoads(out: seq<AccFlow>, slots: seq<nat>, h: History, base: nat, i: nat, first: nat,
                   batch: seq<AccFlow>, stash: QuadrupleStash, c: ConnMap)
    requires FinallyLoaded(out, slots, h, base, first) && Stashes(stash, h, base + i)
    requires Lists(batch, stash, stash.Keys, c) && Runs(c, h, base, i + 1)
    ensures FinallyLoaded(out + batch, slots + Repeat(base + i, |batch|), h, base, first)
  {
    hide Running, Contrib, Fold;
    var out', slots' := out + batch, slots + Repeat(base + i, |batch|);
    forall j | first <= j < |out'|
      ensures RightAtEnd(out'[j], slots'[j], h, base)
    {
      if j >= |out| {
        var k := batch[j - |out|].key;
        assert RunsAt(c, h, base, i + 1, k) && StashEntry(stash, h, base + i, k);
        FoldOf(Contrib(h, base + i, k));
        ContribMembers(h, base + i, k);
      } else {
        assert RightAtEnd(out[j], slots[j], h, base);
      }
    }
  }
}
