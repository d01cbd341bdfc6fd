/** The throttling queue behind the flow log: a reservoir that keeps at most a fixed number of the
    records of each four-second period. */
module Throttle {
  const BUCKET := 4
  const MIN_THRESHOLD := 100
  const MAX_THRESHOLD := 1_000_000

  function Min(a: nat, b: nat): nat { if a < b then a else b }

  /** now.as_secs() >> 2. */
  function Period(secs: nat): nat { secs / BUCKET }

  /** The throttle after a period ends, given the configured threshold. */
  function Updated(throttle: nat, threshold: nat): nat
  {
    if MIN_THRESHOLD <= threshold <= MAX_THRESHOLD then threshold * BUCKET else throttle
  }

  /** Vec::truncate. */
  function Cut<T>(s: seq<T>, n: nat): seq<T> { if |s| <= n then s else s[..n] }

  /** Each kept item is an arrival, no arrival twice. */
  ghost predicate Sample<T>(kept: seq<T>, arrivals: seq<T>, picks: seq<nat>)
  {
    && |picks| == |kept|
    && (forall i {:trigger picks[i]} :: 0 <= i < |picks| ==> picks[i] < |arrivals| && kept[i] == arrivals[picks[i]])
    && (forall i, j :: 0 <= i < j < |picks| ==> picks[i] != picks[j])
  }

  /** Keeping the newest arrival in a new place or in place of another keeps a sample. */
  lemma SampleGrows<T>(kept: seq<T>, arrivals: seq<T>, picks: seq<nat>, x: T)
    requires Sample(kept, arrivals, picks)
    ensures Sample(kept, arrivals + [x], picks)
    ensures Sample(kept + [x], arrivals + [x], picks + [|arrivals|])
  {
  }

  lemma SampleReplaces<T>(kept: seq<T>, arrivals: seq<T>, picks: seq<nat>, x: T, r: nat)
    requires Sample(kept, arrivals, picks) && r < |kept|
    ensures Sample(kept[r := x], arrivals + [x], picks[r := |arrivals|])
  {
  }

  predicate Replaced<T(==)>(kept: seq<T>, r: nat, x: T, now: seq<T>)
  {
    r < |kept| && now == kept[r := x]
  }

  /** The items of a period that are kept are, as many times as they occur, among its arrivals. */
  lemma {:induction false} SampleIsPart<T>(kept: seq<T>, arrivals: seq<T>, picks: seq<nat>)
    requires Sample(kept, arrivals, picks)
    ensures multiset(kept) <= multiset(arrivals)
  {
    if kept != [] {
      var n := |kept| - 1;
      var p := picks[n];
      var without := arrivals[..p] + arrivals[p + 1..];
      var moved := seq(n, i requires 0 <= i < n => if picks[i] < p then picks[i] else picks[i] - 1);
      forall i | 0 <= i < n
        ensures moved[i] < |without| && kept[..n][i] == without[moved[i]]
      {
        assert picks[i] != p;
      }
      SampleIsPart(kept[..n], without, moved);
      assert kept == kept[..n] + [kept[n]];
      assert arrivals == arrivals[..p] + [arrivals[p]] + arrivals[p + 1..];
      assert multiset(arrivals) == multiset(without) + multiset{arrivals[p]};
    }
  }

  lemma CutIsPart<T>(s: seq<T>, n: nat)
    ensures multiset(Cut(s, n)) <= multiset(s)
  {
    if n < |s| {
      assert s == s[..n] + s[n..];
    }
  }

  /** No item of s occurs in it more often than in t. */
  ghost predicate Part<T>(s: seq<T>, t: seq<T>) { multiset(s) <= multiset(t) }

  lemma PartsJoin<T>(s: seq<T>, s': seq<T>, t: seq<T>, t': seq<T>)
    requires Part(s, t) && Part(s', t')
    ensures Part(s + s', t + t')
  {
  }

  /** The kept items are a sample of the period's arrivals, as many as the throttle lets be and all of
      them while there are no more; and every item that was taken is accounted for. */
  ghost predicate Ledger<T>(throttle: nat, count: nat, kept: seq<T>, output: seq<T>, past: seq<T>, arrivals: seq<T>,
                            picks: seq<nat>, offered: nat, taken: nat, cut: nat)
  {
    && |kept| == Min(count, throttle) && |arrivals| == count
    && Sample(kept, arrivals, picks)
    && (count <= throttle ==> kept == arrivals)
    && taken == |output| + |kept| + cut
    && offered == |past| + |arrivals| && taken <= offered
    && Part(output, past)
    && (taken == offered && cut == 0 ==> output == past && kept == arrivals)
  }

  /** Until the period has had as many arrivals as the throttle allows, all are kept. */
  lemma LedgerKeeps<T>(throttle: nat, count: nat, kept: seq<T>, output: seq<T>, past: seq<T>, arrivals: seq<T>,
                       picks: seq<nat>, offered: nat, taken: nat, cut: nat)
    requires Ledger(throttle, count, kept, output, past, arrivals, picks, offered, taken, cut)
    ensures |picks| == |kept| == if count < throttle then count else throttle
  {
  }

  /** What was taken is out, kept or cut; and what is out or kept is part of what arrived, in order. */
  lemma LedgerTells<T>(throttle: nat, count: nat, kept: seq<T>, output: seq<T>, past: seq<T>, arrivals: seq<T>,
                       picks: seq<nat>, offered: nat, taken: nat, cut: nat)
    requires Ledger(throttle, count, kept, output, past, arrivals, picks, offered, taken, cut)
    ensures taken == |output| + |kept| + cut && Part(output + kept, past + arrivals)
    ensures taken == offered && cut == 0 ==> output + kept == past + arrivals
  {
    hide Part, Sample;
    SampleIsPart(kept, arrivals, picks);
    PartsJoin(output, kept, past, arrivals);
  }

  lemma LedgerTakes<T>(throttle: nat, count: nat, kept: seq<T>, output: seq<T>, past: seq<T>, arrivals: seq<T>,
                       picks: seq<nat>, offered: nat, taken: nat, cut: nat, f: T)
    requires Ledger(throttle, count, kept, output, past, arrivals, picks, offered, taken, cut) && count < throttle
    ensures Ledger(throttle, count + 1, kept + [f], output, past, arrivals + [f], picks + [|arrivals|], offered + 1,
                   taken + 1, cut)
  {
    SampleGrows(kept, arrivals, picks, f);
  }

  lemma LedgerRefuses<T>(throttle: nat, count: nat, kept: seq<T>, output: seq<T>, past: seq<T>, arrivals: seq<T>,
                         picks: seq<nat>, offered: nat, taken: nat, cut: nat, f: T, r: nat)
    requires Ledger(throttle, count, kept, output, past, arrivals, picks, offered, taken, cut) && count >= throttle
    ensures r >= throttle ==> Ledger(throttle, count + 1, kept, output, past, arrivals + [f], picks, offered + 1,
                                     taken, cut)
    ensures r < throttle ==>
      Ledger(throttle, count + 1, kept[r := f], output, past, arrivals + [f], picks[r := |arrivals|], offered + 1,
             taken, cut)
  {
    SampleGrows(kept, arrivals, picks, f);
    if r < throttle {
      SampleReplaces(kept, arrivals, picks, f, r);
    }
  }

  lemma LedgerEnds<T>(throttle: nat, count: nat, kept: seq<T>, output: seq<T>, past: seq<T>, arrivals: seq<T>,
                      picks: seq<nat>, offered: nat, taken: nat, cut: nat, limit: nat)
    requires Ledger(throttle, count, kept, output, past, arrivals, picks, offered, taken, cut)
    ensures Ledger(limit, 0, [], output + Cut(kept, limit), past + arrivals, [], [], offered, taken,
                   cut + |kept| - |Cut(kept, limit)|)
  {
    CutIsPart(kept, limit);
    SampleIsPart(kept, arrivals, picks);
    PartsJoin(output, Cut(kept, limit), past, arrivals);
  }

  class ThrottlingQueue<T(==)> {
    var throttle: nat
    var lastFlush: nat
    var periodCount: nat
    var stashs: seq<T>
    var output: seq<T>

    /** The arrivals of earlier periods. */
    ghost var past: seq<T>
    /** This period's arrivals, and which of them are kept. */
    ghost var arrivals: seq<T>
    ghost var picks: seq<nat>
    /** How many calls of Send there were, how many returned true, and how many kept items were cut. */
    ghost var offered: nat
    ghost var taken: nat
    ghost var cut: nat

    ghost predicate Valid()
      reads this
    {
      Ledger(throttle, periodCount, stashs, output, past, arrivals, picks, offered, taken, cut)
    }

    constructor (threshold: nat)
      ensures Valid() && throttle == threshold * BUCKET && lastFlush == 0 && output == [] && stashs == []
              && past == arrivals == []
      ensures offered == taken == cut == 0
    {
      throttle := threshold * BUCKET;
      lastFlush, periodCount := 0, 0;
      stashs, output, arrivals, picks, past := [], [], [], [], [];
      offered, taken, cut := 0, 0, 0;
    }

    /** Change the throttle if the threshold is in range and new, and cut the kept items to it. */
    method UpdateThrottle(threshold: nat)
      requires |stashs| <= throttle
      modifies this`throttle, this`stashs
      ensures throttle == Updated(old(throttle), threshold)
      ensures stashs == Cut(old(stashs), throttle)
    {
      if threshold < MIN_THRESHOLD || threshold > MAX_THRESHOLD {
        return;
      }
      if throttle == threshold * BUCKET {
        return;
      }
      throttle := threshold * BUCKET;
      if throttle < |stashs| {
        stashs := stashs[..throttle];
      }
    }

    method Flush()
      modifies this`output, this`stashs
      ensures output == old(output) + old(stashs) && stashs == []
    {
      output := output + stashs;
      stashs := [];
    }

    /** The end of a period: what was kept goes out, up to the throttle that now holds, and what a
        lowered throttle cuts is lost. */
    method EndPeriod(threshold: nat, secs: nat)
      requires Valid()
      modifies this
      ensures Valid() && throttle == Updated(old(throttle), threshold) && lastFlush == secs
      ensures periodCount == 0 && stashs == [] && arrivals == [] && past == old(past) + old(arrivals)
      ensures output == old(output) + Cut(old(stashs), throttle)
      ensures cut == old(cut) + |old(stashs)| - |Cut(old(stashs), throttle)|
      ensures offered == old(offered) && taken == old(taken)
    {
      ghost var limit := Updated(throttle, threshold);
      ghost var flushed := Cut(stashs, limit);
      LedgerEnds(throttle, periodCount, stashs, output, past, arrivals, picks, offered, taken, cut, limit);
      cut := cut + |stashs| - |flushed|;
      past := past + arrivals;
      periodCount, arrivals, picks := 0, [], [];
      UpdateThrottle(threshold);
      Flush();
      lastFlush := secs;
    }

    method Keep(f: T)
      requires Valid() && periodCount < throttle
      modifies this`stashs, this`picks, this`taken
      ensures Ledger(throttle, periodCount + 1, stashs, output, past, arrivals + [f], picks, offered + 1, taken, cut)
      ensures stashs == old(stashs) + [f] && taken == old(taken) + 1
    {
      hide Ledger;
      LedgerTakes(throttle, periodCount, stashs, output, past, arrivals, picks, offered, taken, cut, f);
      picks := picks + [|arrivals|];
      stashs := stashs + [f];
      taken := taken + 1;
    }

    /** A refused arrival may still take the place of one that is kept. */
    method Displace(f: T)
      requires Valid() && periodCount >= throttle
      modifies this`stashs, this`picks
      ensures Ledger(throttle, periodCount + 1, stashs, output, past, arrivals + [f], picks, offered + 1, taken, cut)
      ensures stashs == old(stashs) || exists r: nat :: Replaced(old(stashs), r, f, stashs)
    {
      LedgerKeeps(throttle, periodCount, stashs, output, past, arrivals, picks, offered, taken, cut);
      hide Ledger;
      var r: nat :| r < periodCount + 1;
      LedgerRefuses(throttle, periodCount, stashs, output, past, arrivals, picks, offered, taken, cut, f, r);
      if r < throttle {
        picks := picks[r := |arrivals|];
        stashs := stashs[r := f];
        assert Replaced(old(stashs), r, f, stashs);
      }
    }

    /** An arrival within the period. */
    method Offer(f: T) returns (ok: bool)
      requires Valid()
      modifies this`stashs, this`picks, this`taken, this`periodCount, this`arrivals, this`offered
      ensures Valid() && arrivals == old(arrivals) + [f] && offered == old(offered) + 1
      ensures ok <==> old(periodCount) < throttle
      ensures taken == old(taken) + (if ok then 1 else 0)
      ensures ok ==> stashs == old(stashs) + [f]
      ensures !ok ==> stashs == old(stashs) || exists r: nat :: Replaced(old(stashs), r, f, stashs)
    {
      LedgerKeeps(throttle, periodCount, stashs, output, past, arrivals, picks, offered, taken, cut);
      hide Ledger;
      if |stashs| < throttle {
        Keep(f);
        ok := true;
      } else {
        Displace(f);
        ok := false;
      }
      periodCount := periodCount + 1;
      arrivals := arrivals + [f];
      offered := offered + 1;
    }

    /** A call is refused exactly if its period already had as many as the throttle lets through. */
    method Send(f: T, secs: nat, threshold: nat) returns (ok: bool)
      requires Valid()
      modifies this
      ensures Valid() && offered == old(offered) + 1
      ensures taken == old(taken) + (if ok then 1 else 0)
      ensures if Period(secs) == Period(old(lastFlush))
              then arrivals == old(arrivals) + [f] && throttle == old(throttle) && output == old(output)
                && cut == old(cut)
              else && arrivals == [f] && throttle == Updated(old(throttle), threshold)
                   && output == old(output) + Cut(old(stashs), throttle)
                   && cut == old(cut) + |old(stashs)| - |Cut(old(stashs), throttle)|
      ensures Period(lastFlush) == Period(secs) && past + arrivals == old(past + arrivals) + [f]
      ensures periodCount == |arrivals| && (ok <==> periodCount <= throttle)
    {
      if Period(secs) != Period(lastFlush) {
        EndPeriod(threshold, secs);
      }
      ok := Offer(f);
    }
  }

  /** Five hundred items kept under a threshold of 200, which is then lowered to 100: one hundred of them
      are lost. */
  lemma LoweringCuts<T>(kept: seq<T>)
    requires |kept| == 500
    ensures Updated(200 * BUCKET, 100) == 400 && |kept| - |Cut(kept, Updated(200 * BUCKET, 100))| == 100
  {
  }

  /** One call: the item, the clock and the configured threshold. */
  datatype Call<T> = Call(item: T, secs: nat, threshold: nat)

  function Items<T>(cs: seq<Call<T>>): seq<T>
  {
    if cs == [] then [] else Items(cs[..|cs| - 1]) + [cs[|cs| - 1].item]
  }

  /** How many calls just before call i are in the same four seconds. */
  function Earlier<T>(cs: seq<Call<T>>, i: nat): nat
    requires i < |cs|
  {
    if i == 0 || cs[i - 1].secs / 4 != cs[i].secs / 4 then 0 else Earlier(cs, i - 1) + 1
  }

  /** How many items the four seconds of call i let through: four times the threshold that was configured when they
      began or, if that is out of range, as many as before. */
  function Limit<T>(cs: seq<Call<T>>, i: nat, threshold: nat): nat
    requires i < |cs|
  {
    var before := if i == 0 then 4 * threshold else Limit(cs, i - 1, threshold);
    var secs := if i == 0 then 0 else cs[i - 1].secs;
    if cs[i].secs / 4 != secs / 4 && 100 <= cs[i].threshold <= 1_000_000 then 4 * cs[i].threshold else before
  }

  /** How many of the first n calls come when their four seconds have had as many as they let through. */
  function TooMany<T>(cs: seq<Call<T>>, n: nat, threshold: nat): nat
    requires n <= |cs|
  {
    if n == 0 then 0
    else TooMany(cs, n - 1, threshold) + if Earlier(cs, n - 1) >= Limit(cs, n - 1, threshold) then 1 else 0
  }

  lemma NoCalls<T>(cs: seq<Call<T>>, threshold: nat)
    ensures TooMany(cs, 0, threshold) == 0 && Items(cs[..0]) == []
  {
  }

  /** What one more call finds. */
  lemma CallStep<T>(cs: seq<Call<T>>, i: nat, threshold: nat)
    requires i < |cs|
    ensures var same := cs[i].secs / 4 == if i == 0 then 0 else cs[i - 1].secs / 4;
            && Earlier(cs, i) == (if i > 0 && same then Earlier(cs, i - 1) + 1 else 0)
            && Limit(cs, i, threshold)
               == Updated(if i == 0 then 4 * threshold else Limit(cs, i - 1, threshold),
                          if same then 0 else cs[i].threshold)
    ensures TooMany(cs, i + 1, threshold)
         == TooMany(cs, i, threshold) + if Earlier(cs, i) >= Limit(cs, i, threshold) then 1 else 0
    ensures Items(cs[..i + 1]) == Items(cs[..i]) + [cs[i].item]
  {
    assert cs[..i + 1][..i] == cs[..i];
  }

  /** Over any calls, everything that was taken has gone out, is kept, or was cut when the throttle was
      lowered; no item is made up or doubled; if none was refused or cut, all are there in order; and
      nothing is cut if the configured threshold stays what it was at the start. Exactly those calls are
      refused that come when their four seconds have had as many as they let through. */
  method SendAll<T(==)>(cs: seq<Call<T>>, threshold: nat)
    returns (output: seq<T>, kept: seq<T>, refused: nat, ghost cut: nat)
    ensures |output| + |kept| + cut + refused == |cs|
    ensures Part(output + kept, Items(cs))
    ensures refused == 0 && cut == 0 ==> output + kept == Items(cs)
    ensures refused == TooMany(cs, |cs|, threshold)
    ensures (forall i :: 0 <= i < |cs| ==> cs[i].threshold == threshold) ==> cut == 0
  {
    hide Ledger, Part, Earlier, Limit, TooMany, Items;
    var q := new ThrottlingQueue<T>(threshold);
    refused := 0;
    NoCalls(cs, threshold);
    var i := 0;
    while i < |cs|
      invariant i <= |cs| && q.Valid() && fresh(q)
      invariant q.offered == i && q.taken + refused == i
      invariant q.past + q.arrivals == Items(cs[..i]) && refused == TooMany(cs, i, threshold)
      invariant q.throttle == (if i == 0 then 4 * threshold else Limit(cs, i - 1, threshold))
      invariant |q.arrivals| == (if i == 0 then 0 else Earlier(cs, i - 1) + 1)
      invariant q.lastFlush / 4 == (if i == 0 then 0 else cs[i - 1].secs / 4)
      invariant (forall j :: 0 <= j < |cs| ==> cs[j].threshold == threshold) ==>
        q.cut == 0 && q.throttle == threshold * BUCKET
    {
      LedgerKeeps(q.throttle, q.periodCount, q.stashs, q.output, q.past, q.arrivals, q.picks, q.offered, q.taken,
                  q.cut);
      var ok := q.Send(cs[i].item, cs[i].secs, cs[i].threshold);
      refused := refused + if ok then 0 else 1;
      CallStep(cs, i, threshold);
      i := i + 1;
    }
    assert cs[..i] == cs;
    LedgerTells(q.throttle, q.periodCount, q.stashs, q.output, q.past, q.arrivals, q.picks, q.offered, q.taken, q.cut);
    output, kept, cut := q.output, q.stashs, q.cut;
  }
}
