/** The normal form of a list of port ranges: the sort-and-carry pass that follows
    parsing in PortRangeList. */
module RangeLists {
  import opened Numbers
  import opened Wrappers
  import opened PortSegments
  import opened PortPartition

  predicate SortedByMin(rs: seq<PortRange>)
  {
    forall i, j :: 0 <= i < j < |rs| ==> rs[i].min <= rs[j].min
  }

  /** r goes after every range that does not start later: the sort is stable. */
  function InsertByMin(rs: seq<PortRange>, r: PortRange): (s: seq<PortRange>)
    ensures |s| == |rs| + 1
  {
    if rs == [] || rs[|rs| - 1].min <= r.min then rs + [r]
    else InsertByMin(rs[..|rs| - 1], r) + [rs[|rs| - 1]]
  }

  function SortByMin(rs: seq<PortRange>): (s: seq<PortRange>)
    ensures |s| == |rs|
  {
    if rs == [] then [] else InsertByMin(SortByMin(rs[..|rs| - 1]), rs[|rs| - 1])
  }

  predicate NoneAbove(rs: seq<PortRange>, m: int)
  {
    forall i :: 0 <= i < |rs| ==> rs[i].min <= m
  }

  lemma {:induction false} InsertNoneAbove(rs: seq<PortRange>, r: PortRange, m: int)
    requires NoneAbove(rs, m) && r.min <= m
    ensures NoneAbove(InsertByMin(rs, r), m)
  {
    if rs != [] && rs[|rs| - 1].min > r.min { InsertNoneAbove(rs[..|rs| - 1], r, m); }
  }

  lemma SortedSnoc(rs: seq<PortRange>, last: PortRange)
    requires SortedByMin(rs) && NoneAbove(rs, last.min)
    ensures SortedByMin(rs + [last])
  {
  }

  lemma {:induction false} InsertSorts(rs: seq<PortRange>, r: PortRange)
    requires SortedByMin(rs)
    ensures SortedByMin(InsertByMin(rs, r))
  {
    if rs != [] && rs[|rs| - 1].min > r.min {
      var front, last := rs[..|rs| - 1], rs[|rs| - 1];
      InsertSorts(front, r);
      InsertNoneAbove(front, r, last.min);
      SortedSnoc(InsertByMin(front, r), last);
    } else {
      SortedSnoc(rs, r);
    }
  }

  lemma {:induction false} InsertKeeps(rs: seq<PortRange>, r: PortRange)
    ensures multiset(InsertByMin(rs, r)) == multiset(rs) + multiset{r}
  {
    if rs != [] && rs[|rs| - 1].min > r.min {
      InsertKeeps(rs[..|rs| - 1], r);
      assert rs == rs[..|rs| - 1] + [rs[|rs| - 1]];
    }
  }

  lemma {:induction false} SortSorts(rs: seq<PortRange>)
    ensures SortedByMin(SortByMin(rs)) && multiset(SortByMin(rs)) == multiset(rs)
  {
    if rs != [] {
      var front, last := rs[..|rs| - 1], rs[|rs| - 1];
      SortSorts(front);
      InsertSorts(SortByMin(front), last);
      InsertKeeps(SortByMin(front), last);
      assert rs == front + [last];
    }
  }

  /** Reference meaning of the pass: cur is the range carried so far. */
  function Carry(cur: PortRange, rest: seq<PortRange>): (out: seq<PortRange>)
    ensures out != []
    decreases |rest|
  {
    if rest == [] then [cur]
    else if cur.max + 1 >= rest[0].min then
      Carry(PortRange(cur.min, if rest[0].max > cur.max then rest[0].max else cur.max), rest[1..])
    else [cur] + Carry(rest[0], rest[1..])
  }

  function Carried(rs: seq<PortRange>): seq<PortRange>
  {
    if rs == [] then [] else Carry(rs[0], rs[1..])
  }

  /** At least one port lies between each range and all later ones. */
  predicate Separated(rs: seq<PortRange>)
  {
    forall i, j :: 0 <= i < j < |rs| ==> rs[i].max + 1 < rs[j].min
  }

  /** The same of neighbours. */
  predicate Spaced(rs: seq<PortRange>)
  {
    forall i :: 0 <= i < |rs| - 1 ==> rs[i].max + 1 < rs[i + 1].min
  }

  lemma HeadOrTail(r: PortRange, rs: seq<PortRange>, p: int)
    ensures Covered([r] + rs, p) <==> r.Has(p) || Covered(rs, p)
  {
    var all := [r] + rs;
    if r.Has(p) { assert all[0].Has(p); }
    if k :| 0 <= k < |rs| && rs[k].Has(p) { assert all[k + 1].Has(p); }
    if k :| 0 <= k < |all| && all[k].Has(p) { if k > 0 { assert rs[k - 1].Has(p); } }
  }

  /** Of two ranges in order that the pass joins, neither loses a port or gains one. */
  lemma JoinCovers(a: PortRange, b: PortRange, p: int)
    requires a.min <= b.min <= a.max + 1
    ensures PortRange(a.min, if b.max > a.max then b.max else a.max).Has(p) <==> a.Has(p) || b.Has(p)
  {
  }

  /** The pass keeps the set of ports. */
  lemma {:induction false} CarryCovers(cur: PortRange, rest: seq<PortRange>, p: int)
    requires SortedByMin([cur] + rest)
    ensures Covered(Carry(cur, rest), p) <==> cur.Has(p) || Covered(rest, p)
    decreases |rest|
  {
    HeadOrTail(cur, [], p);
    if rest != [] {
      var next := rest[0];
      assert rest == [next] + rest[1..];
      HeadOrTail(next, rest[1..], p);
      SortedTail(cur, rest);
      if cur.max + 1 >= next.min {
        JoinCovers(cur, next, p);
        CarryCovers(PortRange(cur.min, if next.max > cur.max then next.max else cur.max), rest[1..], p);
      } else {
        CarryCovers(next, rest[1..], p);
        HeadOrTail(cur, Carry(next, rest[1..]), p);
      }
    }
  }

  lemma SortedTail(cur: PortRange, rest: seq<PortRange>)
    requires rest != [] && SortedByMin([cur] + rest)
    ensures cur.min <= rest[0].min && SortedByMin([rest[0]] + rest[1..])
    ensures forall m: u16 :: SortedByMin([PortRange(cur.min, m)] + rest[1..])
  {
    var all := [cur] + rest;
    assert all[1] == rest[0];
    forall m: u16, i, j | 0 <= i < j < |rest|
      ensures ([PortRange(cur.min, m)] + rest[1..])[i].min <= ([PortRange(cur.min, m)] + rest[1..])[j].min
    {
      assert all[j + 1] == rest[j];
      if i > 0 { assert all[i + 1] == rest[i]; } else { assert all[0] == cur; }
    }
    assert [rest[0]] + rest[1..] == rest == all[1..];
  }

  /** The pass leaves gaps, and the ranges in order. */
  lemma {:induction false} CarrySpaces(cur: PortRange, rest: seq<PortRange>)
    requires SortedByMin([cur] + rest)
    ensures Spaced(Carry(cur, rest)) && SortedByMin(Carry(cur, rest)) && Carry(cur, rest)[0].min == cur.min
    ensures cur.min <= cur.max && WellFormed(rest) ==> WellFormed(Carry(cur, rest))
    decreases |rest|
  {
    if rest != [] {
      var next := rest[0];
      SortedTail(cur, rest);
      assert WellFormed(rest) ==> WellFormed(rest[1..]);
      if cur.max + 1 >= next.min {
        CarrySpaces(PortRange(cur.min, if next.max > cur.max then next.max else cur.max), rest[1..]);
      } else {
        var tail := Carry(next, rest[1..]);
        CarrySpaces(next, rest[1..]);
        SpacedCons(cur, tail);
      }
    }
  }

  lemma SpacedCons(r: PortRange, rs: seq<PortRange>)
    requires rs != [] && Spaced(rs) && SortedByMin(rs) && r.max + 1 < rs[0].min && r.min <= rs[0].min
    ensures Spaced([r] + rs) && SortedByMin([r] + rs)
  {
    var all := [r] + rs;
    assert forall i :: 0 < i < |all| ==> all[i] == rs[i - 1];
  }

  /** Between ordered ranges the gap to the next is one to all later ones. */
  lemma {:induction false} SpacedIsSeparated(rs: seq<PortRange>)
    requires Spaced(rs) && SortedByMin(rs)
    ensures Separated(rs)
  {
    forall i, j | 0 <= i < j < |rs|
      ensures rs[i].max + 1 < rs[j].min
    {
      assert rs[i].max + 1 < rs[i + 1].min <= rs[j].min;
    }
  }

  /** A spaced list is left as it is. */
  lemma {:induction false} CarryKeeps(cur: PortRange, rest: seq<PortRange>)
    requires Spaced([cur] + rest)
    ensures Carry(cur, rest) == [cur] + rest
    decreases |rest|
  {
    if rest != [] {
      var all := [cur] + rest;
      assert all[0].max + 1 < all[1].min;
      assert all[1..] == rest == [rest[0]] + rest[1..];
      assert Spaced(rest) by { assert forall i :: 0 <= i < |rest| ==> rest[i] == all[i + 1]; }
      CarryKeeps(rest[0], rest[1..]);
    }
  }

  lemma {:induction false} SortKeeps(rs: seq<PortRange>)
    requires SortedByMin(rs)
    ensures SortByMin(rs) == rs
  {
    if rs != [] {
      SortKeeps(rs[..|rs| - 1]);
      assert rs == rs[..|rs| - 1] + [rs[|rs| - 1]];
    }
  }

  /** The ranges that the flags have not struck out, in order. */
  function Kept(rs: seq<PortRange>, deleted: seq<bool>): seq<PortRange>
    requires |rs| == |deleted|
  {
    if rs == [] then []
    else Kept(rs[..|rs| - 1], deleted[..|rs| - 1]) + (if deleted[|rs| - 1] then [] else [rs[|rs| - 1]])
  }

  lemma KeptStep(rs: seq<PortRange>, deleted: seq<bool>, i: nat)
    requires |rs| == |deleted| && i < |rs|
    ensures Kept(rs[..i + 1], deleted[..i + 1]) == Kept(rs[..i], deleted[..i]) + (if deleted[i] then [] else [rs[i]])
  {
    assert rs[..i + 1][..i] == rs[..i] && deleted[..i + 1][..i] == deleted[..i];
  }

  /** The pass has dealt with positions below i; list[i] holds the range carried there. */
  ghost predicate Pass(sorted: seq<PortRange>, list: seq<PortRange>, deleted: seq<bool>, i: nat)
  {
    && |list| == |deleted| == |sorted| && i <= |sorted|
    && (forall j :: i < j < |list| ==> list[j] == sorted[j])
    && (forall j :: i <= j < |list| ==> !deleted[j])
    && (if i < |sorted|
        then Carried(sorted) == Kept(list[..i], deleted[..i]) + Carry(list[i], sorted[i + 1..])
        else Carried(sorted) == Kept(list, deleted))
  }

  lemma PassStarts(sorted: seq<PortRange>)
    ensures Pass(sorted, sorted, seq(|sorted|, _ => false), 0)
  {
  }

  lemma PassLast(sorted: seq<PortRange>, list: seq<PortRange>, deleted: seq<bool>)
    requires sorted != [] && Pass(sorted, list, deleted, |sorted| - 1)
    ensures Pass(sorted, list, deleted, |sorted|)
  {
    var n := |sorted|;
    KeptStep(list, deleted, n - 1);
    assert list[..n] == list && deleted[..n] == deleted && sorted[n..] == [];
  }

  lemma PassKeep(sorted: seq<PortRange>, list: seq<PortRange>, deleted: seq<bool>, i: nat)
    requires i + 1 < |sorted| && Pass(sorted, list, deleted, i) && list[i].max + 1 < list[i + 1].min
    ensures Pass(sorted, list, deleted, i + 1)
  {
    KeptStep(list, deleted, i);
    assert sorted[i + 1..][0] == sorted[i + 1] && sorted[i + 1..][1..] == sorted[i + 2..];
  }

  lemma PassMerge(sorted: seq<PortRange>, list: seq<PortRange>, deleted: seq<bool>, i: nat, merged: PortRange)
    requires i + 1 < |sorted| && Pass(sorted, list, deleted, i) && list[i].max + 1 >= list[i + 1].min
    requires merged == PortRange(list[i].min, if list[i + 1].max > list[i].max then list[i + 1].max else list[i].max)
    ensures Pass(sorted, list[i + 1 := merged], deleted[i := true], i + 1)
  {
    var list', deleted' := list[i + 1 := merged], deleted[i := true];
    KeptStep(list', deleted', i);
    assert list'[..i] == list[..i] && deleted'[..i] == deleted[..i];
    assert sorted[i + 1..][0] == sorted[i + 1] && sorted[i + 1..][1..] == sorted[i + 2..];
  }

  /** Some range but the last in sorted order ends at the top port, where max + 1 does not
      fit in 16 bits. */
  predicate TopBeforeLast(rs: seq<PortRange>)
  {
    exists i :: 0 <= i < |rs| - 1 && SortByMin(rs)[i].max == 65535
  }

  /** The pass over a parsed list; None where the 16-bit sum overflows. */
  method Normalise(rs: seq<PortRange>) returns (r: Option<seq<PortRange>>)
    ensures r.None? <==> TopBeforeLast(rs)
    ensures r.Some? ==> r.value == Carried(SortByMin(rs))
  {
    hide Kept, Carried, Carry, SortByMin;
    var list := SortByMin(rs);
    ghost var sorted := list;
    PassStarts(sorted);
    var deleted := seq(|list|, _ => false);
    var hasDelete := false;
    for i := 0 to |list|
      invariant Pass(sorted, list, deleted, i)
      invariant forall j :: 0 <= j < i && j < |sorted| - 1 ==> sorted[j].max < 65535
      invariant i < |sorted| ==> (list[i].max == 65535 <==> sorted[i].max == 65535)
      invariant !hasDelete ==> list == sorted && forall j :: 0 <= j < |sorted| ==> !deleted[j]
    {
      if i == |list| - 1 {
        PassLast(sorted, list, deleted);
        continue;
      }
      if list[i].max + 1 == 65536 { return None; }
      if list[i].max + 1 >= list[i + 1].min {
        var max := if list[i + 1].max > list[i].max then list[i + 1].max else list[i].max;
        var merged := PortRange(list[i].min, max);
        PassMerge(sorted, list, deleted, i, merged);
        list := list[i + 1 := merged];
        deleted := deleted[i := true];
        hasDelete := true;
      } else {
        PassKeep(sorted, list, deleted, i);
      }
    }
    if !hasDelete {
      KeptAll(list, deleted);
      return Some(list);
    }
    var out := NotDeleted(list, deleted);
    return Some(out);
  }

  /** The second loop: the ranges not struck out. */
  method NotDeleted(list: seq<PortRange>, deleted: seq<bool>) returns (out: seq<PortRange>)
    requires |list| == |deleted|
    ensures out == Kept(list, deleted)
  {
    out := [];
    for i := 0 to |list|
      invariant out == Kept(list[..i], deleted[..i])
    {
      KeptStep(list, deleted, i);
      if !deleted[i] { out := out + [list[i]]; }
    }
    assert list[..|list|] == list && deleted[..|list|] == deleted;
  }

  lemma {:induction false} KeptAll(rs: seq<PortRange>, deleted: seq<bool>)
    requires |rs| == |deleted| && forall j :: 0 <= j < |rs| ==> !deleted[j]
    ensures Kept(rs, deleted) == rs
  {
    if rs != [] {
      KeptAll(rs[..|rs| - 1], deleted[..|rs| - 1]);
      assert rs == rs[..|rs| - 1] + [rs[|rs| - 1]];
    }
  }

  /** Normalising keeps the ports, and leaves the ranges in order with a port between each and all later
      ones; ordered ranges stay so. */
  lemma NormalForm(rs: seq<PortRange>)
    ensures var out := Carried(SortByMin(rs));
            && SortedByMin(out) && Separated(out) && (WellFormed(rs) ==> WellFormed(out))
            && forall p :: Covered(out, p) <==> Covered(rs, p)
  {
    SortSorts(rs);
    var s := SortByMin(rs);
    SameMembers(s, rs);
    if s != [] {
      assert [s[0]] + s[1..] == s;
      assert WellFormed(s) ==> WellFormed(s[1..]);
      CarrySpaces(s[0], s[1..]);
      SpacedIsSeparated(Carried(s));
      forall p
        ensures Covered(Carried(s), p) <==> Covered(rs, p)
      {
        CarryCovers(s[0], s[1..], p);
        HeadOrTail(s[0], s[1..], p);
      }
    }
  }

  lemma SameMembers(s: seq<PortRange>, rs: seq<PortRange>)
    requires multiset(s) == multiset(rs)
    ensures (WellFormed(rs) ==> WellFormed(s)) && forall p :: Covered(s, p) <==> Covered(rs, p)
  {
    forall k | 0 <= k < |s|
      ensures s[k] in rs
    {
      assert s[k] in multiset(s);
    }
    forall k | 0 <= k < |rs|
      ensures rs[k] in s
    {
      assert rs[k] in multiset(rs);
    }
  }

  lemma SpacedStays(out: seq<PortRange>)
    requires Spaced(out) && SortedByMin(out)
    ensures Carried(SortByMin(out)) == out && !TopBeforeLast(out)
  {
    hide Carry, SortByMin;
    SortKeeps(out);
    if out != [] {
      assert [out[0]] + out[1..] == out;
      CarryKeeps(out[0], out[1..]);
    }
    forall i | 0 <= i < |out| - 1
      ensures out[i].max < 65535
    {
      assert out[i].max + 1 < out[i + 1].min;
    }
  }

  /** Normalising a normal form returns it unchanged, and does not overflow. */
  lemma NormaliseIdempotent(rs: seq<PortRange>)
    ensures var out := Carried(SortByMin(rs)); Carried(SortByMin(out)) == out && !TopBeforeLast(out)
  {
    hide Carried, SortByMin, Covered, TopBeforeLast;
    NormalForm(rs);
    SpacedStays(Carried(SortByMin(rs)));
  }

  /** 0-65535 followed by 5-9: the first is not the last and ends at the top. */
  lemma TopOverflows(rs: seq<PortRange>)
    requires rs == [PortRange(0, 65535), PortRange(5, 9)]
    ensures TopBeforeLast(rs)
  {
    assert rs[..1] == [rs[0]] && rs[..1][..0] == [];
    assert SortByMin(rs[..1]) == InsertByMin(SortByMin(rs[..1][..0]), rs[0]) == [rs[0]];
    assert SortByMin(rs) == InsertByMin([rs[0]], rs[1]) == [rs[0], rs[1]];
  }
}
