/** Aligned power-of-two blocks, and the greedy cover of an interval by them.

    Port ranges and address ranges are both compiled to prefix rules; a prefix
    rule of exponent n is the block of 2^n consecutive values that starts at a
    multiple of 2^n. */
module Blocks {
  import opened Powers

  datatype Block = Block(base: nat, exp: nat) {
    predicate Aligned() { Powers.Aligned(base, exp) }
    predicate Has(x: int) { base <= x < base + Pow2(exp) }
  }

  /** The largest exponent up to n of an aligned block that starts at lo and ends by hi. */
  function FitExp(lo: nat, hi: int, n: nat): (e: nat)
    requires lo <= hi
    ensures e <= n && Aligned(lo, e) && lo + Pow2(e) - 1 <= hi
  {
    if n == 0 || (Aligned(lo, n) && lo + Pow2(n) - 1 <= hi) then n else FitExp(lo, hi, n - 1)
  }

  lemma {:induction false} FitExpLargest(lo: nat, hi: int, n: nat, f: nat)
    requires lo <= hi && FitExp(lo, hi, n) < f <= n
    ensures !(Aligned(lo, f) && lo + Pow2(f) - 1 <= hi)
    decreases n
  {
    if f < n { FitExpLargest(lo, hi, n - 1, f); }
  }

  /** The greedy cover of lo..hi (both ends included) by blocks of exponent at most w. */
  function Greedy(lo: nat, hi: int, w: nat): seq<Block>
    decreases hi - lo + 1
  {
    if lo > hi then []
    else
      var e := FitExp(lo, hi, w);
      [Block(lo, e)] + Greedy(lo + Pow2(e), hi, w)
  }

  lemma GreedyEmpty(lo: nat, hi: int, w: nat)
    requires lo > hi
    ensures Greedy(lo, hi, w) == []
  {
  }

  lemma GreedyStep(lo: nat, hi: int, w: nat)
    requires lo <= hi
    ensures Greedy(lo, hi, w) != []
    ensures Greedy(lo, hi, w)[0] == Block(lo, FitExp(lo, hi, w))
    ensures Greedy(lo, hi, w)[1..] == Greedy(lo + Pow2(FitExp(lo, hi, w)), hi, w)
  {
  }

  ghost predicate Hit(bs: seq<Block>, x: int)
  {
    exists k :: 0 <= k < |bs| && bs[k].Has(x)
  }

  ghost predicate Covers(bs: seq<Block>, lo: int, hi: int)
  {
    forall x :: lo <= x <= hi <==> Hit(bs, x)
  }

  lemma HitAppend(bs: seq<Block>, b: Block, x: int)
    ensures Hit(bs + [b], x) <==> Hit(bs, x) || b.Has(x)
  {
    var all := bs + [b];
    if k :| 0 <= k < |bs| && bs[k].Has(x) { assert all[k].Has(x); }
    if b.Has(x) { assert all[|bs|].Has(x); }
  }

  /** A prefix rule of at most w wildcard bits that stays inside lo..hi. */
  predicate Inside(b: Block, lo: int, hi: int, w: nat)
  {
    b.Aligned() && b.exp <= w && lo <= b.base && b.base + Pow2(b.exp) - 1 <= hi
  }

  ghost predicate HitBySet(bs: set<Block>, x: int)
  {
    exists b :: b in bs && b.Has(x)
  }

  ghost predicate InOrder(bs: seq<Block>)
  {
    forall i, j :: 0 <= i < j < |bs| ==> bs[i].base + Pow2(bs[i].exp) <= bs[j].base
  }

  /** The greedy cover is made of aligned blocks inside the interval, in order and disjoint. */
  lemma {:induction false} GreedyShape(lo: nat, hi: int, w: nat)
    ensures forall k :: 0 <= k < |Greedy(lo, hi, w)| ==> Inside(Greedy(lo, hi, w)[k], lo, hi, w)
    ensures InOrder(Greedy(lo, hi, w))
    decreases hi - lo + 1
  {
    if lo <= hi {
      var g := Block(lo, FitExp(lo, hi, w));
      var next := lo + Pow2(g.exp);
      var rest, all := Greedy(next, hi, w), Greedy(lo, hi, w);
      GreedyShape(next, hi, w);
      assert all == [g] + rest;
      forall k | 0 <= k < |all|
        ensures Inside(all[k], lo, hi, w)
        ensures k > 0 ==> next <= all[k].base
      {
        if k > 0 { assert Inside(rest[k - 1], next, hi, w); }
      }
      forall i, j | 0 <= i < j < |all|
        ensures all[i].base + Pow2(all[i].exp) <= all[j].base
      {
        if i > 0 { assert all[i] == rest[i - 1] && all[j] == rest[j - 1]; }
      }
    }
  }

  /** ... and it covers exactly the interval. */
  lemma {:induction false} GreedyCovers(lo: nat, hi: int, w: nat)
    ensures Covers(Greedy(lo, hi, w), lo, hi)
    decreases hi - lo + 1
  {
    if lo <= hi {
      var g := Block(lo, FitExp(lo, hi, w));
      var rest := Greedy(lo + Pow2(g.exp), hi, w);
      GreedyCovers(lo + Pow2(g.exp), hi, w);
      var all := [g] + rest;
      assert Greedy(lo, hi, w) == all;
      forall x
        ensures lo <= x <= hi <==> Hit(all, x)
      {
        if lo + Pow2(g.exp) <= x <= hi {
          assert Hit(rest, x);
          var k :| 0 <= k < |rest| && rest[k].Has(x);
          assert all[k + 1].Has(x);
        } else if lo <= x <= hi {
          assert all[0].Has(x);
        }
        if k :| 0 <= k < |all| && all[k].Has(x) {
          if k > 0 { assert rest[k - 1].Has(x); assert Hit(rest, x); }
        }
      }
    }
  }

  /** Two aligned blocks that meet are nested. */
  lemma Nested(a: Block, b: Block, x: int)
    requires a.Aligned() && b.Aligned() && a.exp <= b.exp && a.Has(x) && b.Has(x)
    ensures b.base <= a.base && a.base + Pow2(a.exp) <= b.base + Pow2(b.exp)
  {
    AlignedSmaller(b.base, a.exp, b.exp);
    AlignedPow2(b.exp, a.exp);
    AlignedSum(b.base, Pow2(b.exp), a.exp);
    if a.base < b.base { AlignedApart(a.base, b.base, a.exp); }
    AlignedApart(a.base, b.base + Pow2(b.exp), a.exp);
  }

  /** A block that reaches past the first greedy block starts past it. */
  lemma NoStraddle(lo: nat, hi: int, w: nat, b: Block, x: int)
    requires lo <= hi && Inside(b, lo, hi, w)
    requires b.Has(x) && x >= lo + Pow2(FitExp(lo, hi, w))
    ensures b.base >= lo + Pow2(FitExp(lo, hi, w))
  {
    var g := Block(lo, FitExp(lo, hi, w));
    if b.base < lo + Pow2(g.exp) {
      if b.exp <= g.exp { Nested(b, g, b.base); } else { Nested(g, b, b.base); FitExpLargest(lo, hi, w, b.exp); }
    }
  }

  /** No cover of the interval by aligned blocks that stay inside it has fewer blocks. */
  lemma {:induction false} GreedyMinimal(lo: nat, hi: int, w: nat, cover: set<Block>)
    requires forall b <- cover :: Inside(b, lo, hi, w)
    requires forall x :: lo <= x <= hi ==> HitBySet(cover, x)
    ensures |Greedy(lo, hi, w)| <= |cover|
    decreases hi - lo + 1
  {
    if lo <= hi {
      var next := lo + Pow2(FitExp(lo, hi, w));
      assert HitBySet(cover, lo);
      var first: Block :| first in cover && first.Has(lo);
      var rest := set b | b in cover && b.base >= next;
      forall x | next <= x <= hi
        ensures HitBySet(rest, x)
      {
        assert HitBySet(cover, x);
        var b: Block :| b in cover && b.Has(x);
        NoStraddle(lo, hi, w, b, x);
      }
      GreedyMinimal(next, hi, w, rest);
      ProperSubsetIsSmaller(rest, cover, first);
    }
  }

  lemma ProperSubsetIsSmaller<T>(a: set<T>, b: set<T>, x: T)
    requires a <= b && x in b && x !in a
    ensures |a| < |b|
  {
    assert b == a + (b - a);
    assert x in b - a;
  }

  /** Below an alignment larger than what is left, block sizes strictly shrink. */
  lemma {:induction false} ShrinkingCount(lo: nat, hi: int, w: nat, m: nat)
    requires m <= w && Aligned(lo, m) && hi - lo + 1 < Pow2(m)
    ensures |Greedy(lo, hi, w)| <= m
    decreases hi - lo + 1
  {
    if lo <= hi {
      var e := FitExp(lo, hi, w);
      if e >= m { Pow2Monotonic(m, e); }
      assert hi - lo + 1 < 2 * Pow2(e) by {
        AlignedSmaller(lo, e + 1, m);
        FitExpLargest(lo, hi, w, e + 1);
        assert Pow2(e + 1) == 2 * Pow2(e);
      }
      AlignedPow2(e, e);
      AlignedSum(lo, Pow2(e), e);
      ShrinkingCount(lo + Pow2(e), hi, w, e);
    }
  }

  /** While alignment is the limit, block sizes strictly grow. */
  lemma {:induction false} GrowingCount(lo: nat, hi: int, w: nat, a: nat)
    requires w >= 2 && a < w && Aligned(lo, a) && !Aligned(lo, a + 1) && hi < Pow2(w)
    ensures |Greedy(lo, hi, w)| <= (w - 1 - a) + (w - 1)
    decreases w - a
  {
    if lo + Pow2(a) - 1 <= hi {
      var next := lo + Pow2(a);
      StepAtAlignment(lo, hi, w, a);
      if next <= hi {
        AlignedNext(lo, a);
        var b := Alignment(next, a + 1, w);
        GrowingCount(next, hi, w, b);
      }
    } else {
      ShrinkingCount(lo, hi, w, a);
    }
  }

  lemma StepAtAlignment(lo: nat, hi: int, w: nat, a: nat)
    requires a < w && Aligned(lo, a) && !Aligned(lo, a + 1) && lo + Pow2(a) - 1 <= hi
    ensures Greedy(lo, hi, w) == [Block(lo, a)] + Greedy(lo + Pow2(a), hi, w)
  {
    var e := FitExp(lo, hi, w);
    if e > a { AlignedSmaller(lo, a + 1, e); }
    if e < a { FitExpLargest(lo, hi, w, a); }
  }

  /** The exact power of two that divides a positive number below 2^w. */
  lemma {:induction false} Alignment(x: nat, from: nat, w: nat) returns (b: nat)
    requires 0 < x < Pow2(w) && Aligned(x, from) && from <= w
    ensures from <= b < w && Aligned(x, b) && !Aligned(x, b + 1)
    decreases w - from
  {
    if from == w { AlignedZero(w); AlignedApart(0, x, w); assert false; }
    if !Aligned(x, from + 1) { b := from; } else { b := Alignment(x, from + 1, w); }
  }

  /** An interval of w-bit values never needs more than 2w - 2 blocks. */
  lemma GreedyCount(lo: nat, hi: int, w: nat)
    requires w >= 2 && hi < Pow2(w)
    ensures |Greedy(lo, hi, w)| <= 2 * w - 2
  {
    if lo <= hi {
      if lo == 0 {
        AlignedZero(w);
        if hi == Pow2(w) - 1 {
          if FitExp(lo, hi, w) < w { FitExpLargest(lo, hi, w, w); }
          assert Greedy(Pow2(w), hi, w) == [];
        } else {
          ShrinkingCount(lo, hi, w, w);
        }
      } else {
        var a := Alignment(lo, 0, w);
        GrowingCount(lo, hi, w, a);
      }
    }
  }
}
