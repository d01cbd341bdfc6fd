/** Address ranges as CIDR blocks, for addresses of any width w (32 and 128 in the source). */
module CidrRanges {
  import opened Wrappers
  import opened Powers
  import opened Blocks

  /** An address with a prefix length, as Ipv4Net::new and Ipv6Net::new accept it:
      bits of ip past the prefix may be set. */
  datatype Cidr = Cidr(ip: nat, prefixLen: nat)

  /** The addresses that belong to a CIDR: its network, host bits cleared. */
  function Network(c: Cidr, w: nat): Block
    requires c.prefixLen <= w
  {
    LowBounds(c.ip, w - c.prefixLen);
    Block(c.ip - Low(c.ip, w - c.prefixLen), w - c.prefixLen)
  }

  /** x | (2^h - 1). */
  function FillLow(x: nat, h: nat): nat
  {
    if h == 0 then x else 2 * FillLow(x / 2, h - 1) + 1
  }

  lemma {:induction false} FillLowIs(x: nat, h: nat)
    ensures FillLow(x, h) == x - Low(x, h) + Pow2(h) - 1
    decreases h
  {
    if h > 0 { FillLowIs(x / 2, h - 1); }
  }

  /** The largest odd number up to end. */
  function OddEnd(end: nat): int
  {
    if end % 2 == 1 then end else end - 1
  }

  /** The blocks that the conversion yields, for every pair of addresses. The search
      for a prefix length starts one short of the full length, so single addresses
      are never produced and the lowest bit of start is never looked at. */
  function Converted(start: nat, end: nat, w: nat): seq<Block>
  {
    if start > end then []
    else
      Greedy(start - start % 2, OddEnd(end), w)
      + (if start % 2 == 0 && end % 2 == 0 then [Block(end, 1)] else [])
  }

  lemma {:induction false} FitExpIs(lo: nat, hi: int, n: nat, h: nat)
    requires lo <= hi && h <= n && Aligned(lo, h) && lo + Pow2(h) - 1 <= hi
    requires !(Aligned(lo, h + 1) && lo + Pow2(h + 1) - 1 <= hi)
    ensures FitExp(lo, hi, n) == h
  {
    var e := FitExp(lo, hi, n);
    if e < h { FitExpLargest(lo, hi, n, h); }
    if e > h {
      AlignedSmaller(lo, h + 1, e);
      Pow2Monotonic(h + 1, e);
    }
  }

  /** Bits 1..h-1 of start are zero: the search has come as far as exponent h. */
  lemma FillAligned(start: nat, h: nat)
    requires h >= 1 && Aligned(start - start % 2, h)
    ensures FillLow(start, h) == start - start % 2 + Pow2(h) - 1
  {
    FillLowIs(start, h);
    LowBounds(start, h);
    RoundDown(start, h, start - start % 2) by { Pow2Monotonic(1, h); }
  }

  /** h is the exponent of the block taken at start: the widest that fits, or 1 at
      an even start that is also the end. */
  predicate FirstBlock(start: nat, end: nat, w: nat, h: nat)
  {
    var s := start - start % 2;
    && 1 <= h < w && Aligned(s, h)
    && (if s <= OddEnd(end) then h == FitExp(s, OddEnd(end), w) else h == 1)
  }

  /** The inputs on which the search runs into a shift by the full width. */
  predicate FullShift(start: nat, end: nat, w: nat)
    requires w >= 1
  {
    start <= 1 && end >= Pow2(w - 1)
  }

  /** Any of the three exits of the search leaves at the right exponent. */
  lemma StopsRight(start: nat, end: nat, w: nat, h: nat)
    requires start <= end && 1 <= h < w
    requires var s := start - start % 2;
             && Aligned(s, h)
             && (h > 1 ==> s + Pow2(h) - 1 <= end)
             && (!Aligned(s, h + 1) || s + Pow2(h) - 1 >= end || (h + 1 < w && s + Pow2(h + 1) - 1 > end))
    ensures FirstBlock(start, end, w, h) && !FullShift(start, end, w)
  {
    var s := start - start % 2;
    OddSum(s, h);
    if s <= OddEnd(end) { FitExpIs(s, OddEnd(end), w, h); }
    if start <= 1 {
      AlignedZero(h + 1);
      Pow2Monotonic(h, w - 1);
      if h + 1 < w { Pow2Monotonic(h + 1, w - 1); }
    }
  }

  lemma Search(start: nat, h: nat)
    requires h >= 1 && Aligned(start - start % 2, h)
    ensures FillLow(start, h) == start - start % 2 + Pow2(h) - 1
    ensures Bit(start, h) <==> !Aligned(start - start % 2, h + 1)
    ensures !Bit(start, h) ==> FillLow(start, h + 1) == start - start % 2 + Pow2(h + 1) - 1
  {
    var s := start - start % 2;
    FillAligned(start, h);
    AlignedStep(s, h);
    assert Bit(start, h) == Bit(s, h);
    if !Bit(start, h) { FillAligned(start, h + 1); }
  }

  /** The exponent w - mask_len that get_first_mask settles on, or None where it
      shifts by the full width. */
  method FirstExp(start: nat, end: nat, w: nat) returns (r: Option<nat>)
    requires w >= 2 && start <= end < Pow2(w)
    ensures r.None? <==> FullShift(start, end, w)
    ensures r.Some? ==> FirstBlock(start, end, w, r.value)
  {
    ghost var s := start - start % 2;
    var len := w - 1;
    while true
      invariant 1 <= len <= w - 1 && Aligned(s, w - len)
      invariant len < w - 1 ==> s + Pow2(w - len) - 1 <= end
      decreases len
    {
      var h := w - len;
      Search(start, h);
      if Bit(start, h) || FillLow(start, h) >= end {
        StopsRight(start, end, w, h);
        return Some(h);
      }
      if len == 1 {
        // the netmask of length 0 shifts by the full width
        ZeroOrOne(start, w);
        return None;
      }
      if FillLow(start, h + 1) > end {
        StopsRight(start, end, w, h);
        return Some(h);
      }
      len := len - 1;
    }
  }

  lemma OddSum(s: nat, h: nat)
    requires h >= 1 && s % 2 == 0
    ensures (s + Pow2(h) - 1) % 2 == 1
  {
  }

  lemma ZeroOrOne(start: nat, w: nat)
    requires start < Pow2(w) && w >= 1 && Aligned(start - start % 2, w)
    ensures start <= 1
  {
    AlignedZero(w);
    if start - start % 2 > 0 { AlignedApart(0, start - start % 2, w); }
  }

  ghost predicate Networks(ips: seq<Cidr>, blocks: seq<Block>, w: nat)
  {
    && |ips| == |blocks|
    && forall k :: 0 <= k < |ips| ==> ips[k].prefixLen <= w && Network(ips[k], w) == blocks[k]
  }

  lemma SameParity(start: nat, h: nat)
    requires h >= 1
    ensures (start + Pow2(h)) % 2 == start % 2
  {
  }

  /** The single /31 at an even start that is also the end is the last block. */
  lemma LastStep(end: nat, w: nat)
    requires end % 2 == 0
    ensures Converted(end, end, w) == [Block(end, 1)]
  {
    assert Greedy(end, end - 1, w) == [];
  }

  /** One turn of the loop takes one block off what is left. */
  lemma ConvertedStep(start: nat, end: nat, w: nat, h: nat)
    requires start <= end && FirstBlock(start, end, w, h)
    ensures Converted(start, end, w) == [Block(start - start % 2, h)] + Converted(start + Pow2(h), end, w)
  {
    hide Pow2, Aligned, Greedy, FitExp;
    var s, e, next := start - start % 2, OddEnd(end), start + Pow2(h);
    SameParity(start, h);
    if s <= e {
      var g := Greedy(s + Pow2(h), e, w);
      GreedyStep(s, e, w);
      assert Greedy(s, e, w) == [Block(s, h)] + g;
      assert next - next % 2 == s + Pow2(h) <= e + 1;
      OddSum(s, h);
      if next > end { GreedyEmpty(s + Pow2(h), e, w); }
    } else {
      LastStep(end, w);
    }
  }

  /** Only a block that ends at the top address stops the loop early, and it is the last. */
  lemma StepBounds(start: nat, end: nat, w: nat, h: nat)
    requires start <= end < Pow2(w) && FirstBlock(start, end, w, h)
    ensures start + Pow2(h) > 1
    ensures FillLow(start, h) == Pow2(w) - 1 ==> start + Pow2(h) > end
    ensures FillLow(start, h) != Pow2(w) - 1 ==> start + Pow2(h) < Pow2(w)
  {
    hide Pow2, Aligned, FillLow, FitExp;
    var s := start - start % 2;
    FillAligned(start, h);
    AlignedPow2(w, h);
    AlignedApart(s, Pow2(w), h);
    SameParity(s, h);
    SameParity(0, w);
  }

  lemma NetworksGrow(ips: seq<Cidr>, blocks: seq<Block>, start: nat, h: nat, w: nat)
    requires 1 <= h <= w && Aligned(start - start % 2, h)
    requires |ips| < |blocks| && blocks[|ips|] == Block(start - start % 2, h)
    requires Networks(ips, blocks[..|ips|], w)
    ensures Networks(ips + [Cidr(start, w - h)], blocks[..|ips| + 1], w)
  {
    FillAligned(start, h);
    FillLowIs(start, h);
  }

  /** The networks so far are the first of the blocks, and the rest are those from cur on. */
  ghost predicate Halfway(ips: seq<Cidr>, cur: nat, start: nat, end: nat, w: nat)
  {
    var blocks := Converted(start, end, w);
    |ips| <= |blocks| && blocks[|ips|..] == Converted(cur, end, w) && Networks(ips, blocks[..|ips|], w)
  }

  lemma HalfwayStarts(start: nat, end: nat, w: nat)
    ensures Halfway([], start, start, end, w)
  {
  }

  lemma HalfwayStep(ips: seq<Cidr>, cur: nat, start: nat, end: nat, w: nat, h: nat)
    requires cur <= end && FirstBlock(cur, end, w, h) && 1 <= h <= w && Aligned(cur - cur % 2, h)
    requires Halfway(ips, cur, start, end, w)
    ensures Halfway(ips + [Cidr(cur, w - h)], cur + Pow2(h), start, end, w)
  {
    var blocks := Converted(start, end, w);
    ConvertedStep(cur, end, w, h);
    assert blocks[|ips|] == blocks[|ips|..][0];
    assert blocks[|ips| + 1..] == blocks[|ips|..][1..];
    NetworksGrow(ips, blocks, cur, h, w);
  }

  lemma HalfwayEnds(ips: seq<Cidr>, cur: nat, start: nat, end: nat, w: nat)
    requires cur > end && Halfway(ips, cur, start, end, w)
    ensures Networks(ips, Converted(start, end, w), w)
  {
    var blocks := Converted(start, end, w);
    assert blocks[..|ips|] == blocks;
  }

  /** The conversion: None where it would shift by the full width, else the CIDRs
      whose networks are exactly Converted(start, end, w). */
  method RangeConvert(start: nat, end: nat, w: nat) returns (r: Option<seq<Cidr>>)
    requires w >= 2 && start < Pow2(w) && end < Pow2(w)
    ensures r.None? <==> start <= end && FullShift(start, end, w)
    ensures r.Some? ==> Networks(r.value, Converted(start, end, w), w)
  {
    hide Pow2, Aligned, FillLow, FitExp, Halfway, Converted, Networks;
    HalfwayStarts(start, end, w);
    var ips := [];
    var cur := start;
    ghost var left := cur;
    while cur <= end
      invariant cur == start || (cur > 1 && !FullShift(start, end, w))
      invariant cur < Pow2(w) && left == cur && Halfway(ips, cur, start, end, w)
      decreases Pow2(w) - cur
    {
      var exp := FirstExp(cur, end, w);
      if exp.None? { return None; }
      var h := exp.value;
      StepBounds(cur, end, w, h);
      HalfwayStep(ips, cur, start, end, w, h);
      left := cur + Pow2(h);
      ips := ips + [Cidr(cur, w - h)];
      if FillLow(cur, h) == Pow2(w) - 1 || cur + Pow2(h) >= Pow2(w) { break; }
      cur := cur + Pow2(h);
    }
    HalfwayEnds(ips, left, start, end, w);
    return Some(ips);
  }

  /** The highest address covered: an odd start with an even end loses the end, an
      even start with an even end gains the address after it. */
  function LastCovered(start: nat, end: nat): int
  {
    if start % 2 == 0 && end % 2 == 0 then end + 1 else OddEnd(end)
  }

  /** The addresses covered, for every pair; the low end is rounded down to even. */
  lemma ConvertedCovers(start: nat, end: nat, w: nat)
    requires start <= end
    ensures Covers(Converted(start, end, w), start - start % 2, LastCovered(start, end))
  {
    hide Greedy;
    var s, e := start - start % 2, OddEnd(end);
    var g, all := Greedy(s, e, w), Converted(start, end, w);
    GreedyCovers(s, e, w);
    if start % 2 == 0 && end % 2 == 0 {
      forall x
        ensures s <= x <= end + 1 <==> Hit(all, x)
      {
        HitAppend(g, Block(end, 1), x);
      }
    } else {
      assert all == g;
    }
  }

  /** The networks are aligned, in order and disjoint. */
  lemma ConvertedShape(start: nat, end: nat, w: nat)
    ensures InOrder(Converted(start, end, w))
    ensures forall k :: 0 <= k < |Converted(start, end, w)| ==> Converted(start, end, w)[k].Aligned()
  {
    var lo, hi := start - start % 2, OddEnd(end);
    var g, all := Greedy(lo, hi, w), Converted(start, end, w);
    GreedyShape(lo, hi, w);
    if start <= end && |all| > |g| {
      forall i, j | 0 <= i < j < |all|
        ensures all[i].base + Pow2(all[i].exp) <= all[j].base
      {
        assert Inside(g[i], lo, hi, w);
        if j < |g| { assert all[j] == g[j]; }
      }
      forall k | 0 <= k < |all|
        ensures all[k].Aligned()
      {
        if k < |g| { assert Inside(g[k], lo, hi, w); }
      }
    } else if start <= end {
      assert all == g;
      assert forall k :: 0 <= k < |g| ==> Inside(g[k], lo, hi, w);
    }
  }

  lemma ConvertedExactIff(start: nat, end: nat, w: nat)
    requires start <= end
    ensures Covers(Converted(start, end, w), start, end) <==> start % 2 == 0 && end % 2 == 1
  {
    ConvertedCovers(start, end, w);
    var all := Converted(start, end, w);
    if Covers(all, start, end) {
      assert Hit(all, start - start % 2);
      assert start <= start - start % 2;
      assert Hit(all, end);
      assert start % 2 == 0 && end % 2 == 0 ==> Hit(all, end + 1);
    }
  }

  /** What a conversion returned is exactly the requested range. */
  ghost predicate IsRange(r: Option<seq<Cidr>>, start: nat, end: nat, w: nat)
  {
    r.Some? && exists blocks :: Networks(r.value, blocks, w) && Covers(blocks, start, end)
  }

  lemma NetworksTell(ips: seq<Cidr>, a: seq<Block>, b: seq<Block>, w: nat)
    requires Networks(ips, a, w) && Networks(ips, b, w)
    ensures a == b
  {
  }

  /** A conversion returns exactly the requested range iff start is even, end is odd, and the range is
      not one on which it shifts by the full width. */
  lemma ExactIff(start: nat, end: nat, w: nat, r: Option<seq<Cidr>>)
    requires w >= 2 && start <= end && (r.None? <==> FullShift(start, end, w))
    requires r.Some? ==> Networks(r.value, Converted(start, end, w), w)
    ensures IsRange(r, start, end, w) <==> start % 2 == 0 && end % 2 == 1 && !FullShift(start, end, w)
  {
    ConvertedExactIff(start, end, w);
    if blocks :| r.Some? && Networks(r.value, blocks, w) && Covers(blocks, start, end) {
      NetworksTell(r.value, blocks, Converted(start, end, w), w);
    }
  }

  /** When exact, no other set of networks covers the range with fewer. */
  lemma ExactIsFewest(start: nat, end: nat, w: nat, cover: set<Block>)
    requires start % 2 == 0 && end % 2 == 1 && start <= end
    requires forall b <- cover :: Inside(b, start, end, w)
    requires forall x :: start <= x <= end ==> HitBySet(cover, x)
    ensures |Converted(start, end, w)| <= |cover|
  {
    GreedyMinimal(start, end, w, cover);
  }

  /** 0.0.0.1 - 0.0.0.2 becomes 0.0.0.0/31: one address too many and one missing. */
  lemma OddStartLosesEnd()
    ensures Converted(1, 2, 32) == [Block(0, 1)]
    ensures !Hit(Converted(1, 2, 32), 2) && Hit(Converted(1, 2, 32), 0)
  {
    assert Pow2(1) == 2 && Aligned(0, 1);
    AlignedZero(1);
    FitExpIs(0, 1, 32, 1);
    GreedyStep(0, 1, 32);
    var c := Converted(1, 2, 32);
    assert Greedy(2, 1, 32) == [];
    assert c == [Block(0, 1)];
    assert c[0].Has(0);
  }
}
