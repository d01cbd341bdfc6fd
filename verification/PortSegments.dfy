/** Port ranges as prefix rules: PortSegment of the policy compiler. */
module PortSegments {
  import opened Numbers
  import opened Powers
  import opened Blocks

  /** An inclusive range of ports; the parser does not order its ends. */
  datatype PortRange = PortRange(min: u16, max: u16) {
    predicate Has(x: int) { min <= x <= max }
  }

  /** Some range holds p. */
  ghost predicate Covered(rs: seq<PortRange>, p: int)
  {
    exists k :: 0 <= k < |rs| && rs[k].Has(p)
  }

  /** Matches every port whose bits under mask equal port. */
  datatype PortSegment = PortSegment(port: u16, mask: u16) {
    predicate Matches(x: u16) { And(x, mask) == port }
  }

  const ALL: PortSegment := PortSegment(0, 0)

  /** s is the prefix rule that stands for block b. */
  predicate Compiles(s: PortSegment, b: Block)
  {
    b.Aligned() && b.exp <= 16 && s.port == b.base && s.mask + Pow2(b.exp) == 65536
  }

  predicate AllCompile(segs: seq<PortSegment>, bs: seq<Block>)
  {
    |segs| == |bs| && forall k :: 0 <= k < |segs| ==> Compiles(segs[k], bs[k])
  }

  /** The prefix rule that stands for b. */
  function SegmentOf(b: Block): (s: PortSegment)
    requires b.Aligned() && b.exp <= 16 && b.base < 65536
    ensures Compiles(s, b)
  {
    SixteenBits();
    Pow2Monotonic(b.exp, 16);
    PortSegment(b.base, 65536 - Pow2(b.exp))
  }

  /** Testing the bits under the mask is testing membership of the block. */
  lemma CompiledMatch(s: PortSegment, b: Block, x: u16)
    requires Compiles(s, b)
    ensures s.Matches(x) <==> b.Has(x)
  {
    hide Pow2, And, Low;
    SixteenBits();
    AndPrefix(x, b.exp, 16);
    RoundDown(x, b.exp, b.base);
  }

  /** Number of trailing zero bits; 16 for port 0. */
  method CalcRightZero(port: u16) returns (count: nat)
    ensures count <= 16 && Aligned(port, count)
    ensures count < 16 ==> !Aligned(port, count + 1)
    ensures count == 16 <==> port == 0
  {
    count := 0;
    for i := 0 to 16
      invariant count == i && Aligned(port, i)
    {
      AlignedStep(port, i);
      if Bit(port, i) {
        AlignedZero(i + 1);
        return;
      }
      count := count + 1;
    }
    SixteenBits();
    AlignedZero(16);
    if port > 0 { AlignedApart(0, port, 16); }
  }

  /** The mask and exponent of the largest block at port that ends by maxPort. */
  method CalcMask(port: u16, maxPort: u16, count: nat) returns (mask: u16, n: nat)
    requires port <= maxPort && count <= 16 && Aligned(port, count)
    ensures n == FitExp(port, maxPort, count) && mask + Pow2(n) == 65536
  {
    for i := 0 to count
      invariant FitExp(port, maxPort, count) == FitExp(port, maxPort, count - i)
    {
      var k := count - i;
      MaskStep(port, k, count);
      var last := port + (Pow2(k) - 1) % 65536;
      assert last < 65536;  // the u16 sum does not overflow
      if maxPort >= last {
        return (65535 * Pow2(k)) % 65536, k;
      }
    }
    return 65535, 0;
  }

  lemma MaskStep(port: u16, k: nat, count: nat)
    requires k <= count <= 16 && Aligned(port, count)
    ensures Aligned(port, k)
    ensures (Pow2(k) - 1) % 65536 == Pow2(k) - 1
    ensures port + Pow2(k) <= 65536
    ensures (65535 * Pow2(k)) % 65536 + Pow2(k) == 65536
  {
    hide Pow2, Aligned;
    AlignedSmaller(port, k, count);
    SixteenBits();
    Pow2Monotonic(k, 16);
    AlignedBlockFits(port, k);
    ShiftedOnes(k);
  }

  lemma AlignedBlockFits(port: u16, k: nat)
    requires k <= 16 && Aligned(port, k)
    ensures port + Pow2(k) <= 65536
  {
    SixteenBits();
    AlignedPow2(16, k);
    AlignedApart(port, 65536, k);
  }

  lemma ShiftedOnes(k: nat)
    requires k <= 16
    ensures (65535 * Pow2(k)) % 65536 + Pow2(k) == 65536
  {
    SixteenBits();
    Pow2Monotonic(k, 16);
    Wrapped(Pow2(k));
  }

  lemma Wrapped(p: nat)
    requires 1 <= p <= 65536
    ensures (65535 * p) % 65536 + p == 65536
  {
    assert 65535 * p == 65536 * (p - 1) + (65536 - p);
  }

  /** Under the bound set by the trailing zeros, the widest block is the widest of all. */
  lemma FitWithinZeros(lo: nat, hi: int, count: nat)
    requires lo <= hi && count <= 16 && Aligned(lo, count)
    requires count < 16 ==> !Aligned(lo, count + 1)
    ensures FitExp(lo, hi, count) == FitExp(lo, hi, 16)
  {
    var d, e := FitExp(lo, hi, count), FitExp(lo, hi, 16);
    if count < e { AlignedSmaller(lo, count + 1, e); }
    if d < e { FitExpLargest(lo, hi, count, e); }
    if e < d { FitExpLargest(lo, hi, 16, d); }
  }

  /** Some segment of the list matches port x. */
  ghost predicate MatchedBy(segs: seq<PortSegment>, x: u16)
  {
    exists k :: 0 <= k < |segs| && segs[k].Matches(x)
  }

  /** A set of prefix rules, each given by its block, that covers exactly the range. */
  ghost predicate ExactCover(rules: set<Block>, port: PortRange)
  {
    && (forall b <- rules :: b.Aligned() && b.exp <= 16)
    && (forall x :: port.Has(x) <==> HitBySet(rules, x))
  }

  /** The blocks that a range is cut into. */
  function BlocksOf(port: PortRange): seq<Block>
  {
    Greedy(port.min, port.max, 16)
  }

  /** PortSegment::new. An inverted range compiles to no segment. */
  method New(port: PortRange) returns (segs: seq<PortSegment>)
    ensures AllCompile(segs, BlocksOf(port))
  {
    segs := [];
    var i: nat := port.min;
    while i < port.max + 1
      invariant Halfway(segs, i, port)
      decreases port.max + 1 - i
    {
      var segment, n := Segment(i, port.max);
      HalfwayStep(segs, i, port, segment, n);
      segs := segs + [segment];
      i := i + Pow2(n);
    }
    assert BlocksOf(port)[..|segs|] == BlocksOf(port);
  }

  /** The segments so far are those of the first blocks, and the rest are the blocks from i on. */
  ghost predicate Halfway(segs: seq<PortSegment>, i: nat, port: PortRange)
  {
    var blocks := BlocksOf(port);
    |segs| <= |blocks| && blocks[|segs|..] == Greedy(i, port.max, 16) && AllCompile(segs, blocks[..|segs|])
  }

  lemma CompileOneMore(segs: seq<PortSegment>, blocks: seq<Block>, rest: seq<Block>, s: PortSegment, b: Block)
    requires |segs| <= |blocks| && AllCompile(segs, blocks[..|segs|]) && Compiles(s, b)
             && blocks[|segs|..] == [b] + rest
    ensures |segs| + 1 <= |blocks| && AllCompile(segs + [s], blocks[..|segs| + 1]) && blocks[|segs| + 1..] == rest
  {
    var k := |segs|;
    assert blocks[k] == blocks[k..][0] && blocks[k + 1..] == blocks[k..][1..];
    assert blocks[..k + 1] == blocks[..k] + [blocks[k]];
  }

  lemma HalfwayStep(segs: seq<PortSegment>, i: nat, port: PortRange, s: PortSegment, n: nat)
    requires Halfway(segs, i, port) && i <= port.max && n == FitExp(i, port.max, 16) && Compiles(s, Block(i, n))
    ensures Halfway(segs + [s], i + Pow2(n), port)
  {
    hide Greedy, FitExp, Compiles;
    GreedyStep(i, port.max, 16);
    CompileOneMore(segs, BlocksOf(port), Greedy(i + Pow2(n), port.max, 16), s, Block(i, n));
  }

  /** One turn of the loop of New. */
  method Segment(i: u16, max: u16) returns (s: PortSegment, n: nat)
    requires i <= max
    ensures n == FitExp(i, max, 16) && Compiles(s, Block(i, n))
  {
    var zeros := CalcRightZero(i);
    var mask, exp := CalcMask(i, max, zeros);
    FitWithinZeros(i, max, zeros);
    return PortSegment(i, mask), exp;
  }

  /** A port is in the range iff some segment matches it, and then only one does. */
  lemma SegmentsMatchRange(port: PortRange, segs: seq<PortSegment>)
    requires AllCompile(segs, BlocksOf(port))
    ensures forall x: u16 :: port.Has(x) <==> MatchedBy(segs, x)
    ensures forall i, j, x: u16 :: 0 <= i < j < |segs| && segs[i].Matches(x) ==> !segs[j].Matches(x)
  {
    var bs := Greedy(port.min, port.max, 16);
    GreedyCovers(port.min, port.max, 16);
    GreedyShape(port.min, port.max, 16);
    forall x: u16
      ensures port.Has(x) <==> MatchedBy(segs, x)
    {
      if port.Has(x) {
        assert Hit(bs, x);
        var k :| 0 <= k < |bs| && bs[k].Has(x);
        CompiledMatch(segs[k], bs[k], x);
      }
      if k :| 0 <= k < |segs| && segs[k].Matches(x) {
        CompiledMatch(segs[k], bs[k], x);
        assert Hit(bs, x);
      }
    }
    forall i, j, x: u16 | 0 <= i < j < |segs| && segs[i].Matches(x)
      ensures !segs[j].Matches(x)
    {
      CompiledMatch(segs[i], bs[i], x);
      CompiledMatch(segs[j], bs[j], x);
    }
  }

  /** At most 30 segments, and no exact prefix cover of the range has fewer. */
  lemma SegmentsFewest(port: PortRange, segs: seq<PortSegment>, rules: set<Block>)
    requires AllCompile(segs, BlocksOf(port)) && ExactCover(rules, port)
    ensures |segs| <= 30 && |segs| <= |rules|
  {
    forall b | b in rules
      ensures Inside(b, port.min, port.max, 16)
    {
      assert b.Has(b.base) && b.Has(b.base + Pow2(b.exp) - 1);
      assert HitBySet(rules, b.base) && HitBySet(rules, b.base + Pow2(b.exp) - 1);
    }
    assert forall x :: port.min <= x <= port.max ==> port.Has(x);
    GreedyMinimal(port.min, port.max, 16, rules);
    SixteenBits();
    GreedyCount(port.min, port.max, 16);
  }
}
