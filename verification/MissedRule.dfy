/** Three ACLs on which the table misses a rule: a network of sixteen million addresses, and two pairs of
    hosts that differ in sixteen bits. */
module MissedRule {
  import opened Numbers
  import opened Powers
  import opened Blocks
  import opened BitSets
  import opened MatchedFields
  import opened PortSegments
  import opened PolicyTable
  import opened RuleIndex
  import opened Bytes
  import opened AclCompiler
  import opened CompiledIndex
  import opened VectorInit

  /** From one host to another, any protocol and ports. */
  function Hosts(src: seq<Byte>, dst: seq<Byte>): Origin
  {
    Origin(Head(Any, PROTOCOL_ANY), Network(IpSegment(src, [255, 255, 255, 255], 0), 0),
           Network(IpSegment(dst, [255, 255, 255, 255], 0), 0), Block(0, 16), Block(0, 16))
  }

  /** 10.0.0.0 to 0.0.0.0, 202.1.1.255 to 15.0.0.0, and 10.0.0.0/8 to anywhere. */
  const FIRST: Origin := Hosts([10, 0, 0, 0], [0, 0, 0, 0])
  const SECOND: Origin := Hosts([202, 1, 1, 255], [15, 0, 0, 0])
  const WIDE: Origin := Origin(Head(Any, PROTOCOL_ANY), Network(IpSegment([10, 0, 0, 0], [255, 0, 0, 0], 0), 24),
                               AnyNetwork(4), Block(0, 16), Block(0, 16))

  lemma PowersUsed()
    ensures Pow2(0) == 1 && Pow2(8) == 256 && Pow2(16) == 65536 && Pow2(24) == 16777216 && Pow2(32) == 4294967296
  {
    SixteenBits();
    EightMoreBits(16);
    EightMoreBits(24);
  }

  lemma FourBytes(a: Byte, b: Byte, c: Byte, d: Byte)
    ensures Value([a, b, c, d]) == 16777216 * a + 65536 * b + 256 * c + d
  {
    var bs := [a, b, c, d];
    assert bs[..3] == [a, b, c] && bs[..3][..2] == [a, b] && bs[..3][..2][..1] == [a] && bs[..3][..2][..1][..0] == [];
    assert Value([a]) == 256 * Value([a][..0]) + a && [a][..0] == [];
    assert Value([a, b]) == 256 * Value([a]) + b by { assert [a, b][..1] == [a]; }
    assert Value([a, b, c]) == 256 * Value([a, b]) + c by { assert [a, b, c][..2] == [a, b]; }
  }

  lemma HostsValid(a: Byte, b: Byte, c: Byte, d: Byte, e: Byte)
    ensures Hosts([a, b, c, d], [e, 0, 0, 0]).Valid(4)
  {
    PowersUsed();
    FourBytes(255, 255, 255, 255);
    AlignedZero(16);
  }

  lemma WideValid()
    ensures WIDE.Valid(4)
  {
    PowersUsed();
    FourBytes(255, 0, 0, 0);
    FourBytes(10, 0, 0, 0);
    TenIsAligned();
    AnyHolds(4, [0, 0, 0, 0], 0);
    AlignedZero(16);
  }

  lemma TenIsAligned()
    ensures Aligned(167772160, 24)
  {
    PowersUsed();
    AlignedPow2(24, 24);
    AlignedSum(16777216, 16777216, 24);
    AlignedSum(33554432, 33554432, 24);
    AlignedSum(67108864, 67108864, 24);
    AlignedSum(134217728, 33554432, 24);
  }

  // ----- What the three rules ask about -----

  function Rules(): (rules: seq<Rule<()>>)
    ensures |rules| == 3
  {
    HostsValid(10, 0, 0, 0, 0);
    HostsValid(202, 1, 1, 255, 15);
    WideValid();
    [FIRST.RuleFor(4, ()), SECOND.RuleFor(4, ()), WIDE.RuleFor(4, ())]
  }

  lemma HostsAsk(src: seq<Byte>, dst: seq<Byte>, o: nat)
    requires Hosts(src, dst).Valid(4)
    ensures One(Hosts(src, dst).RuleFor(4, ()).mask, 4, o) <==> o < 64
  {
    hide Origin.RuleFor, Origin.Valid, Pow2, Value;
    OriginAsks(Hosts(src, dst), 4, ());
    if o < BitSize(4) { WeightBound(4, o); }
  }

  lemma WideAsks(o: nat)
    requires WIDE.Valid(4)
    ensures One(WIDE.RuleFor(4, ()).mask, 4, o) <==> o < 8
  {
    hide Origin.RuleFor, Origin.Valid, Pow2, Value;
    OriginAsks(WIDE, 4, ());
    if o < BitSize(4) { WeightBound(4, o); }
  }

  lemma FieldBits(g: Origin, o: nat)
    requires g.Valid(4) && o < 64
    ensures One(g.RuleFor(4, ()).field, 4, o)
       <==> Bit(if o < 32 then g.src.seg.ip[o / 8] else g.dst.seg.ip[o / 8 - 4], o % 8)
  {
    ItemFieldIs(g.head, g.src.seg, g.dst.seg, SegmentOf(g.srcBlock), SegmentOf(g.dstBlock), (), 4);
  }

  /** The bits of the bytes used. */
  lemma ByteBits(i: nat)
    requires i < 8
    ensures !Bit(0, i) && (Bit(1, i) <==> i == 0) && Bit(255, i) && (Bit(15, i) <==> i < 4)
    ensures Bit(202, i) != Bit(10, i) <==> i == 6 || i == 7
  {
    BitOfZero(i);
    PowersUsed();
    OnesBit(8, i);
    assert i == 0 || i == 1 || i == 2 || i == 3 || i == 4 || i == 5 || i == 6 || i == 7;
  }

  predicate IsPicked(o: nat) { o == 6 || o == 7 || o == 8 || o == 16 || 24 <= o < 36 }

  /** The two hosts differ in exactly the picked bits. */
  lemma HostsDiffer(o: nat)
    requires o < 64 && FIRST.Valid(4) && SECOND.Valid(4)
    ensures One(FIRST.RuleFor(4, ()).field, 4, o) != One(SECOND.RuleFor(4, ()).field, 4, o) <==> IsPicked(o)
  {
    hide Origin.RuleFor, Origin.Valid, One, Bit;
    FieldBits(FIRST, o);
    FieldBits(SECOND, o);
    ByteBits(o % 8);
    var j := o / 8;
    assert j == 0 || j == 1 || j == 2 || j == 3 || j == 4 || j == 5 || j == 6 || j == 7;
  }

  lemma SplitsOfThree(a: Rule<()>, b: Rule<()>, c: Rule<()>, o: nat, value: bool)
    ensures Splits([a, b, c], 4, o, value)
         == Counts(a, o, value) + Counts(b, o, value) + Counts(c, o, value)
  {
    var all := [a, b, c];
    assert all[..2] == [a, b] && [a, b][..1] == [a] && [a][..0] == [];
    assert Splits([a], 4, o, value) == Splits([a][..0], 4, o, value) + Counts(a, o, value);
    assert Splits([a, b], 4, o, value) == Splits([a, b][..1], 4, o, value) + Counts(b, o, value);
  }

  function Counts(r: Rule<()>, o: nat, value: bool): nat
  {
    if One(r.mask, 4, o) && One(r.field, 4, o) == value then 1 else 0
  }

  /** Two rules that ask about the addresses, and one that asks about the first byte and agrees there
      with the first of them. */
  lemma RankOfThree(a: Rule<()>, b: Rule<()>, c: Rule<()>, o: nat)
    requires (One(a.mask, 4, o) <==> o < 64) && (One(b.mask, 4, o) <==> o < 64) && (One(c.mask, 4, o) <==> o < 8)
    requires o < 8 ==> One(c.field, 4, o) == One(a.field, 4, o)
    ensures Rank([a, b, c], 4, o) == if o < 64 && One(a.field, 4, o) != One(b.field, 4, o) then 1 else 3
  {
    SplitsOfThree(a, b, c, o, false);
    SplitsOfThree(a, b, c, o, true);
  }

  ghost predicate RanksPicked(rules: seq<Rule<()>>)
  {
    forall o: nat :: o < BitSize(4) ==> Rank(rules, 4, o) == if IsPicked(o) then 1 else 3
  }

  lemma RulesRank()
    ensures RanksPicked(Rules())
  {
    hide Origin.RuleFor, Origin.Valid, One, Rank, BitSize;
    HostsValid(10, 0, 0, 0, 0);
    HostsValid(202, 1, 1, 255, 15);
    WideValid();
    forall o: nat | o < BitSize(4)
      ensures Rank(Rules(), 4, o) == if IsPicked(o) then 1 else 3
    {
      HostsAsk([10, 0, 0, 0], [0, 0, 0, 0], o);
      HostsAsk([202, 1, 1, 255], [15, 0, 0, 0], o);
      WideAsks(o);
      if o < 64 { HostsDiffer(o); }
      if o < 8 { SameInWide(o); }
      RankOfThree(FIRST.RuleFor(4, ()), SECOND.RuleFor(4, ()), WIDE.RuleFor(4, ()), o);
    }
  }

  lemma SameInWide(o: nat)
    requires o < 8 && FIRST.Valid(4) && WIDE.Valid(4)
    ensures One(WIDE.RuleFor(4, ()).field, 4, o) == One(FIRST.RuleFor(4, ()).field, 4, o)
  {
    FieldBits(FIRST, o);
    FieldBits(WIDE, o);
  }

  // ----- The vector and the missed rule -----

  const PICKED_BITS: seq<nat> := [6, 7, 8, 16, 24, 25, 26, 27, 28, 29, 30, 31, 32, 33, 34, 35]

  lemma {:induction false} SameIncreasing(a: seq<nat>, b: seq<nat>)
    requires Increasing(a) && Increasing(b) && |a| == |b| && forall x :: x in a ==> x in b
    ensures a == b
  {
    forall x | x in b
      ensures x in a
    {
      if x !in a {
        var k :| 0 <= k < |b| && b[k] == x;
        AllButOne(a, b, k);
      }
    }
    forall r | 0 <= r < |a|
      ensures a[r] == b[r]
    {
      NowhereBehind(a, b, r);
      NowhereBehind(b, a, r);
    }
  }

  lemma PicksThose(bits: seq<nat>, rules: seq<Rule<()>>)
    requires RanksPicked(rules) && Increasing(bits) && |bits| == 16 && LeastRanked(bits, rules, 4)
    ensures bits == PICKED_BITS
  {
    forall x | x in bits
      ensures x in PICKED_BITS
    {
      if !IsPicked(x) { PicksNoOther(bits, x, rules); }
    }
    SameIncreasing(bits, PICKED_BITS);
  }

  /** If a bit of rank 3 were picked, all sixteen of rank 1 would be, too: one too many. */
  lemma PicksNoOther(bits: seq<nat>, x: nat, rules: seq<Rule<()>>)
    requires RanksPicked(rules) && LeastRanked(bits, rules, 4) && x in bits && !IsPicked(x)
    ensures |bits| > 16
  {
    hide Rank;
    forall y | y in PICKED_BITS
      ensures y in bits
    {
      assert IsPicked(y);
      assert y !in bits ==> Before(rules, 4, x, y);
    }
    var k :| 0 <= k < |bits| && bits[k] == x;
    AllButOne(PICKED_BITS, bits, k);
  }

  lemma AllButOne(a: seq<nat>, b: seq<nat>, k: nat)
    requires Increasing(a) && k < |b| && b[k] !in a && forall y :: y in a ==> y in b
    ensures |a| < |b|
  {
    var less := b[..k] + b[k + 1..];
    forall y | y in a
      ensures y in less
    {
      var i :| 0 <= i < |b| && b[i] == y;
      assert i < k ==> less[i] == y;
      assert i > k ==> less[i - 1] == y;
    }
    SubsetLength(a, less);
  }

  /** Of the first four bits picked, 6 is lost to 7. */
  lemma Surviving(o: nat)
    requires o <= 16
    ensures Survives(PICKED_BITS, o) <==> o in [7, 8, 16]
  {
    var bits := PICKED_BITS;
    assert bits[0] == 6 && bits[1] == 7 && bits[2] == 8 && bits[3] == 16;
    if o in [7, 8, 16] {
      var j := if o == 7 then 1 else if o == 8 then 2 else 3;
      assert bits[j] == o && forall l :: j < l < |bits| ==> bits[l] / 8 != o / 8;
    }
    if Survives(bits, o) {
      var j :| 0 <= j < |bits| && bits[j] == o && forall l :: j < l < |bits| ==> bits[l] / 8 != o / 8;
      assert j < 4;
    }
  }

  lemma ChoosesThree(v: Vector)
    requires Built(v, 4, 4) && v.vectorBits == PICKED_BITS
    ensures v.Valid(4) && v.Chosen(4) == [7, 8, 16]
  {
    hide Survives, OnesOf, One;
    ChosenOfBuilt(v, 4, 4);
    forall o: nat
      ensures o in v.Chosen(4) <==> o in [7, 8, 16]
    {
      if o <= 16 { Surviving(o); }
    }
    OnlyThree(v.Chosen(4));
  }

  lemma OnlyThree(c: seq<nat>)
    requires Increasing(c) && forall o: nat :: o in c <==> o in [7, 8, 16]
    ensures c == [7, 8, 16]
  {
    var three: seq<nat> := [7, 8, 16];
    assert forall o :: o in three ==> o in c;
    SubsetLength(three, c);
    SubsetLength(c, three);
    SameIncreasing(c, three);
  }

  lemma WideBits(key: LookupKey)
    requires WIDE.Valid(4) && key.Valid(4) && key.srcIp == [10, 1, 0, 0]
    ensures One(WIDE.RuleFor(4, ()).mask, 4, 7) && !One(WIDE.RuleFor(4, ()).field, 4, 8) && One(KeyField(key, 4), 4, 8)
  {
    hide Origin.RuleFor, Origin.Valid, Pow2, Value, Bit;
    WideAsks(7);
    FieldBits(WIDE, 8);
    ByteBits(0);
    KeyFieldIs(key, 4);
  }

  lemma MissedAtOne(v: Vector, key: Field, field: Field, mask: Field)
    requires v.Valid(4) && v.Chosen(4) == [7, 8, 16] && v.vectorBits == PICKED_BITS
    requires One(mask, 4, 7) && One(key, 4, 8) && !One(field, 4, 8)
    ensures !Filed(v.Index(key, 4), field, mask, v, 4)
  {
    assert v.vectorBits[1] == 7 && v.Chosen(4)[1] == 8;
    NotFiled(key, field, mask, v, 4, 1);
  }

  lemma WideNotFound(v: Vector, key: LookupKey)
    requires v.Valid(4) && v.Chosen(4) == [7, 8, 16] && v.vectorBits == PICKED_BITS
    requires key.Valid(4) && key.srcIp == [10, 1, 0, 0]
    ensures WIDE.Valid(4) && !Found(WIDE, key, v, 4)
  {
    WideValid();
    WideMatches(key);
    WideBits(key);
    MissedAtOne(v, KeyField(key, 4), WIDE.RuleFor(4, ()).field, WIDE.RuleFor(4, ()).mask);
  }

  /** The table that init makes of the three rules does not find 10.0.0.0/8 for a packet from 10.1.0.0. */
  lemma WideIsMissed(v: Vector, key: LookupKey)
    requires BuiltOn(v, Rules(), 4) && key.Valid(4) && key.srcIp == [10, 1, 0, 0]
    ensures v.Valid(4) && WIDE.Valid(4) && Rules()[2] == WIDE.RuleFor(4, ()) && !Found(WIDE, key, v, 4)
    ensures !FindsCompiled(v, 4) && !AllKept(Rules(), v, 4)
  {
    hide Origin.RuleFor, Origin.Valid, LeastRanked, RanksPicked, Found;
    assert v.vectorBits == PICKED_BITS by {
      RulesRank();
      PicksThose(v.vectorBits, Rules());
    }
    ChoosesThree(v);
    WideNotFound(v, key);
    WideNotKept(v);
    assert Rules()[2] == WIDE.RuleFor(4, ());
  }

  lemma WideNotKept(v: Vector)
    requires v.Valid(4) && v.Chosen(4) == [7, 8, 16] && v.vectorBits == PICKED_BITS
    ensures WIDE.Valid(4) && !Keeps(WIDE.RuleFor(4, ()).mask, v, 4)
  {
    hide Origin.RuleFor, Origin.Valid, One;
    WideValid();
    WideAsks(7);
    WideAsks(8);
    assert !KeepsAt(WIDE.RuleFor(4, ()).mask, v, 4, 1);
  }

  lemma WideMatches(key: LookupKey)
    requires WIDE.Valid(4) && key.Valid(4) && key.srcIp == [10, 1, 0, 0]
    ensures WIDE.RuleFor(4, ()).Matches(KeyField(key, 4), 4)
  {
    hide Value, Pow2, Item, KeyField, Aligned;
    PowersUsed();
    FourBytes(10, 0, 0, 0);
    FourBytes(10, 1, 0, 0);
    AnyHolds(4, key.dstIp, key.dstEpc);
    ItemMatches(WIDE.head, WIDE.src.seg, 24, WIDE.dst.seg, 32, SegmentOf(Block(0, 16)), SegmentOf(Block(0, 16)), (),
                4, key);
    CompiledMatch(SegmentOf(Block(0, 16)), Block(0, 16), key.srcPort);
    CompiledMatch(SegmentOf(Block(0, 16)), Block(0, 16), key.dstPort);
  }
}
