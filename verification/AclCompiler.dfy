/** ACLs compiled to (field, mask) rules, and lookup keys built to meet them. */
module AclCompiler {
  import opened Numbers
  import opened Powers
  import opened Blocks
  import opened Bytes
  import opened MatchedFields
  import opened Wrappers
  import opened PortSegments
  import opened PortLists
  import opened PolicyTable

  datatype TapType = Any | Idc(v: Byte) | Cloud | Max | Unknown {
    /** u16::from. */
    function Code(): u16
    {
      match this
      case Any => 0
      case Idc(v) => v
      case Cloud => 3
      case Max => 256
      case Unknown => 65535
    }
  }

  const PROTOCOL_ANY: u16 := 256

  /** A network with its mask, as bytes, and the EPC it belongs to; EPC 0 is any. */
  datatype IpSegment = IpSegment(ip: seq<Byte>, mask: seq<Byte>, epc: u16) {
    /** The segment comes from a CIDR whose hosts have h bits. */
    predicate IsNetwork(n: nat, h: nat)
    {
      && |ip| == n && |mask| == n && h <= 8 * n
      && Value(mask) + Pow2(h) == Pow2(8 * n) && Aligned(Value(ip), h)
    }
  }

  /** What an ACL asks of a packet apart from its two ends. */
  datatype Head = Head(tapType: TapType, proto: u16) {
    predicate Matches(key: LookupKey)
    {
      && (tapType == Any || tapType.Code() % 256 == key.tapType.Code() % 256)
      && (proto == PROTOCOL_ANY || proto % 256 == key.proto)
    }
  }

  /** For tap types and protocols that fit a byte, as parsed ones do, this is equality. */
  lemma HeadPlain(head: Head, key: LookupKey)
    requires head.tapType.Code() < 256 && key.tapType.Code() < 256 && head.proto <= PROTOCOL_ANY
    ensures head.Matches(key) <==> && (head.tapType == Any || head.tapType.Code() == key.tapType.Code())
                                   && (head.proto == PROTOCOL_ANY || head.proto == key.proto)
  {
  }

  datatype LookupKey = LookupKey(tapType: TapType, proto: Byte, srcIp: seq<Byte>, dstIp: seq<Byte>,
                                 srcEpc: u16, dstEpc: u16, srcPort: u16, dstPort: u16)
  {
    predicate Valid(n: nat) { |srcIp| == n && |dstIp| == n }

    function Reversed(): LookupKey
    {
      this.(srcIp := dstIp, dstIp := srcIp, srcEpc := dstEpc, dstEpc := srcEpc, srcPort := dstPort, dstPort := srcPort)
    }
  }

  datatype MatchedFlag = SrcEpc | DstEpc | SrcPort | DstPort | Proto | TapTypeFlag

  function OffsetOf(flag: MatchedFlag): nat
  {
    match flag
    case SrcEpc => 0
    case DstEpc => 2
    case SrcPort => 4
    case DstPort => 6
    case Proto => 8
    case TapTypeFlag => 9
  }

  /** set: two bytes, low byte first, or the low byte alone for protocol and tap type. */
  function Set(f: Field, flag: MatchedFlag, value: u16): (g: Field)
    requires |f.others| == OTHERS
    ensures |g.others| == OTHERS && g.srcIp == f.srcIp && g.dstIp == f.dstIp
  {
    var o := OffsetOf(flag);
    if flag == Proto || flag == TapTypeFlag then f.(others := f.others[o := value % 256])
    else f.(others := f.others[o := value % 256][o + 1 := value / 256])
  }

  function SetMask(f: Field, flag: MatchedFlag, isSet: bool): (g: Field)
    requires |f.others| == OTHERS
    ensures |g.others| == OTHERS && g.srcIp == f.srcIp && g.dstIp == f.dstIp
  {
    Set(f, flag, if isSet then 0xFFFF else 0)
  }

  /** set_matched_field on a zero field. */
  function KeyField(key: LookupKey, n: nat): (f: Field)
    requires key.Valid(n)
    ensures f.Valid(n)
  {
    var f0 := Field(Zeros(n), Zeros(n), Zeros(OTHERS));
    var f1 := Set(f0, TapTypeFlag, key.tapType.Code());
    var f2 := Set(f1, Proto, key.proto);
    var f3 := f2.(srcIp := key.srcIp);
    var f4 := f3.(dstIp := key.dstIp);
    var f5 := Set(f4, SrcEpc, key.srcEpc);
    var f6 := Set(f5, DstEpc, key.dstEpc);
    var f7 := Set(f6, SrcPort, key.srcPort);
    Set(f7, DstPort, key.dstPort)
  }

  /** One item of generate_match_field or generate_match_field6. */
  function Item<P>(acl: Head, src: IpSegment, dst: IpSegment, sp: PortSegment, dp: PortSegment, policy: P,
                   n: nat): (r: Rule<P>)
    requires |src.ip| == |src.mask| == |dst.ip| == |dst.mask| == n
    ensures r.Valid(n) && r.policy == policy
  {
    var zero := Field(Zeros(n), Zeros(n), Zeros(OTHERS));
    var f1 := Set(zero, TapTypeFlag, acl.tapType.Code());
    var f2 := Set(f1.(srcIp := src.ip), SrcEpc, src.epc);
    var f3 := Set(f2.(dstIp := dst.ip), DstEpc, dst.epc);
    var f4 := Set(Set(f3, SrcPort, sp.port), DstPort, dp.port);
    var m1 := SetMask(zero, TapTypeFlag, acl.tapType != Any);
    var m2 := SetMask(m1.(srcIp := src.mask), SrcEpc, src.epc > 0);
    var m3 := SetMask(m2.(dstIp := dst.mask), DstEpc, dst.epc > 0);
    var m4 := Set(Set(m3, SrcPort, sp.mask), DstPort, dp.mask);
    if acl.proto == PROTOCOL_ANY then Rule(Set(f4, Proto, 0), Set(m4, Proto, 0), policy)
    else Rule(Set(f4, Proto, acl.proto), SetMask(m4, Proto, true), policy)
  }

  /** The ten bytes after the addresses, in the order of OffsetOf. */
  function Others(srcEpc: u16, dstEpc: u16, srcPort: u16, dstPort: u16, proto: u16, tap: u16): seq<Byte>
  {
    [srcEpc % 256, srcEpc / 256, dstEpc % 256, dstEpc / 256, srcPort % 256, srcPort / 256, dstPort % 256, dstPort / 256,
     proto % 256, tap % 256]
  }

  lemma KeyFieldIs(key: LookupKey, n: nat)
    requires key.Valid(n)
    ensures KeyField(key, n) == Field(key.srcIp, key.dstIp,
              Others(key.srcEpc, key.dstEpc, key.srcPort, key.dstPort, key.proto, key.tapType.Code()))
  {
  }

  function Ones(isSet: bool): u16 { if isSet then 0xFFFF else 0 }

  lemma ItemFieldIs<P>(acl: Head, src: IpSegment, dst: IpSegment, sp: PortSegment, dp: PortSegment, policy: P, n: nat)
    requires |src.ip| == |src.mask| == |dst.ip| == |dst.mask| == n
    ensures Item(acl, src, dst, sp, dp, policy, n).field == Field(src.ip, dst.ip,
              Others(src.epc, dst.epc, sp.port, dp.port, if acl.proto == PROTOCOL_ANY then 0 else acl.proto,
                     acl.tapType.Code()))
  {
  }

  lemma ItemMaskIs<P>(acl: Head, src: IpSegment, dst: IpSegment, sp: PortSegment, dp: PortSegment, policy: P, n: nat)
    requires |src.ip| == |src.mask| == |dst.ip| == |dst.mask| == n
    ensures Item(acl, src, dst, sp, dp, policy, n).mask == Field(src.mask, dst.mask,
              Others(Ones(src.epc > 0), Ones(dst.epc > 0), sp.mask, dp.mask, Ones(acl.proto != PROTOCOL_ANY),
                     Ones(acl.tapType != Any)))
  {
  }

  predicate WordMatches(key: u16, mask: u16, value: u16) { And(key, mask) == value }

  predicate ByteMatches(key: u16, mask: u16, value: u16) { And(key % 256, mask % 256) == value % 256 }

  lemma OthersMatch(e: u16, d: u16, s: u16, t: u16, p: u16, q: u16, e1: u16, d1: u16, s1: u16, t1: u16, p1: u16,
                    q1: u16, e2: u16, d2: u16, s2: u16, t2: u16, p2: u16, q2: u16)
    ensures AndBytes(Others(e, d, s, t, p, q), Others(e1, d1, s1, t1, p1, q1)) == Others(e2, d2, s2, t2, p2, q2)
       <==> && WordMatches(e, e1, e2) && WordMatches(d, d1, d2) && WordMatches(s, s1, s2) && WordMatches(t, t1, t2)
            && ByteMatches(p, p1, p2) && ByteMatches(q, q1, q2)
  {
    hide And, AndBytes;
    TenBytes(AndBytes(Others(e, d, s, t, p, q), Others(e1, d1, s1, t1, p1, q1)), Others(e2, d2, s2, t2, p2, q2));
    AndTwoBytes(e, e1, e2);
    AndTwoBytes(d, d1, d2);
    AndTwoBytes(s, s1, s2);
    AndTwoBytes(t, t1, t2);
  }

  lemma TenBytes(a: seq<Byte>, b: seq<Byte>)
    requires |a| == |b| == 10
    ensures a == b <==>
      && a[0] == b[0] && a[1] == b[1] && a[2] == b[2] && a[3] == b[3] && a[4] == b[4]
      && a[5] == b[5] && a[6] == b[6] && a[7] == b[7] && a[8] == b[8] && a[9] == b[9]
  {
  }

  /** A word under a full mask is compared, under an empty mask it is not. */
  lemma OnesMatch(key: u16, isSet: bool, value: u16)
    requires !isSet ==> value == 0
    ensures WordMatches(key, Ones(isSet), value) <==> !isSet || key == value
    ensures ByteMatches(key, Ones(isSet), value) <==> !isSet || key % 256 == value % 256
  {
    SixteenBits();
    assert Pow2(8) == 256;
    AndOnes(key, 16);
    AndOnes(key % 256, 8);
  }

  /** An address under the mask of a network is its base iff it belongs to the network. */
  lemma NetworkMatch(ip: seq<Byte>, seg: IpSegment, n: nat, h: nat)
    requires |ip| == n && seg.IsNetwork(n, h)
    ensures AndBytes(ip, seg.mask) == seg.ip <==> Block(Value(seg.ip), h).Has(Value(ip))
  {
    AndBytesIs(ip, seg.mask, seg.ip);
    ValueBound(ip);
    AndPrefix(Value(ip), h, 8 * n);
    RoundDown(Value(ip), h, Value(seg.ip));
  }

  /** What an ACL between two networks means, before ports. */
  predicate Between(acl: Head, src: IpSegment, hs: nat, dst: IpSegment, hd: nat, key: LookupKey)
  {
    && acl.Matches(key)
    && (src.epc == 0 || src.epc == key.srcEpc) && (dst.epc == 0 || dst.epc == key.dstEpc)
    && Block(Value(src.ip), hs).Has(Value(key.srcIp)) && Block(Value(dst.ip), hd).Has(Value(key.dstIp))
  }

  /** The match of a key against a rule, piece by piece. */
  predicate Pieces(acl: Head, src: IpSegment, dst: IpSegment, sp: PortSegment, dp: PortSegment, key: LookupKey)
    requires |key.srcIp| == |src.mask| && |key.dstIp| == |dst.mask|
  {
    && AndBytes(key.srcIp, src.mask) == src.ip && AndBytes(key.dstIp, dst.mask) == dst.ip
    && WordMatches(key.srcEpc, Ones(src.epc > 0), src.epc) && WordMatches(key.dstEpc, Ones(dst.epc > 0), dst.epc)
    && WordMatches(key.srcPort, sp.mask, sp.port) && WordMatches(key.dstPort, dp.mask, dp.port)
    && ByteMatches(key.proto, Ones(acl.proto != PROTOCOL_ANY), if acl.proto == PROTOCOL_ANY then 0 else acl.proto)
    && ByteMatches(key.tapType.Code(), Ones(acl.tapType != Any), acl.tapType.Code())
  }

  lemma ItemPieces<P>(acl: Head, src: IpSegment, dst: IpSegment, sp: PortSegment, dp: PortSegment, policy: P, n: nat,
                      key: LookupKey)
    requires |src.ip| == |src.mask| == |dst.ip| == |dst.mask| == n && key.Valid(n)
    ensures Item(acl, src, dst, sp, dp, policy, n).Matches(KeyField(key, n), n) <==> Pieces(acl, src, dst, sp, dp, key)
  {
    KeyFieldIs(key, n);
    ItemFieldIs(acl, src, dst, sp, dp, policy, n);
    ItemMaskIs(acl, src, dst, sp, dp, policy, n);
    OthersMatch(key.srcEpc, key.dstEpc, key.srcPort, key.dstPort, key.proto, key.tapType.Code(),
                Ones(src.epc > 0), Ones(dst.epc > 0), sp.mask, dp.mask, Ones(acl.proto != PROTOCOL_ANY),
                Ones(acl.tapType != Any), src.epc, dst.epc, sp.port, dp.port,
                if acl.proto == PROTOCOL_ANY then 0 else acl.proto, acl.tapType.Code());
  }

  /** A rule matches a key iff the ACL holds of it and both port segments match. */
  lemma ItemMatches<P>(acl: Head, src: IpSegment, hs: nat, dst: IpSegment, hd: nat, sp: PortSegment, dp: PortSegment,
                       policy: P, n: nat, key: LookupKey)
    requires src.IsNetwork(n, hs) && dst.IsNetwork(n, hd) && key.Valid(n)
    ensures Item(acl, src, dst, sp, dp, policy, n).Matches(KeyField(key, n), n)
       <==> Between(acl, src, hs, dst, hd, key) && sp.Matches(key.srcPort) && dp.Matches(key.dstPort)
  {
    ItemPieces(acl, src, dst, sp, dp, policy, n, key);
    PiecesMean(acl, src, hs, dst, hd, sp, dp, n, key);
  }

  lemma PiecesMean(acl: Head, src: IpSegment, hs: nat, dst: IpSegment, hd: nat, sp: PortSegment, dp: PortSegment,
                   n: nat, key: LookupKey)
    requires src.IsNetwork(n, hs) && dst.IsNetwork(n, hd) && key.Valid(n)
    ensures Pieces(acl, src, dst, sp, dp, key)
       <==> Between(acl, src, hs, dst, hd, key) && sp.Matches(key.srcPort) && dp.Matches(key.dstPort)
  {
    assert AndBytes(key.srcIp, src.mask) == src.ip <==> Block(Value(src.ip), hs).Has(Value(key.srcIp)) by {
      NetworkMatch(key.srcIp, src, n, hs);
    }
    assert AndBytes(key.dstIp, dst.mask) == dst.ip <==> Block(Value(dst.ip), hd).Has(Value(key.dstIp)) by {
      NetworkMatch(key.dstIp, dst, n, hd);
    }
    assert WordMatches(key.srcEpc, Ones(src.epc > 0), src.epc) <==> src.epc == 0 || src.epc == key.srcEpc by {
      OnesMatch(key.srcEpc, src.epc > 0, src.epc);
    }
    assert WordMatches(key.dstEpc, Ones(dst.epc > 0), dst.epc) <==> dst.epc == 0 || dst.epc == key.dstEpc by {
      OnesMatch(key.dstEpc, dst.epc > 0, dst.epc);
    }
    ProtoAndTap(acl, key);
  }

  lemma ProtoAndTap(acl: Head, key: LookupKey)
    ensures ByteMatches(key.proto, Ones(acl.proto != PROTOCOL_ANY), if acl.proto == PROTOCOL_ANY then 0 else acl.proto)
       <==> acl.proto == PROTOCOL_ANY || acl.proto % 256 == key.proto
    ensures ByteMatches(key.tapType.Code(), Ones(acl.tapType != Any), acl.tapType.Code())
       <==> acl.tapType == Any || acl.tapType.Code() % 256 == key.tapType.Code() % 256
  {
    OnesMatch(key.proto, acl.proto != PROTOCOL_ANY, if acl.proto == PROTOCOL_ANY then 0 else acl.proto);
    OnesMatch(key.tapType.Code(), acl.tapType != Any, acl.tapType.Code());
  }

  /** The backward key meets the rule with its endpoints swapped exactly as the forward key
      meets the rule. */
  lemma BackwardVerdict<P>(acl: Head, src: IpSegment, hs: nat, dst: IpSegment, hd: nat, sp: PortSegment,
                           dp: PortSegment, policy: P, n: nat, key: LookupKey)
    requires src.IsNetwork(n, hs) && dst.IsNetwork(n, hd) && key.Valid(n)
    ensures Item(acl, dst, src, dp, sp, policy, n).Matches(KeyField(key.Reversed(), n), n)
       <==> Item(acl, src, dst, sp, dp, policy, n).Matches(KeyField(key, n), n)
  {
    hide Item, KeyField, Pow2, Value;
    ItemMatches(acl, src, hs, dst, hd, sp, dp, policy, n, key);
    ItemMatches(acl, dst, hd, src, hs, dp, sp, policy, n, key.Reversed());
  }

  // ----- The ports of an ACL -----

  /** The blocks of all ranges, one range after the other. */
  function AllBlocks(ranges: seq<PortRange>): seq<Block>
  {
    if ranges == [] then [] else AllBlocks(ranges[..|ranges| - 1]) + BlocksOf(ranges[|ranges| - 1])
  }

  /** The blocks of a port list; without one, all ports. */
  function PortBlocks(ports: seq<u16>): seq<Block>
  {
    if ports == [] then [Block(0, 16)] else AllBlocks(RangesOf(ports))
  }

  lemma {:induction false} CompileConcat(s: seq<PortSegment>, bs: seq<Block>, t: seq<PortSegment>, cs: seq<Block>)
    requires AllCompile(s, bs) && AllCompile(t, cs)
    ensures AllCompile(s + t, bs + cs)
  {
  }

  /** generate_port_segment, for the port list of one end; None where reading it overflows. */
  method GeneratePortSegment(ports: seq<u16>) returns (r: Option<seq<PortSegment>>)
    ensures r.None? <==> Overflows(ports)
    ensures r.Some? ==> AllCompile(r.value, PortBlocks(ports))
  {
    var read := GetPortRange(ports);
    if read.None? { return None; }
    var ranges := read.value;
    var segs: seq<PortSegment> := [];
    for i := 0 to |ranges|
      invariant AllCompile(segs, AllBlocks(ranges[..i]))
    {
      var more := New(ranges[i]);
      assert ranges[..i + 1][..i] == ranges[..i];
      CompileConcat(segs, AllBlocks(ranges[..i]), more, BlocksOf(ranges[i]));
      segs := segs + more;
    }
    assert ranges[..|ranges|] == ranges;
    SomeBlock(ports);
    if segs == [] {
      AlignedZero(16);
      SixteenBits();
      segs := [ALL];
    }
    return Some(segs);
  }

  /** How many of the blocks hold x. */
  function BlocksWith(bs: seq<Block>, x: int): nat
  {
    if bs == [] then 0 else BlocksWith(bs[..|bs| - 1], x) + if bs[|bs| - 1].Has(x) then 1 else 0
  }

  /** How many of the segments match x. */
  function SegmentsWith(segs: seq<PortSegment>, x: u16): nat
  {
    if segs == [] then 0 else SegmentsWith(segs[..|segs| - 1], x) + if segs[|segs| - 1].Matches(x) then 1 else 0
  }

  /** How many of the ranges hold x. */
  function RangesWith(ranges: seq<PortRange>, x: int): nat
  {
    if ranges == [] then 0 else RangesWith(ranges[..|ranges| - 1], x) + if ranges[|ranges| - 1].Has(x) then 1 else 0
  }

  lemma {:induction false} BlocksWithConcat(a: seq<Block>, b: seq<Block>, x: int)
    ensures BlocksWith(a + b, x) == BlocksWith(a, x) + BlocksWith(b, x)
  {
    if b == [] {
      assert a + b == a;
    } else {
      BlocksWithConcat(a, b[..|b| - 1], x);
      assert (a + b)[..|a + b| - 1] == a + b[..|b| - 1];
    }
  }

  lemma {:induction false} SegmentsAreBlocks(segs: seq<PortSegment>, bs: seq<Block>, x: u16)
    requires AllCompile(segs, bs)
    ensures SegmentsWith(segs, x) == BlocksWith(bs, x)
  {
    if segs != [] {
      var last := |segs| - 1;
      SegmentsAreBlocks(segs[..last], bs[..last], x);
      CompiledMatch(segs[last], bs[last], x);
    }
  }

  /** Of disjoint blocks, one holds x or none does. */
  lemma {:induction false} OneBlockWith(bs: seq<Block>, x: int)
    requires InOrder(bs)
    ensures BlocksWith(bs, x) == if Hit(bs, x) then 1 else 0
  {
    if bs != [] {
      var front, last := bs[..|bs| - 1], bs[|bs| - 1];
      OneBlockWith(front, x);
      assert bs == front + [last];
      HitAppend(front, last, x);
      if k :| 0 <= k < |front| && front[k].Has(x) {
        assert bs[k].base + Pow2(bs[k].exp) <= bs[|bs| - 1].base;
      }
    }
  }

  lemma RangeBlocks(r: PortRange, x: int)
    ensures BlocksWith(BlocksOf(r), x) == if r.Has(x) then 1 else 0
    ensures BlocksOf(r) == [] <==> r.min > r.max
  {
    GreedyShape(r.min, r.max, 16);
    GreedyCovers(r.min, r.max, 16);
    OneBlockWith(BlocksOf(r), x);
  }

  lemma {:induction false} AllBlocksCount(ranges: seq<PortRange>, x: int)
    ensures BlocksWith(AllBlocks(ranges), x) == RangesWith(ranges, x)
  {
    if ranges != [] {
      var front, last := ranges[..|ranges| - 1], ranges[|ranges| - 1];
      AllBlocksCount(front, x);
      RangeBlocks(last, x);
      BlocksWithConcat(AllBlocks(front), BlocksOf(last), x);
    }
  }

  /** A list that is not empty has a port. */
  lemma SomeBlock(ports: seq<u16>)
    ensures AllBlocks(RangesOf(ports)) == [] <==> ports == []
  {
    if ports != [] {
      var ranges := RangesOf(ports);
      RangesInRun(ports, |ranges| - 1);
      RangeBlocks(ranges[|ranges| - 1], ports[0]);
    }
  }

  /** How often the port list of one end lets x through. */
  function PortTimes(ports: seq<u16>, x: u16): nat
  {
    if ports == [] then 1 else RangesWith(RangesOf(ports), x)
  }

  lemma PortsCount(ports: seq<u16>, segs: seq<PortSegment>, x: u16)
    requires AllCompile(segs, PortBlocks(ports))
    ensures SegmentsWith(segs, x) == PortTimes(ports, x)
  {
    SegmentsAreBlocks(segs, PortBlocks(ports), x);
    AllBlocksCount(RangesOf(ports), x);
    if ports == [] {
      SixteenBits();
      assert [Block(0, 16)][..0] == [];
      assert BlocksWith([Block(0, 16)][..0], x) == 0;
    }
  }

  // ----- A whole ACL -----

  /** A network and the number of its host bits. */
  datatype Network = Network(seg: IpSegment, h: nat) {
    predicate Valid() { (|seg.ip| == 4 || |seg.ip| == 16) && seg.IsNetwork(|seg.ip|, h) }

    predicate Holds(ip: seq<Byte>, epc: u16)
    {
      (seg.epc == 0 || seg.epc == epc) && Block(Value(seg.ip), h).Has(Value(ip))
    }
  }

  predicate AllNetworks(nets: seq<Network>)
  {
    forall k :: 0 <= k < |nets| ==> nets[k].Valid()
  }

  /** The networks of both ends and their ports, which an ACL has twice: as ranges and as lists. */
  datatype Acl<P> = Acl(head: Head, srcIps: seq<Network>, dstIps: seq<Network>, srcPortRanges: seq<PortRange>,
                        dstPortRanges: seq<PortRange>, srcPorts: seq<u16>, dstPorts: seq<u16>, policy: P)
  {
    predicate Valid() { AllNetworks(srcIps) && AllNetworks(dstIps) }

    /** Both ways in which the agent makes an ACL, try_from and new, fill in the ranges and leave the
        lists empty. */
    predicate WithoutLists() { srcPorts == [] && dstPorts == [] }
  }

  /** An ACL with the segments of its ports. */
  datatype Segmented<P> = Segmented(acl: Acl<P>, srcSegs: seq<PortSegment>, dstSegs: seq<PortSegment>) {
    predicate Valid()
    {
      acl.Valid() && AllCompile(srcSegs, PortBlocks(acl.srcPorts)) && AllCompile(dstSegs, PortBlocks(acl.dstPorts))
    }

    /** The rules for one source segment. */
    function Row(n: nat, src: IpSegment, dst: IpSegment, sp: PortSegment, dps: seq<PortSegment>): (rules: seq<Rule<P>>)
      requires |src.ip| == |src.mask| == |dst.ip| == |dst.mask| == n
      ensures AllValid(rules, n) && forall k :: 0 <= k < |rules| ==> rules[k].policy == acl.policy
    {
      if dps == [] then []
      else Row(n, src, dst, sp, dps[..|dps| - 1]) + [Item(acl.head, src, dst, sp, dps[|dps| - 1], acl.policy, n)]
    }

    /** The rules between two networks: every pair of segments, source segment first. */
    function Product(n: nat, src: IpSegment, dst: IpSegment, sps: seq<PortSegment>): (rules: seq<Rule<P>>)
      requires |src.ip| == |src.mask| == |dst.ip| == |dst.mask| == n
      ensures AllValid(rules, n) && forall k :: 0 <= k < |rules| ==> rules[k].policy == acl.policy
    {
      if sps == [] then [] else Product(n, src, dst, sps[..|sps| - 1]) + Row(n, src, dst, sps[|sps| - 1], dstSegs)
    }

    /** The rules from one network to those of the list that have addresses of the same length. */
    function From(n: nat, src: IpSegment, dsts: seq<Network>): (rules: seq<Rule<P>>)
      requires |src.ip| == |src.mask| == n && AllNetworks(dsts)
      ensures AllValid(rules, n) && forall k :: 0 <= k < |rules| ==> rules[k].policy == acl.policy
    {
      if dsts == [] then []
      else
        var front, dst := From(n, src, dsts[..|dsts| - 1]), dsts[|dsts| - 1].seg;
        if |dst.ip| == n then front + Product(n, src, dst, srcSegs) else front
    }

    /** All rules of the ACL for addresses of n bytes. */
    function Rules(n: nat, srcs: seq<Network>): (rules: seq<Rule<P>>)
      requires AllNetworks(srcs) && AllNetworks(acl.dstIps)
      ensures AllValid(rules, n) && forall k :: 0 <= k < |rules| ==> rules[k].policy == acl.policy
    {
      if srcs == [] then []
      else
        var front, src := Rules(n, srcs[..|srcs| - 1]), srcs[|srcs| - 1].seg;
        if |src.ip| == n then front + From(n, src, acl.dstIps) else front
    }
  }

  lemma RowStep<P>(a: Segmented<P>, n: nat, src: IpSegment, dst: IpSegment, sp: PortSegment, j: nat)
    requires |src.ip| == |src.mask| == |dst.ip| == |dst.mask| == n && j < |a.dstSegs|
    ensures a.Row(n, src, dst, sp, a.dstSegs[..j + 1])
         == a.Row(n, src, dst, sp, a.dstSegs[..j]) + [Item(a.acl.head, src, dst, sp, a.dstSegs[j], a.acl.policy, n)]
  {
    assert a.dstSegs[..j + 1][..j] == a.dstSegs[..j];
  }

  lemma ProductStep<P>(a: Segmented<P>, n: nat, src: IpSegment, dst: IpSegment, i: nat)
    requires |src.ip| == |src.mask| == |dst.ip| == |dst.mask| == n && i < |a.srcSegs|
    ensures a.Product(n, src, dst, a.srcSegs[..i + 1])
         == a.Product(n, src, dst, a.srcSegs[..i]) + a.Row(n, src, dst, a.srcSegs[i], a.dstSegs)
  {
    assert a.srcSegs[..i + 1][..i] == a.srcSegs[..i];
  }

  /** The two nested loops of generate_match_field and generate_match_field6; matchField is what
      the ACL holds before. */
  method GenerateMatchField<P>(a: Segmented<P>, n: nat, src: IpSegment, dst: IpSegment, matchField: seq<Rule<P>>)
    returns (fields: seq<Rule<P>>)
    requires |src.ip| == |src.mask| == |dst.ip| == |dst.mask| == n
    ensures fields == matchField + a.Product(n, src, dst, a.srcSegs)
  {
    hide Item;
    fields := matchField;
    for i := 0 to |a.srcSegs|
      invariant fields == matchField + a.Product(n, src, dst, a.srcSegs[..i])
    {
      ProductStep(a, n, src, dst, i);
      fields := GenerateRow(a, n, src, dst, a.srcSegs[i], fields);
    }
    assert a.srcSegs[..|a.srcSegs|] == a.srcSegs;
  }

  /** The inner loop. */
  method GenerateRow<P>(a: Segmented<P>, n: nat, src: IpSegment, dst: IpSegment, sp: PortSegment,
                        matchField: seq<Rule<P>>)
    returns (fields: seq<Rule<P>>)
    requires |src.ip| == |src.mask| == |dst.ip| == |dst.mask| == n
    ensures fields == matchField + a.Row(n, src, dst, sp, a.dstSegs)
  {
    fields := matchField;
    for j := 0 to |a.dstSegs|
      invariant fields == matchField + a.Row(n, src, dst, sp, a.dstSegs[..j])
    {
      RowStep(a, n, src, dst, sp, j);
      fields := fields + [Item(a.acl.head, src, dst, sp, a.dstSegs[j], a.acl.policy, n)];
    }
    assert a.dstSegs[..|a.dstSegs|] == a.dstSegs;
  }

  /** The rules that a source network adds for addresses of n bytes. */
  function Added<P>(a: Segmented<P>, n: nat, src: Network, dsts: seq<Network>): seq<Rule<P>>
    requires src.Valid() && AllNetworks(dsts)
  {
    if |src.seg.ip| == n then a.From(n, src.seg, dsts) else []
  }

  lemma AddedStep<P>(a: Segmented<P>, n: nat, src: Network, dsts: seq<Network>, j: nat, before: seq<Rule<P>>)
    requires src.Valid() && AllNetworks(dsts) && j < |dsts|
    ensures before + Added(a, n, src, dsts[..j + 1])
         == before + Added(a, n, src, dsts[..j])
            + if |src.seg.ip| == n && |dsts[j].seg.ip| == n then a.Product(n, src.seg, dsts[j].seg, a.srcSegs) else []
  {
    assert dsts[..j + 1][..j] == dsts[..j];
  }

  lemma RulesStep<P>(a: Segmented<P>, n: nat, srcs: seq<Network>, i: nat)
    requires AllNetworks(srcs) && AllNetworks(a.acl.dstIps) && i < |srcs|
    ensures a.Rules(n, srcs[..i + 1]) == a.Rules(n, srcs[..i]) + Added(a, n, srcs[i], a.acl.dstIps)
  {
    assert srcs[..i + 1][..i] == srcs[..i];
  }

  /** What an ACL is compiled to: its segments, and its rules for either version. */
  datatype Output<P> = Output(a: Segmented<P>, fields4: seq<Rule<P>>, fields6: seq<Rule<P>>) {
    ghost predicate Valid()
    {
      a.Valid() && fields4 == a.Rules(4, a.acl.srcIps) && fields6 == a.Rules(16, a.acl.srcIps)
    }
  }

  /** generate_match: rules between networks of the same address length, those of version 4 and those
      of version 6; None where reading a port list overflows. */
  method GenerateMatch<P>(acl: Acl<P>) returns (r: Option<Output<P>>)
    requires acl.Valid()
    ensures r.None? <==> Overflows(acl.srcPorts) || Overflows(acl.dstPorts)
    ensures r.Some? ==> r.value.a.acl == acl && r.value.Valid()
  {
    var srcSegs := GeneratePortSegment(acl.srcPorts);
    if srcSegs.None? { return None; }
    var dstSegs := GeneratePortSegment(acl.dstPorts);
    if dstSegs.None? { return None; }
    var a := Segmented(acl, srcSegs.value, dstSegs.value);
    var fields4, fields6 := GenerateAll(a);
    return Some(Output(a, fields4, fields6));
  }

  /** The two nested loops of generate_match. */
  method GenerateAll<P>(a: Segmented<P>) returns (fields4: seq<Rule<P>>, fields6: seq<Rule<P>>)
    requires a.acl.Valid()
    ensures fields4 == a.Rules(4, a.acl.srcIps) && fields6 == a.Rules(16, a.acl.srcIps)
  {
    var srcs := a.acl.srcIps;
    fields4, fields6 := [], [];
    for i := 0 to |srcs|
      invariant fields4 == a.Rules(4, srcs[..i]) && fields6 == a.Rules(16, srcs[..i])
    {
      RulesStep(a, 4, srcs, i);
      RulesStep(a, 16, srcs, i);
      fields4, fields6 := GenerateFrom(a, srcs[i], fields4, fields6);
    }
    assert srcs[..|srcs|] == srcs;
  }

  /** The inner one. */
  method GenerateFrom<P>(a: Segmented<P>, src: Network, before4: seq<Rule<P>>, before6: seq<Rule<P>>)
    returns (fields4: seq<Rule<P>>, fields6: seq<Rule<P>>)
    requires a.acl.Valid() && src.Valid()
    ensures fields4 == before4 + Added(a, 4, src, a.acl.dstIps) && fields6 == before6 + Added(a, 16, src, a.acl.dstIps)
  {
    fields4, fields6 := before4, before6;
    var dsts := a.acl.dstIps;
    for j := 0 to |dsts|
      invariant fields4 == before4 + Added(a, 4, src, dsts[..j]) && fields6 == before6 + Added(a, 16, src, dsts[..j])
    {
      AddedStep(a, 4, src, dsts, j, before4);
      AddedStep(a, 16, src, dsts, j, before6);
      if |src.seg.ip| == 16 && |dsts[j].seg.ip| == 16 {
        fields6 := GenerateMatchField(a, 16, src.seg, dsts[j].seg, fields6);
      } else if |src.seg.ip| == 4 && |dsts[j].seg.ip| == 4 {
        fields4 := GenerateMatchField(a, 4, src.seg, dsts[j].seg, fields4);
      }
    }
    assert dsts[..|dsts|] == dsts;
  }

  /** The networks an ACL is compiled with: with no group, those that hold every address. */
  function OrAny(ips: seq<Network>): seq<Network>
  {
    if ips == [] then [AnyNetwork(4), AnyNetwork(16)] else ips
  }

  function AnyNetwork(n: nat): Network { Network(IpSegment(Zeros(n), Zeros(n), 0), 8 * n) }

  lemma {:induction false} ValueOfZeros(n: nat)
    ensures Value(Zeros(n)) == 0
  {
    if n > 0 {
      ValueOfZeros(n - 1);
      assert Zeros(n)[..n - 1] == Zeros(n - 1);
    }
  }

  lemma AnyHolds(n: nat, ip: seq<Byte>, epc: u16)
    requires (n == 4 || n == 16) && |ip| == n
    ensures AnyNetwork(n).Valid() && AnyNetwork(n).Holds(ip, epc)
  {
    ValueOfZeros(n);
    AlignedZero(8 * n);
    ValueBound(ip);
  }

  // ----- What the rules of an ACL mean -----

  function Policies<P>(rules: seq<Rule<P>>): (ps: seq<P>)
    ensures |ps| == |rules| && forall i :: 0 <= i < |ps| ==> ps[i] == rules[i].policy
  {
    seq(|rules|, i requires 0 <= i < |rules| => rules[i].policy)
  }

  /** How many of the rules match. */
  function Hits<P>(rules: seq<Rule<P>>, f: Field, n: nat): nat
    requires AllValid(rules, n) && f.Valid(n)
  {
    if rules == [] then 0 else Hits(rules[..|rules| - 1], f, n) + Once(rules[|rules| - 1].Matches(f, n))
  }

  function Once(b: bool): nat { if b then 1 else 0 }

  lemma {:induction false} HitsConcat<P>(a: seq<Rule<P>>, b: seq<Rule<P>>, f: Field, n: nat)
    requires AllValid(a, n) && AllValid(b, n) && f.Valid(n)
    ensures AllValid(a + b, n) && Hits(a + b, f, n) == Hits(a, f, n) + Hits(b, f, n)
  {
    if b == [] {
      assert a + b == a;
    } else {
      var front, last := b[..|b| - 1], b[|b| - 1];
      HitsConcat(a, front, f, n);
      assert (a + b)[..|a + b| - 1] == a + front && (a + b)[|a + b| - 1] == last;
    }
  }

  /** The items between two networks match f iff ok holds and the segments match x and y. */
  ghost predicate Fits<P>(acl: Acl<P>, n: nat, src: IpSegment, dst: IpSegment, f: Field, ok: bool, x: u16, y: u16)
    requires |src.ip| == |src.mask| == |dst.ip| == |dst.mask| == n && f.Valid(n)
  {
    forall sp: PortSegment, dp: PortSegment ::
      Item(acl.head, src, dst, sp, dp, acl.policy, n).Matches(f, n) <==> ok && sp.Matches(x) && dp.Matches(y)
  }

  lemma FitsBetween<P>(acl: Acl<P>, n: nat, src: Network, dst: Network, key: LookupKey)
    requires src.seg.IsNetwork(n, src.h) && dst.seg.IsNetwork(n, dst.h) && key.Valid(n)
    ensures Fits(acl, n, src.seg, dst.seg, KeyField(key, n),
                 acl.head.Matches(key) && src.Holds(key.srcIp, key.srcEpc) && dst.Holds(key.dstIp, key.dstEpc),
                 key.srcPort, key.dstPort)
  {
    forall sp: PortSegment, dp: PortSegment
      ensures Item(acl.head, src.seg, dst.seg, sp, dp, acl.policy, n).Matches(KeyField(key, n), n)
         <==> && acl.head.Matches(key) && src.Holds(key.srcIp, key.srcEpc) && dst.Holds(key.dstIp, key.dstEpc)
              && sp.Matches(key.srcPort) && dp.Matches(key.dstPort)
    {
      ItemMatches(acl.head, src.seg, src.h, dst.seg, dst.h, sp, dp, acl.policy, n, key);
    }
  }

  /** m, k times over: their product, one step at a time. */
  function TimesOver(k: nat, m: nat): nat { if k == 0 then 0 else TimesOver(k - 1, m) + m }

  lemma {:induction false} TimesOverIs(k: nat, m: nat)
    ensures TimesOver(k, m) == k * m
    ensures TimesOver(k, m) > 0 <==> k > 0 && m > 0
  {
    if k > 0 { TimesOverIs(k - 1, m); }
  }

  lemma {:induction false} RowHits<P>(a: Segmented<P>, n: nat, src: IpSegment, dst: IpSegment, sp: PortSegment,
                                      dps: seq<PortSegment>, f: Field, ok: bool, x: u16, y: u16)
    requires |src.ip| == |src.mask| == |dst.ip| == |dst.mask| == n && f.Valid(n)
             && Fits(a.acl, n, src, dst, f, ok, x, y)
    ensures Hits(a.Row(n, src, dst, sp, dps), f, n) == if ok && sp.Matches(x) then SegmentsWith(dps, y) else 0
    decreases dps
  {
    if dps != [] {
      var front, last := dps[..|dps| - 1], dps[|dps| - 1];
      var row, item := a.Row(n, src, dst, sp, front), Item(a.acl.head, src, dst, sp, last, a.acl.policy, n);
      RowHits(a, n, src, dst, sp, front, f, ok, x, y);
      assert a.Row(n, src, dst, sp, dps)[..|row|] == row && a.Row(n, src, dst, sp, dps)[|row|] == item;
    }
  }

  lemma {:induction false} ProductHits<P>(a: Segmented<P>, n: nat, src: IpSegment, dst: IpSegment,
                                          sps: seq<PortSegment>, f: Field, ok: bool, x: u16, y: u16)
    requires |src.ip| == |src.mask| == |dst.ip| == |dst.mask| == n && f.Valid(n)
             && Fits(a.acl, n, src, dst, f, ok, x, y)
    ensures Hits(a.Product(n, src, dst, sps), f, n)
         == if ok then TimesOver(SegmentsWith(sps, x), SegmentsWith(a.dstSegs, y)) else 0
    decreases sps
  {
    hide AllValid, Fits, Segmented.Row, Field.Valid, PortSegment.Matches, Rule.Matches;
    if sps != [] {
      var front, last := sps[..|sps| - 1], sps[|sps| - 1];
      ProductHits(a, n, src, dst, front, f, ok, x, y);
      RowHits(a, n, src, dst, last, a.dstSegs, f, ok, x, y);
      HitsConcat(a.Product(n, src, dst, front), a.Row(n, src, dst, last, a.dstSegs), f, n);
    }
  }

  /** How many of the networks with addresses of n bytes hold the address and EPC. */
  function NetworksWith(nets: seq<Network>, n: nat, ip: seq<Byte>, epc: u16): nat
  {
    if nets == [] then 0
    else
      var last := nets[|nets| - 1];
      NetworksWith(nets[..|nets| - 1], n, ip, epc) + Once(|last.seg.ip| == n && last.Holds(ip, epc))
  }

  /** An end without groups holds every address, and counts once. */
  lemma NoGroupCountsOnce(n: nat, ip: seq<Byte>, epc: u16)
    requires (n == 4 || n == 16) && |ip| == n
    ensures AllNetworks(OrAny([])) && NetworksWith(OrAny([]), n, ip, epc) == 1
  {
    AnyHolds(n, ip, epc);
    AnyHolds(4, Zeros(4), epc);
    AnyHolds(16, Zeros(16), epc);
    var v4, v6 := AnyNetwork(4), AnyNetwork(16);
    hide Network.Holds, Network.Valid;
    var one := [v4];
    assert OrAny([]) == [v4, v6] && [v4, v6][..1] == one && one[..0] == [];
    assert NetworksWith(one, n, ip, epc) == NetworksWith(one[..0], n, ip, epc) + Once(n == 4 && v4.Holds(ip, epc));
  }

  lemma PairHits<P>(a: Segmented<P>, n: nat, src: Network, dst: Network, key: LookupKey)
    requires src.seg.IsNetwork(n, src.h) && dst.seg.IsNetwork(n, dst.h) && key.Valid(n)
    ensures Hits(a.Product(n, src.seg, dst.seg, a.srcSegs), KeyField(key, n), n)
         == if a.acl.head.Matches(key) && src.Holds(key.srcIp, key.srcEpc) && dst.Holds(key.dstIp, key.dstEpc)
            then TimesOver(SegmentsWith(a.srcSegs, key.srcPort), SegmentsWith(a.dstSegs, key.dstPort)) else 0
  {
    FitsBetween(a.acl, n, src, dst, key);
    ProductHits(a, n, src.seg, dst.seg, a.srcSegs, KeyField(key, n),
                a.acl.head.Matches(key) && src.Holds(key.srcIp, key.srcEpc) && dst.Holds(key.dstIp, key.dstEpc),
                key.srcPort, key.dstPort);
  }

  lemma {:induction false} FromHits<P>(a: Segmented<P>, n: nat, src: Network, dsts: seq<Network>, key: LookupKey,
                                       ports: nat)
    requires src.seg.IsNetwork(n, src.h) && AllNetworks(dsts) && key.Valid(n)
    requires ports == TimesOver(SegmentsWith(a.srcSegs, key.srcPort), SegmentsWith(a.dstSegs, key.dstPort))
    ensures Hits(a.From(n, src.seg, dsts), KeyField(key, n), n)
         == if a.acl.head.Matches(key) && src.Holds(key.srcIp, key.srcEpc)
            then TimesOver(NetworksWith(dsts, n, key.dstIp, key.dstEpc), ports) else 0
    decreases dsts
  {
    hide AllValid, Segmented.Product, Head.Matches, LookupKey.Valid, KeyField, SegmentsWith, Rule.Matches;
    hide Network.Holds;
    if dsts != [] {
      var front, last := dsts[..|dsts| - 1], dsts[|dsts| - 1];
      FromHits(a, n, src, front, key, ports);
      if |last.seg.ip| == n {
        PairHits(a, n, src, last, key);
        HitsConcat(a.From(n, src.seg, front), a.Product(n, src.seg, last.seg, a.srcSegs), KeyField(key, n), n);
      }
    }
  }

  lemma {:induction false} RulesHits<P>(a: Segmented<P>, n: nat, srcs: seq<Network>, key: LookupKey, ports: nat,
                                        ends: nat)
    requires AllNetworks(srcs) && AllNetworks(a.acl.dstIps) && key.Valid(n)
    requires ports == TimesOver(SegmentsWith(a.srcSegs, key.srcPort), SegmentsWith(a.dstSegs, key.dstPort))
    requires ends == TimesOver(NetworksWith(a.acl.dstIps, n, key.dstIp, key.dstEpc), ports)
    ensures Hits(a.Rules(n, srcs), KeyField(key, n), n)
         == if a.acl.head.Matches(key) then TimesOver(NetworksWith(srcs, n, key.srcIp, key.srcEpc), ends) else 0
    decreases srcs
  {
    hide AllValid, Segmented.From, Head.Matches, LookupKey.Valid, KeyField, SegmentsWith, Rule.Matches, Network.Holds;
    if srcs != [] {
      var front, last := srcs[..|srcs| - 1], srcs[|srcs| - 1];
      RulesHits(a, n, front, key, ports, ends);
      if |last.seg.ip| == n {
        FromHits(a, n, last, a.acl.dstIps, key, ports);
        HitsConcat(a.Rules(n, front), a.From(n, last.seg, a.acl.dstIps), KeyField(key, n), n);
      }
    }
  }

  /** How often an ACL brings its policy up for a key: once for each choice of a network and a range
      of the port list on each side that hold the key's. */
  function Times<P>(acl: Acl<P>, n: nat, key: LookupKey): nat
  {
    if acl.head.Matches(key)
    then TimesOver(NetworksWith(acl.srcIps, n, key.srcIp, key.srcEpc),
                   TimesOver(NetworksWith(acl.dstIps, n, key.dstIp, key.dstEpc),
                             TimesOver(PortTimes(acl.srcPorts, key.srcPort), PortTimes(acl.dstPorts, key.dstPort))))
    else 0
  }

  /** When an ACL brings its policy up at all: the head fits, and on each side some network holds the
      address and the port list, if there is one, is read so as to hold the port. */
  ghost predicate Admits<P>(acl: Acl<P>, n: nat, key: LookupKey)
  {
    && acl.head.Matches(key)
    && HeldBy(acl.srcIps, n, key.srcIp, key.srcEpc) && HeldBy(acl.dstIps, n, key.dstIp, key.dstEpc)
    && PortAdmitted(acl.srcPorts, key.srcPort) && PortAdmitted(acl.dstPorts, key.dstPort)
  }

  ghost predicate HeldBy(nets: seq<Network>, n: nat, ip: seq<Byte>, epc: u16)
  {
    exists k :: 0 <= k < |nets| && |nets[k].seg.ip| == n && nets[k].Holds(ip, epc)
  }

  ghost predicate PortAdmitted(ports: seq<u16>, x: u16)
  {
    ports == [] || ports[0] <= x <= RunEnd(ports)
  }

  lemma {:induction false} HeldIff(nets: seq<Network>, n: nat, ip: seq<Byte>, epc: u16)
    ensures NetworksWith(nets, n, ip, epc) > 0 <==> HeldBy(nets, n, ip, epc)
  {
    if nets != [] {
      var last := |nets| - 1;
      HeldIff(nets[..last], n, ip, epc);
      if k :| 0 <= k < last && |nets[k].seg.ip| == n && nets[k].Holds(ip, epc) {
        assert nets[..last][k] == nets[k];
      }
    }
  }

  lemma {:induction false} RangesIff(ranges: seq<PortRange>, x: int)
    ensures RangesWith(ranges, x) > 0 <==> Covered(ranges, x)
  {
    if ranges != [] {
      var last := |ranges| - 1;
      RangesIff(ranges[..last], x);
      if k :| 0 <= k < last && ranges[k].Has(x) { assert ranges[..last][k] == ranges[k]; }
    }
  }

  lemma AdmittedIff(ports: seq<u16>, x: u16)
    ensures PortTimes(ports, x) > 0 <==> PortAdmitted(ports, x)
  {
    RangesIff(RangesOf(ports), x);
    if ports != [] { HeldIsRun(ports, x); }
  }

  lemma TimesIff<P>(acl: Acl<P>, n: nat, key: LookupKey)
    ensures Times(acl, n, key) > 0 <==> Admits(acl, n, key)
  {
    var s, d := NetworksWith(acl.srcIps, n, key.srcIp, key.srcEpc), NetworksWith(acl.dstIps, n, key.dstIp, key.dstEpc);
    var p, q := PortTimes(acl.srcPorts, key.srcPort), PortTimes(acl.dstPorts, key.dstPort);
    HeldIff(acl.srcIps, n, key.srcIp, key.srcEpc);
    HeldIff(acl.dstIps, n, key.dstIp, key.dstEpc);
    AdmittedIff(acl.srcPorts, key.srcPort);
    AdmittedIff(acl.dstPorts, key.dstPort);
    TimesOverIs(p, q);
    TimesOverIs(d, TimesOver(p, q));
    TimesOverIs(s, TimesOver(d, TimesOver(p, q)));
  }

  lemma TimesIs<P>(acl: Acl<P>, n: nat, key: LookupKey)
    ensures Times(acl, n, key)
         == if acl.head.Matches(key)
            then NetworksWith(acl.srcIps, n, key.srcIp, key.srcEpc)
                 * (NetworksWith(acl.dstIps, n, key.dstIp, key.dstEpc)
                    * (PortTimes(acl.srcPorts, key.srcPort) * PortTimes(acl.dstPorts, key.dstPort)))
            else 0
  {
    var p, q := PortTimes(acl.srcPorts, key.srcPort), PortTimes(acl.dstPorts, key.dstPort);
    var d := NetworksWith(acl.dstIps, n, key.dstIp, key.dstEpc);
    TimesOverIs(p, q);
    TimesOverIs(d, TimesOver(p, q));
    TimesOverIs(NetworksWith(acl.srcIps, n, key.srcIp, key.srcEpc), TimesOver(d, TimesOver(p, q)));
  }

  /** As many of the rules compiled from an ACL match a key. */
  lemma AclHits<P>(a: Segmented<P>, n: nat, key: LookupKey)
    requires a.Valid() && key.Valid(n)
    ensures Hits(a.Rules(n, a.acl.srcIps), KeyField(key, n), n) == Times(a.acl, n, key)
  {
    PortsCount(a.acl.srcPorts, a.srcSegs, key.srcPort);
    PortsCount(a.acl.dstPorts, a.dstSegs, key.dstPort);
    var ports := TimesOver(SegmentsWith(a.srcSegs, key.srcPort), SegmentsWith(a.dstSegs, key.dstPort));
    RulesHits(a, n, a.acl.srcIps, key, ports, TimesOver(NetworksWith(a.acl.dstIps, n, key.dstIp, key.dstEpc), ports));
  }

  // ----- The port ranges of an ACL -----

  /** What an ACL says: head and networks fit, and the ports are in its port ranges. */
  ghost predicate Wants<P>(acl: Acl<P>, n: nat, key: LookupKey)
  {
    && acl.head.Matches(key)
    && HeldBy(acl.srcIps, n, key.srcIp, key.srcEpc) && HeldBy(acl.dstIps, n, key.dstIp, key.dstEpc)
    && Covered(acl.srcPortRanges, key.srcPort) && Covered(acl.dstPortRanges, key.dstPort)
  }

  /** Without port lists the ports of a key do not matter, whatever the port ranges are. */
  lemma PortsIgnored<P>(acl: Acl<P>, n: nat, key: LookupKey, src: u16, dst: u16)
    requires acl.WithoutLists()
    ensures Times(acl, n, key) == Times(acl, n, key.(srcPort := src, dstPort := dst))
  {
  }

  ghost predicate AllPorts(ranges: seq<PortRange>) { forall x: u16 :: Covered(ranges, x) }

  predicate HasNetwork(nets: seq<Network>, n: nat) { exists k :: 0 <= k < |nets| && |nets[k].seg.ip| == n }

  lemma NetworkHoldsItself(nets: seq<Network>, n: nat) returns (ip: seq<Byte>, epc: u16)
    requires AllNetworks(nets) && HasNetwork(nets, n)
    ensures |ip| == n && HeldBy(nets, n, ip, epc)
  {
    var k :| 0 <= k < |nets| && |nets[k].seg.ip| == n;
    ip, epc := nets[k].seg.ip, nets[k].seg.epc;
  }

  /** A key between networks of the ACL, with a port that is not in its ranges. */
  lemma BroughtUpUnwanted<P>(acl: Acl<P>, n: nat) returns (key: LookupKey)
    requires acl.Valid() && acl.WithoutLists() && HasNetwork(acl.srcIps, n) && HasNetwork(acl.dstIps, n)
    requires !(AllPorts(acl.srcPortRanges) && AllPorts(acl.dstPortRanges))
    ensures key.Valid(n) && Admits(acl, n, key) && !Wants(acl, n, key)
  {
    hide Network.Holds, Covered;
    var src, srcEpc := NetworkHoldsItself(acl.srcIps, n);
    var dst, dstEpc := NetworkHoldsItself(acl.dstIps, n);
    var x: u16 :| !Covered(acl.srcPortRanges, x) || !Covered(acl.dstPortRanges, x);
    key := LookupKey(acl.head.tapType, acl.head.proto % 256, src, dst, srcEpc, dstEpc, x, x);
  }

  /** So an ACL without port lists is taken at its word, for every key with addresses of n bytes, iff it
      has no networks of that length on one side or its ranges hold all ports. */
  lemma TakenAtItsWordIff<P>(acl: Acl<P>, n: nat)
    requires acl.Valid() && acl.WithoutLists()
    ensures (forall key: LookupKey :: key.Valid(n) ==> (Times(acl, n, key) > 0 <==> Wants(acl, n, key)))
       <==> || !HasNetwork(acl.srcIps, n) || !HasNetwork(acl.dstIps, n)
            || (AllPorts(acl.srcPortRanges) && AllPorts(acl.dstPortRanges))
  {
    hide Times, Network.Holds, Covered;
    forall key: LookupKey
      ensures Times(acl, n, key) > 0 <==> Admits(acl, n, key)
    {
      TimesIff(acl, n, key);
    }
    if HasNetwork(acl.srcIps, n) && HasNetwork(acl.dstIps, n)
       && !(AllPorts(acl.srcPortRanges) && AllPorts(acl.dstPortRanges)) {
      var key := BroughtUpUnwanted(acl, n);
    }
  }

  /** The ACL for source port 80, between any addresses: it is brought up, once, for source port 81. */
  lemma Port80Takes81<P>(acl: Acl<P>, key: LookupKey)
    requires acl.head == Head(Any, PROTOCOL_ANY) && acl.srcIps == acl.dstIps == OrAny([]) && acl.WithoutLists()
    requires acl.srcPortRanges == [PortRange(80, 80)] && acl.dstPortRanges == [PortRange(0, 65535)]
    requires key.Valid(4) && key.srcPort == 81
    ensures Times(acl, 4, key) == 1 && !Wants(acl, 4, key)
  {
    hide NetworksWith;
    NoGroupCountsOnce(4, key.srcIp, key.srcEpc);
    NoGroupCountsOnce(4, key.dstIp, key.dstEpc);
  }

  // ----- All ACLs -----

  lemma PoliciesConcat<P>(a: seq<Rule<P>>, b: seq<Rule<P>>)
    ensures Policies(a + b) == Policies(a) + Policies(b)
  {
  }

  lemma {:induction false} MatchingConcat<P>(a: seq<Rule<P>>, b: seq<Rule<P>>, key: Field, n: nat)
    requires AllValid(a, n) && AllValid(b, n) && key.Valid(n)
    ensures AllValid(a + b, n) && Matching(a + b, key, n) == Matching(a, key, n) + Matching(b, key, n)
  {
    hide Rule.Matches, Field.Valid;
    if b == [] {
      assert a + b == a;
    } else {
      var front, last := b[..|b| - 1], b[|b| - 1];
      MatchingConcat(a, front, key, n);
      assert (a + b)[..|a + b| - 1] == a + front && (a + b)[|a + b| - 1] == last;
    }
  }

  /** p, k times. */
  function Copies<P>(p: P, k: nat): seq<P> { if k == 0 then [] else Copies(p, k - 1) + [p] }

  /** Rules with one and the same policy bring it up as often as they match. */
  lemma {:induction false} OnePolicy<P>(rules: seq<Rule<P>>, f: Field, n: nat, policy: P)
    requires AllValid(rules, n) && f.Valid(n) && forall k :: 0 <= k < |rules| ==> rules[k].policy == policy
    ensures Policies(Matching(rules, f, n)) == Copies(policy, Hits(rules, f, n))
  {
    hide Rule.Matches, Field.Valid;
    if rules != [] {
      var front, last := rules[..|rules| - 1], rules[|rules| - 1];
      OnePolicy(front, f, n, policy);
      var some := if last.Matches(f, n) then [last] else [];
      assert Matching(rules, f, n) == Matching(front, f, n) + some;
      PoliciesConcat(Matching(front, f, n), some);
      assert Policies(some) == if last.Matches(f, n) then [policy] else [];
    }
  }

  ghost predicate AllSegmented<P>(acls: seq<Segmented<P>>)
  {
    forall k :: 0 <= k < |acls| ==> acls[k].Valid()
  }

  function AllRules<P>(acls: seq<Segmented<P>>, n: nat): (rules: seq<Rule<P>>)
    requires AllSegmented(acls)
    ensures AllValid(rules, n)
  {
    if acls == [] then []
    else AllRules(acls[..|acls| - 1], n) + acls[|acls| - 1].Rules(n, acls[|acls| - 1].acl.srcIps)
  }

  /** The policies of the ACLs, in order, each as often as its ACL brings it up. */
  function Meaning<P>(acls: seq<Segmented<P>>, n: nat, key: LookupKey): seq<P>
  {
    if acls == [] then []
    else
      var last := acls[|acls| - 1].acl;
      Meaning(acls[..|acls| - 1], n, key) + Copies(last.policy, Times(last, n, key))
  }

  /** Of all compiled rules, those that match a key are those of the ACLs that admit it. */
  lemma {:induction false} RulesMean<P>(acls: seq<Segmented<P>>, n: nat, key: LookupKey)
    requires AllSegmented(acls) && key.Valid(n)
    ensures Policies(Matching(AllRules(acls, n), KeyField(key, n), n)) == Meaning(acls, n, key)
  {
    if acls != [] {
      var front, last := acls[..|acls| - 1], acls[|acls| - 1];
      var a, b, f := AllRules(front, n), last.Rules(n, last.acl.srcIps), KeyField(key, n);
      assert Matching(AllRules(acls, n), f, n) == Matching(a, f, n) + Matching(b, f, n) by {
        MatchingConcat(a, b, f, n);
      }
      assert Policies(Matching(b, f, n)) == Copies(last.acl.policy, Times(last.acl, n, key)) by {
        OnePolicy(b, f, n, last.acl.policy);
        AclHits(last, n, key);
      }
      assert Policies(Matching(a, f, n)) == Meaning(front, n, key) by { RulesMean(front, n, key); }
      PoliciesConcat(Matching(a, f, n), Matching(b, f, n));
    }
  }
}
