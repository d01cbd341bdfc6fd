/** When the table finds every compiled rule. A compiled mask asks about the upper bits of each
    address and port and about all or none of every other field, which decides which of the bits
    that make up an index may stand in for one another. */
module CompiledIndex {
  import opened Numbers
  import opened Powers
  import opened Blocks
  import opened BitSets
  import opened MatchedFields
  import opened PortSegments
  import opened PolicyTable
  import opened Bytes
  import opened AclCompiler
  import opened MaskBits
  import opened RuleIndex

  // ----- What a compiled mask asks about -----

  /** The field a bit belongs to: source and destination address, source and destination EPC, source
      and destination port, protocol, tap type. */
  function FieldOf(n: nat, o: nat): nat
  {
    var j := o / 8;
    if j < n then 0 else if j < 2 * n then 1 else if j < 2 * n + 8 then 2 + (j - 2 * n) / 2 else j - 2 * n - 2
  }

  /** The place of a bit in its address or port, counted from the lowest; 0 in all other fields. */
  function Weight(n: nat, o: nat): nat
  {
    var j := o / 8;
    if j < n then 8 * (n - 1 - j) + o % 8
    else if j < 2 * n then 8 * (2 * n - 1 - j) + o % 8
    else if 2 * n + 4 <= j < 2 * n + 8 then 8 * ((j - 2 * n) % 2) + o % 8
    else 0
  }

  /** From which weight on the bits of each field are asked about. */
  datatype Thresholds = Thresholds(srcIp: nat, dstIp: nat, srcEpc: nat, dstEpc: nat, srcPort: nat, dstPort: nat,
                                   proto: nat, tap: nat) {
    function At(field: nat): nat
    {
      if field == 0 then srcIp else if field == 1 then dstIp
      else if field == 2 then srcEpc else if field == 3 then dstEpc
      else if field == 4 then srcPort else if field == 5 then dstPort
      else if field == 6 then proto else tap
    }
  }

  function Threshold(isSet: bool): nat { if isSet then 0 else 1 }

  /** A mask that asks about exactly the bits from the thresholds on. */
  ghost predicate AsksFrom(mask: Field, n: nat, t: Thresholds)
  {
    mask.Valid(n) && forall o: nat :: One(mask, n, o) <==> o < BitSize(n) && Weight(n, o) >= t.At(FieldOf(n, o))
  }

  lemma FlagBytes(isSet: bool, i: nat)
    requires i < 8
    ensures Bit(Ones(isSet) % 256, i) <==> isSet
    ensures Bit(Ones(isSet) / 256, i) <==> isSet
  {
    assert Pow2(8) == 256;
    OnesBit(8, i);
    BitOfZero(i);
  }

  /** The bytes after the addresses, but for the ports. */
  lemma FlagsAsk(se: bool, de: bool, sp: u16, dp: u16, pr: bool, tap: bool, c: nat, i: nat)
    requires c < OTHERS && !(4 <= c < 8) && i < 8
    ensures Bit(Others(Ones(se), Ones(de), sp, dp, Ones(pr), Ones(tap))[c], i)
       <==> if c < 2 then se else if c < 4 then de else if c == 8 then pr else tap
  {
    FlagBytes(if c < 2 then se else if c < 4 then de else if c == 8 then pr else tap, i);
  }

  lemma OthersPorts(e: u16, d: u16, sp: u16, dp: u16, p: u16, q: u16)
    ensures var bs := Others(e, d, sp, dp, p, q);
            bs[4] == sp % 256 && bs[5] == sp / 256 && bs[6] == dp % 256 && bs[7] == dp / 256
  {
  }

  lemma PortsAsk(se: bool, de: bool, sp: u16, ks: nat, dp: u16, kd: nat, pr: bool, tap: bool, c: nat, i: nat)
    requires ks <= 16 && sp + Pow2(ks) == 65536 && kd <= 16 && dp + Pow2(kd) == 65536 && 4 <= c < 8 && i < 8
    ensures Bit(Others(Ones(se), Ones(de), sp, dp, Ones(pr), Ones(tap))[c], i)
       <==> 8 * (c % 2) + i >= if c < 6 then ks else kd
  {
    OthersPorts(Ones(se), Ones(de), sp, dp, Ones(pr), Ones(tap));
    ByteAsks(Others(Ones(se), Ones(de), sp, dp, Ones(pr), Ones(tap))[c], if c < 6 then sp else dp,
             if c < 6 then ks else kd, c % 2, i);
  }

  lemma ByteAsks(b: Byte, mask: u16, k: nat, high: nat, i: nat)
    requires k <= 16 && mask + Pow2(k) == 65536 && i < 8 && high < 2
             && b == if high == 1 then mask / 256 else mask % 256
    ensures Bit(b, i) <==> 8 * high + i >= k
  {
    PortMaskBit(mask, k, i);
  }

  lemma AddressAsks(mask: Field, n: nat, hs: nat, hd: nat, o: nat)
    requires mask.Valid(n) && hs <= 8 * n && hd <= 8 * n && o < 16 * n
    requires Value(mask.srcIp) + Pow2(hs) == Pow2(8 * n) && Value(mask.dstIp) + Pow2(hd) == Pow2(8 * n)
    ensures One(mask, n, o) <==> Weight(n, o) >= if FieldOf(n, o) == 0 then hs else hd
  {
    hide Pow2, Value, Bit;
    var j, i := o / 8, o % 8;
    if j < n { NetmaskBit(mask.srcIp, hs, j, i); } else { NetmaskBit(mask.dstIp, hd, j - n, i); }
  }

  lemma RestAsks(mask: Field, n: nat, se: bool, de: bool, sp: u16, ks: nat, dp: u16, kd: nat, pr: bool, tap: bool,
                 o: nat)
    requires mask.Valid(n) && ks <= 16 && sp + Pow2(ks) == 65536 && kd <= 16 && dp + Pow2(kd) == 65536
    requires mask.others == Others(Ones(se), Ones(de), sp, dp, Ones(pr), Ones(tap)) && 16 * n <= o < BitSize(n)
    ensures One(mask, n, o) <==>
      Weight(n, o) >= Thresholds(0, 0, Threshold(se), Threshold(de), ks, kd, Threshold(pr),
                                 Threshold(tap)).At(FieldOf(n, o))
  {
    var c, i := o / 8 - 2 * n, o % 8;
    assert mask.ByteAt(n, o / 8) == mask.others[c];
    if 4 <= c < 8 { PortsAsk(se, de, sp, ks, dp, kd, pr, tap, c, i); } else { FlagsAsk(se, de, sp, dp, pr, tap, c, i); }
  }

  lemma OneInside(f: Field, n: nat, o: nat)
    ensures One(f, n, o) ==> o < BitSize(n)
  {
  }

  lemma AddressField(n: nat, o: nat)
    ensures FieldOf(n, o) < 2 <==> o < 16 * n
  {
  }

  lemma MaskAsks(mask: Field, n: nat, hs: nat, hd: nat, se: bool, de: bool, sp: u16, ks: nat, dp: u16, kd: nat,
                 pr: bool, tap: bool)
    requires mask.Valid(n) && hs <= 8 * n && hd <= 8 * n
    requires Value(mask.srcIp) + Pow2(hs) == Pow2(8 * n) && Value(mask.dstIp) + Pow2(hd) == Pow2(8 * n)
    requires ks <= 16 && sp + Pow2(ks) == 65536 && kd <= 16 && dp + Pow2(kd) == 65536
    requires mask.others == Others(Ones(se), Ones(de), sp, dp, Ones(pr), Ones(tap))
    ensures AsksFrom(mask, n, Thresholds(hs, hd, Threshold(se), Threshold(de), ks, kd, Threshold(pr), Threshold(tap)))
  {
    hide One, Weight, FieldOf, Pow2, Value, Others;
    var t := Thresholds(hs, hd, Threshold(se), Threshold(de), ks, kd, Threshold(pr), Threshold(tap));
    forall o: nat
      ensures One(mask, n, o) <==> o < BitSize(n) && Weight(n, o) >= t.At(FieldOf(n, o))
    {
      OneInside(mask, n, o);
      AddressField(n, o);
      if o < 16 * n {
        AddressAsks(mask, n, hs, hd, o);
      } else if o < BitSize(n) {
        RestAsks(mask, n, se, de, sp, ks, dp, kd, pr, tap, o);
      }
    }
  }

  // ----- Compiled rules -----

  /** What one compiled rule comes from: a head, a network and a block of ports on each side. */
  datatype Origin = Origin(head: Head, src: Network, dst: Network, srcBlock: Block, dstBlock: Block) {
    predicate Valid(n: nat)
    {
      && src.seg.IsNetwork(n, src.h) && dst.seg.IsNetwork(n, dst.h)
      && IsPortBlock(srcBlock) && IsPortBlock(dstBlock)
    }

    function RuleFor<P>(n: nat, policy: P): (r: Rule<P>)
      requires Valid(n)
      ensures r.Valid(n)
    {
      Item(head, src.seg, dst.seg, SegmentOf(srcBlock), SegmentOf(dstBlock), policy, n)
    }

    function Asked(): Thresholds
    {
      Thresholds(src.h, dst.h, Threshold(src.seg.epc > 0), Threshold(dst.seg.epc > 0), srcBlock.exp, dstBlock.exp,
                 Threshold(head.proto != PROTOCOL_ANY), Threshold(head.tapType != Any))
    }
  }

  predicate IsPortBlock(b: Block) { b.Aligned() && b.exp <= 16 && b.base < 65536 }

  lemma OriginAsks<P>(g: Origin, n: nat, policy: P)
    requires g.Valid(n)
    ensures AsksFrom(g.RuleFor(n, policy).mask, n, g.Asked())
  {
    var sp, dp := SegmentOf(g.srcBlock), SegmentOf(g.dstBlock);
    ItemMaskIs(g.head, g.src.seg, g.dst.seg, sp, dp, policy, n);
    MaskAsks(g.RuleFor(n, policy).mask, n, g.src.h, g.dst.h, g.src.seg.epc > 0, g.dst.seg.epc > 0,
             sp.mask, g.srcBlock.exp, dp.mask, g.dstBlock.exp, g.head.proto != PROTOCOL_ANY, g.head.tapType != Any);
  }

  /** Every compiled rule is filed under the index of every key that matches it. */
  ghost predicate FindsCompiled(v: Vector, n: nat)
  {
    forall g: Origin, key: LookupKey :: g.Valid(n) && key.Valid(n) ==> Found(g, key, v, n)
  }

  ghost predicate Found(g: Origin, key: LookupKey, v: Vector, n: nat)
    requires g.Valid(n) && key.Valid(n)
  {
    var rule := g.RuleFor(n, ());
    rule.Matches(KeyField(key, n), n) ==> Filed(v.Index(KeyField(key, n), n), rule.field, rule.mask, v, n)
  }

  /** Whatever compiled mask asks about p asks about o. */
  predicate Ahead(n: nat, p: nat, o: nat) { FieldOf(n, p) == FieldOf(n, o) && Weight(n, o) >= Weight(n, p) }

  /** Each offset of the index is asked about whenever the listed offset in its place is. */
  ghost predicate StandsIn(v: Vector, n: nat)
  {
    forall r :: 0 <= r < |v.Chosen(n)| ==> r < |v.vectorBits| && Ahead(n, v.vectorBits[r], v.Chosen(n)[r])
  }

  lemma FoundWhenStandsIn(g: Origin, key: LookupKey, v: Vector, n: nat)
    requires v.Valid(n) && StandsIn(v, n) && g.Valid(n) && key.Valid(n)
    ensures Found(g, key, v, n)
  {
    var rule, f := g.RuleFor(n, ()), KeyField(key, n);
    if rule.Matches(f, n) {
      MatchesAgrees(rule, f, n);
      StandsInKeeps(g, v, n, ());
      FiledWhenKept(f, rule.field, rule.mask, v, n);
    }
  }

  /** Then every compiled rule is kept. */
  lemma StandsInKeeps<P>(g: Origin, v: Vector, n: nat, policy: P)
    requires v.Valid(n) && StandsIn(v, n) && g.Valid(n)
    ensures Keeps(g.RuleFor(n, policy).mask, v, n)
  {
    hide OnesOf, One, Origin.Valid, Origin.RuleFor;
    var mask := g.RuleFor(n, policy).mask;
    OriginAsks(g, n, policy);
    OnesOfAre(v.mask, n, v.minBit, v.maxBit + 1);
    forall r: nat | r < |v.Chosen(n)|
      ensures KeepsAt(mask, v, n, r)
    {
      assert v.Chosen(n)[r] in v.Chosen(n);
      assert Ahead(n, v.vectorBits[r], v.Chosen(n)[r]);
    }
  }

  // ----- A rule that is missed -----

  function MaskNetwork(n: nat, h: nat, epc: u16): Network
    requires h <= 8 * n
  {
    Pow2Monotonic(h, 8 * n);
    Network(IpSegment(Zeros(n), BytesOf(Pow2(8 * n) - Pow2(h), n), epc), h)
  }

  lemma MaskNetworkValid(n: nat, h: nat, epc: u16)
    requires h <= 8 * n
    ensures MaskNetwork(n, h, epc).seg.IsNetwork(n, h)
  {
    Pow2Monotonic(h, 8 * n);
    ValueOfBytes(Pow2(8 * n) - Pow2(h), n);
    ValueOfZeros(n);
    AlignedZero(h);
  }

  /** A rule that asks about p and about no more than it must. */
  function Asking(n: nat, p: nat): Origin
    requires p < BitSize(n)
  {
    var field, w := FieldOf(n, p), Weight(n, p);
    Origin(Head(if field == 7 then Cloud else Any, if field == 6 then 6 else PROTOCOL_ANY),
           MaskNetwork(n, if field == 0 then w else 8 * n, if field == 2 then 1 else 0),
           MaskNetwork(n, if field == 1 then w else 8 * n, if field == 3 then 1 else 0),
           Block(0, if field == 4 then w else 16), Block(0, if field == 5 then w else 16))
  }

  lemma WeightBound(n: nat, o: nat)
    requires o < BitSize(n)
    ensures FieldOf(n, o) < 8
    ensures FieldOf(n, o) < 2 ==> Weight(n, o) < 8 * n
    ensures FieldOf(n, o) == 4 || FieldOf(n, o) == 5 ==> Weight(n, o) < 16
    ensures 2 <= FieldOf(n, o) < 4 || 6 <= FieldOf(n, o) ==> Weight(n, o) == 0
  {
  }

  lemma AskingValid(n: nat, p: nat)
    requires p < BitSize(n)
    ensures Asking(n, p).Valid(n)
  {
    var g := Asking(n, p);
    WeightBound(n, p);
    MaskNetworkValid(n, g.src.h, g.src.seg.epc);
    MaskNetworkValid(n, g.dst.h, g.dst.seg.epc);
    AlignedZero(g.srcBlock.exp);
    AlignedZero(g.dstBlock.exp);
  }

  lemma AskedIsAhead(n: nat, p: nat, o: nat)
    requires p < BitSize(n) && o < BitSize(n)
    ensures Weight(n, o) >= Asking(n, p).Asked().At(FieldOf(n, o)) <==> Ahead(n, p, o)
  {
    WeightBound(n, p);
    WeightBound(n, o);
  }

  lemma AskingIs(n: nat, p: nat)
    requires p < BitSize(n)
    ensures Asking(n, p).Valid(n)
    ensures forall o: nat :: One(Asking(n, p).RuleFor(n, ()).mask, n, o) <==> o < BitSize(n) && Ahead(n, p, o)
  {
    AskingValid(n, p);
    var g := Asking(n, p);
    var mask := g.RuleFor(n, ()).mask;
    assert AsksFrom(mask, n, g.Asked()) by { OriginAsks(g, n, ()); }
    forall o: nat
      ensures One(mask, n, o) <==> o < BitSize(n) && Ahead(n, p, o)
    {
      if o < BitSize(n) { AskedIsAhead(n, p, o); }
    }
  }

  /** Every field is that of some key. */
  function KeyOf(f: Field, n: nat): (key: LookupKey)
    requires f.Valid(n)
    ensures key.Valid(n)
  {
    var b := f.others;
    LookupKey(Idc(b[9]), b[8], f.srcIp, f.dstIp, Word(b[0], b[1]), Word(b[2], b[3]), Word(b[4], b[5]), Word(b[6], b[7]))
  }

  function Word(low: nat, high: nat): (w: u16)
    requires low < 256 && high < 256
    ensures w % 256 == low && w / 256 == high
  {
    256 * high + low
  }

  lemma KeyOfIs(f: Field, n: nat)
    requires f.Valid(n)
    ensures KeyField(KeyOf(f, n), n) == f
  {
    hide KeyField;
    KeyFieldIs(KeyOf(f, n), n);
    var key := KeyOf(f, n);
    TenBytes(Others(key.srcEpc, key.dstEpc, key.srcPort, key.dstPort, key.proto, key.tapType.Code()), f.others);
  }

  /** A compiled rule matches its own field. */
  lemma OwnFieldMatches<P>(g: Origin, n: nat, policy: P)
    requires g.Valid(n)
    ensures var rule := g.RuleFor(n, policy); rule.Matches(rule.field, n)
  {
    hide Item, KeyField, Pow2, Value, Aligned;
    var sp, dp, key := SegmentOf(g.srcBlock), SegmentOf(g.dstBlock), OwnKey(g);
    assert KeyField(key, n) == g.RuleFor(n, policy).field by {
      KeyFieldIs(key, n);
      ItemFieldIs(g.head, g.src.seg, g.dst.seg, sp, dp, policy, n);
    }
    assert sp.Matches(key.srcPort) by { CompiledMatch(sp, g.srcBlock, sp.port); }
    assert dp.Matches(key.dstPort) by { CompiledMatch(dp, g.dstBlock, dp.port); }
    OwnBetween(g, n);
    ItemMatches(g.head, g.src.seg, g.src.h, g.dst.seg, g.dst.h, sp, dp, policy, n, key);
  }

  lemma OwnBetween(g: Origin, n: nat)
    requires g.Valid(n)
    ensures Between(g.head, g.src.seg, g.src.h, g.dst.seg, g.dst.h, OwnKey(g))
  {
  }

  function OwnKey(g: Origin): LookupKey
    requires IsPortBlock(g.srcBlock) && IsPortBlock(g.dstBlock)
  {
    LookupKey(g.head.tapType, if g.head.proto == PROTOCOL_ANY then 0 else g.head.proto % 256, g.src.seg.ip,
              g.dst.seg.ip, g.src.seg.epc, g.dst.seg.epc, g.srcBlock.base, g.dstBlock.base)
  }

  /** Where an offset of the index is not ahead of the listed one, a compiled rule is missed. */
  lemma MissedUnlessAhead(v: Vector, n: nat, r: nat) returns (g: Origin, key: LookupKey)
    requires v.Valid(n) && r < |v.Chosen(n)|
    requires !(r < |v.vectorBits| && Ahead(n, v.vectorBits[r], v.Chosen(n)[r]))
    ensures g.Valid(n) && key.Valid(n) && !Found(g, key, v, n)
  {
    var bits := v.Chosen(n);
    OnesOfAre(v.mask, n, v.minBit, v.maxBit + 1);
    assert bits[r] in bits;
    var o := bits[r];
    var p := if r < |v.vectorBits| then v.vectorBits[r] else ElsewhereThan(n, o);
    g, key := MissedBy(v, n, r, p);
  }

  /** Some bit of another field. */
  function ElsewhereThan(n: nat, o: nat): (p: nat)
    ensures p < BitSize(n) && FieldOf(n, p) != FieldOf(n, o)
  {
    if FieldOf(n, o) == 7 then 8 * (2 * n + 8) else 8 * (2 * n + 9)
  }

  lemma MissedBy(v: Vector, n: nat, r: nat, p: nat) returns (g: Origin, key: LookupKey)
    requires v.Valid(n) && r < |v.Chosen(n)| && p < BitSize(n) && v.Chosen(n)[r] < BitSize(n)
    requires (r < |v.vectorBits| ==> p == v.vectorBits[r]) && !Ahead(n, p, v.Chosen(n)[r])
    ensures g.Valid(n) && key.Valid(n) && !Found(g, key, v, n)
  {
    var o := v.Chosen(n)[r];
    hide Origin.RuleFor, Origin.Valid, Filed, Rule.Matches, One;
    AskingIs(n, p);
    g := Asking(n, p);
    var rule := g.RuleFor(n, ());
    OwnFieldMatches(g, n, ());
    var f := MissedUnlessKept(rule, v, n, r);
    key := KeyOf(f, n);
    KeyOfIs(f, n);
  }

  /** The table finds every compiled rule iff each offset of the index can stand in for the listed
      one in its place. */
  lemma FindsCompiledIff(v: Vector, n: nat)
    requires v.Valid(n)
    ensures FindsCompiled(v, n) <==> StandsIn(v, n)
  {
    if StandsIn(v, n) {
      forall g: Origin, key: LookupKey | g.Valid(n) && key.Valid(n)
        ensures Found(g, key, v, n)
      {
        FoundWhenStandsIn(g, key, v, n);
      }
    } else {
      var r :| 0 <= r < |v.Chosen(n)| && !(r < |v.vectorBits| && Ahead(n, v.vectorBits[r], v.Chosen(n)[r]));
      var g, key := MissedUnlessAhead(v, n, r);
    }
  }

  // ----- The vectors that init builds -----

  /** Both bits lie in one byte of an address, or in one of the other fields. */
  predicate OneUnit(n: nat, p: nat, o: nat) { FieldOf(n, p) == FieldOf(n, o) && (FieldOf(n, p) < 2 ==> p / 8 == o / 8) }

  lemma UnitIsAhead(n: nat, p: nat, o: nat)
    requires p <= o < BitSize(n)
    ensures Ahead(n, p, o) <==> OneUnit(n, p, o)
  {
  }

  /** The table on such a vector finds every compiled rule iff each offset of the index lies in one
      byte of an address, or in one other field, with the listed offset in its place. */
  lemma BuiltFindsIff(v: Vector, n: nat, size: nat)
    requires Built(v, n, size)
    ensures v.Valid(n) && |v.Chosen(n)| <= |v.vectorBits|
    ensures FindsCompiled(v, n)
       <==> forall r :: 0 <= r < |v.Chosen(n)| ==> OneUnit(n, v.vectorBits[r], v.Chosen(n)[r])
  {
    ChosenOfBuilt(v, n, size);
    FindsCompiledIff(v, n);
    var bits := v.Chosen(n);
    forall r | 0 <= r < |bits|
      ensures r < |v.vectorBits| && (Ahead(n, v.vectorBits[r], bits[r]) <==> OneUnit(n, v.vectorBits[r], bits[r]))
    {
      NowhereBehind(bits, v.vectorBits, r);
      assert bits[r] in bits;
      UnitIsAhead(n, v.vectorBits[r], bits[r]);
    }
    SubsetLength(bits, v.vectorBits);
  }

  // ----- From the ACLs to the policies of a key -----

  /** The rule is a compiled one. */
  ghost predicate Comes<P>(rule: Rule<P>, n: nat)
  {
    exists g: Origin :: g.Valid(n) && rule == g.RuleFor(n, rule.policy)
  }

  ghost predicate AllCome<P>(rules: seq<Rule<P>>, n: nat) { forall k :: 0 <= k < |rules| ==> Comes(rules[k], n) }

  lemma ItemComes<P>(head: Head, src: Network, dst: Network, sp: PortSegment, sb: Block, dp: PortSegment, db: Block,
                     policy: P, n: nat)
    requires src.seg.IsNetwork(n, src.h) && dst.seg.IsNetwork(n, dst.h) && Compiles(sp, sb) && Compiles(dp, db)
    ensures Comes(Item(head, src.seg, dst.seg, sp, dp, policy, n), n)
  {
    var g := Origin(head, src, dst, sb, db);
    assert SegmentOf(sb) == sp && SegmentOf(db) == dp;
    assert g.Valid(n) && Item(head, src.seg, dst.seg, sp, dp, policy, n) == g.RuleFor(n, policy);
  }

  lemma {:induction false} RowComes<P>(a: Segmented<P>, n: nat, src: Network, dst: Network, sp: PortSegment, sb: Block,
                                       dps: seq<PortSegment>, dbs: seq<Block>)
    requires src.seg.IsNetwork(n, src.h) && dst.seg.IsNetwork(n, dst.h) && Compiles(sp, sb) && AllCompile(dps, dbs)
    ensures AllCome(a.Row(n, src.seg, dst.seg, sp, dps), n)
    decreases dps
  {
    hide Comes, Item;
    if dps != [] {
      var last := |dps| - 1;
      RowComes(a, n, src, dst, sp, sb, dps[..last], dbs[..last]);
      ItemComes(a.acl.head, src, dst, sp, sb, dps[last], dbs[last], a.acl.policy, n);
    }
  }

  lemma {:induction false} ProductComes<P>(a: Segmented<P>, n: nat, src: Network, dst: Network, sps: seq<PortSegment>,
                                           sbs: seq<Block>)
    requires src.seg.IsNetwork(n, src.h) && dst.seg.IsNetwork(n, dst.h)
    requires AllCompile(sps, sbs) && AllCompile(a.dstSegs, PortBlocks(a.acl.dstPorts))
    ensures AllCome(a.Product(n, src.seg, dst.seg, sps), n)
    decreases sps
  {
    hide Comes, Item;
    if sps != [] {
      var last := |sps| - 1;
      ProductComes(a, n, src, dst, sps[..last], sbs[..last]);
      RowComes(a, n, src, dst, sps[last], sbs[last], a.dstSegs, PortBlocks(a.acl.dstPorts));
    }
  }

  lemma {:induction false} FromComes<P>(a: Segmented<P>, n: nat, src: Network, dsts: seq<Network>)
    requires src.seg.IsNetwork(n, src.h) && AllNetworks(dsts) && a.Valid()
    ensures AllCome(a.From(n, src.seg, dsts), n)
    decreases dsts
  {
    hide Comes, Item;
    if dsts != [] {
      var last := |dsts| - 1;
      FromComes(a, n, src, dsts[..last]);
      if |dsts[last].seg.ip| == n { ProductComes(a, n, src, dsts[last], a.srcSegs, PortBlocks(a.acl.srcPorts)); }
    }
  }

  lemma {:induction false} RulesCome<P>(a: Segmented<P>, n: nat, srcs: seq<Network>)
    requires AllNetworks(srcs) && a.Valid()
    ensures AllCome(a.Rules(n, srcs), n)
    decreases srcs
  {
    hide Comes, Item;
    if srcs != [] {
      var last := |srcs| - 1;
      RulesCome(a, n, srcs[..last]);
      if |srcs[last].seg.ip| == n { FromComes(a, n, srcs[last], a.acl.dstIps); }
    }
  }

  lemma {:induction false} AllRulesCome<P>(acls: seq<Segmented<P>>, n: nat)
    requires AllSegmented(acls)
    ensures AllCome(AllRules(acls, n), n)
  {
    hide Comes, Item;
    if acls != [] {
      AllRulesCome(acls[..|acls| - 1], n);
      RulesCome(acls[|acls| - 1], n, acls[|acls| - 1].acl.srcIps);
    }
  }

  lemma RulesMatchThemselves<P>(acls: seq<Segmented<P>>, n: nat)
    requires AllSegmented(acls)
    ensures AllMatchThemselves(AllRules(acls, n), n)
  {
    var rules := AllRules(acls, n);
    AllRulesCome(acls, n);
    hide Origin.RuleFor, Origin.Valid, Rule.Matches;
    forall k | 0 <= k < |rules|
      ensures rules[k].Matches(rules[k].field, n)
    {
      assert Comes(rules[k], n);
      var g: Origin :| g.Valid(n) && rules[k] == g.RuleFor(n, rules[k].policy);
      OwnFieldMatches(g, n, rules[k].policy);
    }
  }

  /** With a vector that finds every compiled rule, the rules of any ACLs are kept. */
  lemma AlwaysKept<P>(acls: seq<Segmented<P>>, n: nat, v: Vector)
    requires AllSegmented(acls) && v.Valid(n) && StandsIn(v, n)
    ensures AllKept(AllRules(acls, n), v, n)
  {
    var rules := AllRules(acls, n);
    AllRulesCome(acls, n);
    hide Origin.RuleFor, Origin.Valid, Keeps, StandsIn;
    forall k | 0 <= k < |rules|
      ensures Keeps(rules[k].mask, v, n)
    {
      assert Comes(rules[k], n);
      var g: Origin :| g.Valid(n) && rules[k] == g.RuleFor(n, rules[k].policy);
      StandsInKeeps(g, v, n, rules[k].policy);
    }
  }

  /** What looking a key up in the table brings up. */
  ghost function BroughtUp<P>(acls: seq<Segmented<P>>, n: nat, key: LookupKey, v: Vector): seq<P>
    requires AllSegmented(acls) && key.Valid(n)
  {
    Policies(InBucket(AllRules(acls, n), KeyField(key, n), v, n))
  }

  lemma BroughtUpWhenKept<P>(acls: seq<Segmented<P>>, n: nat, key: LookupKey, v: Vector)
    requires AllSegmented(acls) && key.Valid(n) && v.Valid(n) && AllKept(AllRules(acls, n), v, n)
    ensures BroughtUp(acls, n, key, v) == Meaning(acls, n, key)
  {
    KeptReaches(AllRules(acls, n), KeyField(key, n), v, n);
    RulesMean(acls, n, key);
  }

  /** Compiling the ACLs, filing the rules and looking keys up brings up, for every key, the policies of
      exactly the ACLs that admit it, in order, each as often as its networks and port lists hold the
      key's ends, iff every rule is kept. */
  lemma CompiledLookupIff<P>(acls: seq<Segmented<P>>, n: nat, v: Vector)
    requires AllSegmented(acls) && v.Valid(n)
    ensures (forall key: LookupKey :: key.Valid(n) ==> BroughtUp(acls, n, key, v) == Meaning(acls, n, key))
       <==> AllKept(AllRules(acls, n), v, n)
  {
    hide AllKept, BroughtUp, Meaning, AllRules;
    if AllKept(AllRules(acls, n), v, n) {
      forall key: LookupKey | key.Valid(n)
        ensures BroughtUp(acls, n, key, v) == Meaning(acls, n, key)
      {
        BroughtUpWhenKept(acls, n, key, v);
      }
    } else {
      var key := BroughtUpTooLittle(acls, n, v);
    }
  }

  lemma BroughtUpTooLittle<P>(acls: seq<Segmented<P>>, n: nat, v: Vector) returns (key: LookupKey)
    requires AllSegmented(acls) && v.Valid(n) && !AllKept(AllRules(acls, n), v, n)
    ensures key.Valid(n) && |BroughtUp(acls, n, key, v)| != |Meaning(acls, n, key)|
  {
    hide AllKept, InBucket, Matching, Meaning, KeyField, KeyOf;
    var rules := AllRules(acls, n);
    RulesMatchThemselves(acls, n);
    LookupRightIff(rules, v, n);
    var f: Field :| f.Valid(n) && |InBucket(rules, f, v, n)| != |Matching(rules, f, n)|;
    key := KeyOf(f, n);
    KeyOfIs(f, n);
    RulesMean(acls, n, key);
  }
}
