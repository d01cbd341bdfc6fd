/** The packed keys of the metrics maps: a document's identity in 128 bits, and a tap port in 64. */
module KeyPacking {
  import opened Wrappers

  // ----- Tap ports -----

  const RESERVED_MASK: bv32 := 0xfffff

  /** The bits that set_reserved_bytes fills. */
  const RESERVED_BITS: bv64 := 0x0fff_ff00_0000_0000

  predicate Clear(tapPort: bv64) { tapPort & RESERVED_BITS == 0 }

  function FromParts(item: bv32, tunnelType: bv8, from: bv4): bv64
  {
    item as bv64 | (tunnelType as bv64 << 32) | (from as bv64 << 60)
  }

  datatype Parts = Parts(item: bv32, from: bv8, tunnelType: bv8)

  /** A tunnel type that is not one of the five is read as none. */
  function SplitFields(tapPort: bv64): Parts
  {
    var tunnelType := ((tapPort >> 32) & 0xff) as bv8;
    Parts((tapPort & 0xffff_ffff) as bv32, (tapPort >> 60) as bv8, if tunnelType <= 4 then tunnelType else 0)
  }

  function SetReservedBytes(tapPort: bv64, tapType: bv32): bv64
  {
    tapPort | ((tapType & RESERVED_MASK) as bv64 << 40)
  }

  /** A tap port put together from parts has its reserved bits clear and splits into the same parts, but for a
      tunnel type that is not one of the five. */
  lemma PartsRoundTrip(item: bv32, tunnelType: bv8, from: bv4)
    ensures Clear(FromParts(item, tunnelType, from))
    ensures SplitFields(FromParts(item, tunnelType, from))
         == Parts(item, from as bv8, if tunnelType < 5 then tunnelType else 0)
  {
  }

  lemma ReservedApart(tapPort: bv64, reserved: bv64)
    requires reserved <= 0xfffff
    ensures (tapPort | (reserved << 40)) & 0xffff_ffff == tapPort & 0xffff_ffff
    ensures ((tapPort | (reserved << 40)) >> 32) & 0xff == (tapPort >> 32) & 0xff
    ensures (tapPort | (reserved << 40)) >> 60 == tapPort >> 60
  {
  }

  lemma MaskedFits(reserved: bv32)
    ensures (reserved & RESERVED_MASK) as bv64 <= 0xfffff
    ensures reserved & !RESERVED_MASK == 0 ==> reserved & RESERVED_MASK == reserved
  {
  }

  /** Filling the reserved bytes does not change what a tap port splits into. */
  lemma ReservedKeepsFields(tapPort: bv64, reserved: bv32)
    ensures SplitFields(SetReservedBytes(tapPort, reserved)) == SplitFields(tapPort)
  {
    MaskedFits(reserved);
    ReservedApart(tapPort, (reserved & RESERVED_MASK) as bv64);
  }

  // ----- Taggers -----

  datatype Code = SingleIpPort | SingleMacIpPort | SingleMacIpPortApp | SingleIpPortApp
                | EdgeIpPort | EdgeMacIpPort | EdgeMacIpPortApp | EdgeIpPortApp
                | Acl | OtherCode(bits: nat)

  datatype Tagger = Tagger(code: Code, epc: bv16, epc1: bv16, protocol: bv8, direction: bv8, port: bv16, tapType: bv16,
                           tapPort: bv64, l7: bv8, aclGid: bv16, tagType: bv8, tagValue: bv16)

  predicate IsSingle(c: Code) { c.SingleIpPort? || c.SingleMacIpPort? || c.SingleMacIpPortApp? || c.SingleIpPortApp? }

  predicate IsEdge(c: Code) { c.EdgeIpPort? || c.EdgeMacIpPort? || c.EdgeMacIpPortApp? || c.EdgeIpPortApp? }

  /** The three bits of the code and the bit that says a hardware address belongs to it. */
  function CodeBits(c: Code): bv8
  {
    match c
    case SingleIpPort => 1
    case EdgeIpPort => 1
    case SingleMacIpPort => 10
    case EdgeMacIpPort => 10
    case SingleMacIpPortApp => 11
    case EdgeMacIpPortApp => 11
    case SingleIpPortApp => 4
    case EdgeIpPortApp => 4
    case Acl => 0
    case OtherCode(_) => 0
  }

  /** The codes whose key holds the application protocol. The edge code without hardware addresses is
      not one of them, though its documents have a protocol. */
  predicate PacksL7(c: Code) { c.SingleMacIpPortApp? || c.SingleIpPortApp? || c.EdgeMacIpPortApp? }

  function L7Of(t: Tagger): bv8 { if PacksL7(t.code) then t.l7 else 0 }

  /** What a key holds of a document. */
  datatype Identity =
    | Single(code: Code, epc: bv16, protocol: bv8, direction: bv8, port: bv16, tapType: bv16, l7: bv8)
    | Edge(code: Code, epc: bv16, epc1: bv16, protocol: bv8, direction: bv8, port: bv16, tapType: bv16, l7: bv8,
           tapPort: bv64)
    | AclTag(gid: bv16, tagType: bv8, tagValue: bv16)

  function IdentityOf(t: Tagger): Option<Identity>
  {
    if IsSingle(t.code) then Some(Single(t.code, t.epc, t.protocol, t.direction, t.port, t.tapType, L7Of(t)))
    else if IsEdge(t.code) then
      Some(Edge(t.code, t.epc, t.epc1, t.protocol, t.direction, t.port, t.tapType, L7Of(t), t.tapPort))
    else if t.code.Acl? then Some(AclTag(t.aclGid, t.tagType, t.tagValue))
    else None
  }

  // ----- Packing -----

  function SinglePack(i: Identity): bv128
    requires i.Single?
  {
    (i.l7 as bv128 << 64) | (i.epc as bv128) | (i.protocol as bv128 << 16) | (i.direction as bv128 << 24)
    | (i.port as bv128 << 32) | (i.tapType as bv128 << 48) | (CodeBits(i.code) as bv128 << 56)
  }

  function Reserved(tapType: bv16, l7: bv8, code: bv8): bv32
  {
    tapType as bv32 | (l7 as bv32 << 8) | (code as bv32 << 16)
  }

  function EdgeWord(epc: bv16, epc1: bv16, protocol: bv8, port: bv16, direction: bv8, tapPort: bv64): bv128
  {
    (epc as bv128) | (epc1 as bv128 << 16) | (protocol as bv128 << 32) | (port as bv128 << 40)
    | (direction as bv128 << 56) | (tapPort as bv128 << 64)
  }

  function EdgePack(i: Identity): bv128
    requires i.Edge?
  {
    EdgeWord(i.epc, i.epc1, i.protocol, i.port, i.direction,
             SetReservedBytes(i.tapPort, Reserved(i.tapType, i.l7, CodeBits(i.code))))
  }

  function AclPack(i: Identity): bv128
    requires i.AclTag?
  {
    (i.gid as bv128) | (i.tagType as bv128 << 16) | (i.tagValue as bv128 << 24)
  }

  function Pack(i: Identity): bv128
  {
    match i
    case Single(_, _, _, _, _, _, _) => SinglePack(i)
    case Edge(_, _, _, _, _, _, _, _, _) => EdgePack(i)
    case AclTag(_, _, _) => AclPack(i)
  }

  /** The packed key, or nothing where the code is not one that can be packed. */
  function FastId(t: Tagger): Option<bv128>
  {
    match IdentityOf(t)
    case None => None
    case Some(i) => Some(Pack(i))
  }

  // ----- Reading back -----

  /** The fields are within the widths that the layout has for them. */
  predicate Fits(i: Identity)
  {
    match i
    case Single(code, _, _, _, _, tapType, _) => IsSingle(code) && tapType < 256
    case Edge(code, _, _, _, _, _, tapType, _, tapPort) => IsEdge(code) && tapType < 256 && Clear(tapPort)
    case AclTag(_, _, _) => true
  }

  function SingleCode(bits: bv8): Code
  {
    if bits == 1 then SingleIpPort else if bits == 10 then SingleMacIpPort
    else if bits == 11 then SingleMacIpPortApp else SingleIpPortApp
  }

  function EdgeCode(bits: bv8): Code
  {
    if bits == 1 then EdgeIpPort else if bits == 10 then EdgeMacIpPort
    else if bits == 11 then EdgeMacIpPortApp else EdgeIpPortApp
  }

  lemma CodeReads(c: Code)
    ensures IsSingle(c) ==> SingleCode(CodeBits(c)) == c
    ensures IsEdge(c) ==> EdgeCode(CodeBits(c)) == c
    ensures IsSingle(c) || IsEdge(c) ==> 0 < CodeBits(c) < 16
  {
  }

  function ReadSingle(x: bv128): Identity
  {
    Single(SingleCode(((x >> 56) & 0xff) as bv8), (x & 0xffff) as bv16, ((x >> 16) & 0xff) as bv8,
           ((x >> 24) & 0xff) as bv8, ((x >> 32) & 0xffff) as bv16, ((x >> 48) & 0xff) as bv16,
           ((x >> 64) & 0xff) as bv8)
  }

  function ReadEdge(x: bv128): Identity
  {
    var port := (x >> 64) as bv64;
    Edge(EdgeCode(((port >> 56) & 0xf) as bv8), (x & 0xffff) as bv16, ((x >> 16) & 0xffff) as bv16,
         ((x >> 32) & 0xff) as bv8, ((x >> 56) & 0xff) as bv8, ((x >> 40) & 0xffff) as bv16,
         ((port >> 40) & 0xff) as bv16, ((port >> 48) & 0xff) as bv8, port & !RESERVED_BITS)
  }

  function ReadAcl(x: bv128): Identity
  {
    AclTag((x & 0xffff) as bv16, ((x >> 16) & 0xff) as bv8, ((x >> 24) & 0xffff) as bv16)
  }

  /** The topmost bits tell the kind of a key. */
  function Unpack(x: bv128): Identity
  {
    if (x >> 120) & 0xf != 0 then ReadEdge(x) else if (x >> 56) & 0xff != 0 then ReadSingle(x) else ReadAcl(x)
  }

  lemma SingleReads(i: Identity)
    requires i.Single? && Fits(i)
    ensures ReadSingle(SinglePack(i)) == i
  {
    SingleWordReads(i);
    CodeReads(i.code);
  }

  lemma SingleWordReads(i: Identity)
    requires i.Single? && i.tapType < 256
    ensures var x := SinglePack(i);
            && ((x >> 56) & 0xff) as bv8 == CodeBits(i.code) && (x & 0xffff) as bv16 == i.epc
            && ((x >> 16) & 0xff) as bv8 == i.protocol && ((x >> 24) & 0xff) as bv8 == i.direction
            && ((x >> 32) & 0xffff) as bv16 == i.port && ((x >> 48) & 0xff) as bv16 == i.tapType
              && ((x >> 64) & 0xff) as bv8 == i.l7
  {
  }

  lemma AclReads(i: Identity)
    requires i.AclTag?
    ensures ReadAcl(AclPack(i)) == i
  {
  }

  lemma PortReads(tapPort: bv64, tapType: bv16, l7: bv8, code: bv8)
    requires tapType < 256 && code < 16 && Clear(tapPort)
    ensures var p := SetReservedBytes(tapPort, Reserved(tapType, l7, code));
            && ((p >> 40) & 0xff) as bv16 == tapType && ((p >> 48) & 0xff) as bv8 == l7
            && ((p >> 56) & 0xf) as bv8 == code && p & !RESERVED_BITS == tapPort
  {
  }

  lemma EdgeWordReads(epc: bv16, epc1: bv16, protocol: bv8, port: bv16, direction: bv8, tapPort: bv64)
    ensures var x := EdgeWord(epc, epc1, protocol, port, direction, tapPort);
            && (x >> 64) as bv64 == tapPort && (x & 0xffff) as bv16 == epc && ((x >> 16) & 0xffff) as bv16 == epc1
            && ((x >> 32) & 0xff) as bv8 == protocol && ((x >> 56) & 0xff) as bv8 == direction
            && ((x >> 40) & 0xffff) as bv16 == port
  {
  }

  lemma EdgeReads(i: Identity)
    requires i.Edge? && Fits(i)
    ensures ReadEdge(EdgePack(i)) == i
  {
    EdgeWordReads(i.epc, i.epc1, i.protocol, i.port, i.direction,
                  SetReservedBytes(i.tapPort, Reserved(i.tapType, i.l7, CodeBits(i.code))));
    CodeReads(i.code);
    PortReads(i.tapPort, i.tapType, i.l7, CodeBits(i.code));
  }

  lemma TopOfWord(x: bv128)
    ensures (x >> 120) & 0xf == 0 <==> (((x >> 64) as bv64) >> 56) & 0xf == 0
  {
  }

  lemma EdgeKind(i: Identity)
    requires i.Edge? && Fits(i)
    ensures (EdgePack(i) >> 120) & 0xf != 0
  {
    CodeReads(i.code);
    PortReads(i.tapPort, i.tapType, i.l7, CodeBits(i.code));
    EdgeWordReads(i.epc, i.epc1, i.protocol, i.port, i.direction,
                  SetReservedBytes(i.tapPort, Reserved(i.tapType, i.l7, CodeBits(i.code))));
    TopOfWord(EdgePack(i));
  }

  lemma SingleKind(i: Identity)
    requires i.Single? && Fits(i)
    ensures (SinglePack(i) >> 120) & 0xf == 0 && (SinglePack(i) >> 56) & 0xff != 0
  {
    CodeReads(i.code);
  }

  lemma AclKind(i: Identity)
    requires i.AclTag?
    ensures (AclPack(i) >> 120) & 0xf == 0 && (AclPack(i) >> 56) & 0xff == 0
  {
  }

  /** Everything a key holds can be read back from it. */
  lemma UnpackPack(i: Identity)
    requires Fits(i)
    ensures Unpack(Pack(i)) == i
  {
    match i
    case Single(_, _, _, _, _, _, _) =>
      SingleKind(i);
      SingleReads(i);
    case Edge(_, _, _, _, _, _, _, _, _) =>
      EdgeKind(i);
      EdgeReads(i);
    case AclTag(_, _, _) =>
      AclKind(i);
      AclReads(i);
  }

  /** The tagger's fields are within their widths. */
  predicate InWidth(t: Tagger) { (!t.code.Acl? ==> t.tapType < 256) && (IsEdge(t.code) ==> Clear(t.tapPort)) }

  predicate SameFlow(t: Tagger, u: Tagger)
  {
    && t.epc == u.epc && t.protocol == u.protocol && t.direction == u.direction && t.port == u.port
    && t.tapType == u.tapType
  }

  predicate SameEdge(t: Tagger, u: Tagger) { SameFlow(t, u) && t.epc1 == u.epc1 && t.tapPort == u.tapPort }

  /** The two documents have the same code and agree on the fields that belong to it. */
  predicate Agree(t: Tagger, u: Tagger)
  {
    t.code == u.code &&
    match t.code
    case SingleIpPort | SingleMacIpPort => SameFlow(t, u)
    case SingleIpPortApp | SingleMacIpPortApp => SameFlow(t, u) && t.l7 == u.l7
    case EdgeIpPort | EdgeMacIpPort | EdgeIpPortApp => SameEdge(t, u)
    case EdgeMacIpPortApp => SameEdge(t, u) && t.l7 == u.l7
    case Acl => t.aclGid == u.aclGid && t.tagType == u.tagType && t.tagValue == u.tagValue
    case OtherCode(_) => false
  }

  lemma PackIff(i: Identity, j: Identity)
    requires Fits(i) && Fits(j)
    ensures Pack(i) == Pack(j) <==> i == j
  {
    UnpackPack(i);
    UnpackPack(j);
  }

  lemma InWidthFits(t: Tagger)
    requires IdentityOf(t).Some? && InWidth(t)
    ensures Fits(IdentityOf(t).value)
  {
  }

  lemma FastIdOf(t: Tagger, i: Identity)
    requires IdentityOf(t) == Some(i)
    ensures FastId(t) == Some(Pack(i))
  {
  }

  /** What the keys are packed from tells two documents apart exactly if a field of theirs does. */
  lemma IdentityIff(t: Tagger, u: Tagger)
    requires !t.code.OtherCode? && !u.code.OtherCode?
    ensures IdentityOf(t).Some? && IdentityOf(u).Some? && (IdentityOf(t) == IdentityOf(u) <==> Agree(t, u))
  {
    hide SameFlow, SameEdge, L7Of;
    if IsSingle(t.code) && IsSingle(u.code) {
      SinglesAlike(t, u);
    } else if IsEdge(t.code) && IsEdge(u.code) {
      EdgesAlike(t, u);
    } else if t.code.Acl? && u.code.Acl? {
      AclsAlike(t, u);
    }
  }

  lemma SinglesAlike(t: Tagger, u: Tagger)
    requires IsSingle(t.code) && IsSingle(u.code)
    ensures IdentityOf(t) == IdentityOf(u) <==> Agree(t, u)
  {
    if IdentityOf(t) == IdentityOf(u) {
      var i, j := IdentityOf(t).value, IdentityOf(u).value;
      assert i.code == j.code && i.l7 == j.l7;
    }
  }

  lemma AclsAlike(t: Tagger, u: Tagger)
    requires t.code.Acl? && u.code.Acl?
    ensures IdentityOf(t) == IdentityOf(u) <==> Agree(t, u)
  {
  }

  lemma EdgesAlike(t: Tagger, u: Tagger)
    requires IsEdge(t.code) && IsEdge(u.code)
    ensures IdentityOf(t) == IdentityOf(u) <==> Agree(t, u)
  {
    if IdentityOf(t) == IdentityOf(u) {
      var i, j := IdentityOf(t).value, IdentityOf(u).value;
      assert i.code == j.code && i.l7 == j.l7;
    }
  }

  /** Two documents have the same packed key exactly if they have the same code and agree on the fields
      that belong to it. */
  lemma FastIdIff(t: Tagger, u: Tagger)
    requires !t.code.OtherCode? && !u.code.OtherCode? && InWidth(t) && InWidth(u)
    ensures FastId(t).Some? && FastId(u).Some? && (FastId(t) == FastId(u) <==> Agree(t, u))
  {
    hide Agree, Pack;
    IdentityIff(t, u);
    InWidthFits(t);
    InWidthFits(u);
    FastIdOf(t, IdentityOf(t).value);
    FastIdOf(u, IdentityOf(u).value);
    PackIff(IdentityOf(t).value, IdentityOf(u).value);
  }

  /** Documents that differ only in their application protocol have the same key under one of the two
      edge codes with a protocol. */
  lemma EdgeAppIgnoresL7(t: Tagger, l7: bv8)
    ensures t.code.EdgeIpPortApp? ==> FastId(t) == FastId(t.(l7 := l7))
    ensures t.code.EdgeMacIpPortApp? && InWidth(t) ==> (FastId(t) == FastId(t.(l7 := l7)) <==> t.l7 == l7)
  {
    hide IdentityOf, Pack, Clear;
    var u := t.(l7 := l7);
    if t.code.EdgeIpPortApp? {
      IdentityIff(t, u);
    }
    if t.code.EdgeMacIpPortApp? && InWidth(t) {
      FastIdIff(t, u);
    }
  }

  /** Without the reserved bits clear, different tap ports can have the same key. */
  lemma ReservedCollide()
    ensures exists p: bv64, q: bv64 :: p != q && SetReservedBytes(p, 1) == SetReservedBytes(q, 1)
  {
    assert SetReservedBytes(0, 1) == SetReservedBytes(0x0000_0100_0000_0000, 1);
  }
}
