/** The key under which a flow's meters are accumulated, written byte by byte into a buffer. */
module QuadKeys {
  import opened FlowHistory
  import opened Numbers
  import Timeouts

  datatype Ip = IpV4(octets: seq<Byte>) | IpV6(octets: seq<Byte>) {
    predicate Valid() { |octets| == if IpV4? then 4 else 16 }
  }

  /** What the key is made from; the tap port already split. */
  datatype Ends = Ends(ipv6: bool, srcEpc: int, dstEpc: int, item: u32, from: Byte, tapType: u16, tunnelType: Byte,
                       tapSide: Byte, protocol: Byte, normal: bool, activeService: bool, dstPort: u16, src: Ip, dst: Ip)
  {
    predicate Valid() { src.Valid() && dst.Valid() }

    /** The addresses are of the version that the Ethernet type says. */
    predicate SameVersion() { src.IpV6? == ipv6 && dst.IpV6? == ipv6 }
  }

  const OFFSET_EPC_0 := 0
  const OFFSET_EPC_1 := 2
  const OFFSET_TAP_PORT := 4
  const OFFSET_PROTOCOL := 13
  const OFFSET_PORT := 14
  const OFFSET_IP := 16

  /** The lowest byte, as a cast to Byte takes it. */
  function Low(x: int): Byte { x % 256 }

  function PortOf(f: Ends): u16 { if f.normal || f.activeService then f.dstPort else 0 }

  function Head(f: Ends): seq<Byte>
  {
    Word(f.srcEpc) + Word(f.dstEpc) + TapPortBytes(f) + [0, f.protocol] + Word(PortOf(f))
  }

  /** The two addresses, if both are of the version that the key is for; zeros otherwise. */
  function Path(f: Ends): seq<Byte>
  {
    if f.ipv6 then (if f.src.IpV6? && f.dst.IpV6? then f.src.octets + f.dst.octets else Zeros(32))
    else (if f.src.IpV4? && f.dst.IpV4? then f.src.octets + f.dst.octets else Zeros(8))
  }

  function KeyOf(f: Ends): QgKey { if f.ipv6 then V6(Head(f) + Path(f)) else V4(Head(f) + Path(f)) }

  method Copy(key: array<Byte>, at: nat, octets: seq<Byte>)
    requires at + |octets| <= key.Length
    modifies key
    ensures key[..] == old(key[..at]) + octets + old(key[at + |octets|..])
  {
    ghost var was := key[..];
    var i := 0;
    while i < |octets|
      invariant i <= |octets|
      invariant key[..] == was[..at] + octets[..i] + was[at + i..]
    {
      ghost var before := key[..];
      CopyOne(was, at, octets, i);
      key[at + i] := octets[i];
      assert key[..] == before[at + i := octets[i]];
      i := i + 1;
    }
    assert octets[..i] == octets;
  }

  lemma CopyOne(key: seq<Byte>, at: nat, octets: seq<Byte>, i: nat)
    requires at + |octets| <= |key| && i < |octets|
    ensures (key[..at] + octets[..i] + key[at + i..])[at + i := octets[i]]
         == key[..at] + octets[..i + 1] + key[at + i + 1..]
  {
  }

  function TapPortBytes(f: Ends): seq<Byte>
  {
    Long(f.item) + [f.from, Low(f.tapType), f.tunnelType, f.tapSide]
  }

  function Word(x: int): seq<Byte> { [Low(x / 256), Low(x)] }

  function Long(x: int): seq<Byte> { [Low(x / 0x100_0000), Low(x / 0x1_0000), Low(x / 0x100), Low(x)] }

  method SetPair(key: array<Byte>, at: nat, a: Byte, b: Byte)
    requires at + 2 <= key.Length
    modifies key
    ensures key[..] == old(key[..at]) + [a, b] + old(key[at + 2..])
  {
    key[at], key[at + 1] := a, b;
  }

  method SetFour(key: array<Byte>, at: nat, a: Byte, b: Byte, c: Byte, d: Byte)
    requires at + 4 <= key.Length
    modifies key
    ensures key[..] == old(key[..at]) + [a, b, c, d] + old(key[at + 4..])
  {
    key[at], key[at + 1], key[at + 2], key[at + 3] := a, b, c, d;
  }

  method SetEpcs(key: array<Byte>, f: Ends)
    requires OFFSET_IP <= key.Length && key[..] == Zeros(key.Length)
    modifies key
    ensures key[..] == Word(f.srcEpc) + Word(f.dstEpc) + Zeros(key.Length - OFFSET_TAP_PORT)
  {
    SetPair(key, OFFSET_EPC_0, Low(f.srcEpc / 256), Low(f.srcEpc));
    assert key[..] == Word(f.srcEpc) + Zeros(key.Length - OFFSET_EPC_1);
    SetPair(key, OFFSET_EPC_1, Low(f.dstEpc / 256), Low(f.dstEpc));
  }

  method SetTapPort(key: array<Byte>, f: Ends, ghost before: seq<Byte>)
    requires OFFSET_IP <= key.Length && |before| == OFFSET_TAP_PORT
             && key[..] == before + Zeros(key.Length - OFFSET_TAP_PORT)
    modifies key
    ensures key[..] == before + TapPortBytes(f) + Zeros(key.Length - OFFSET_TAP_PORT - 8)
  {
    SetFour(key, OFFSET_TAP_PORT, Low(f.item / 0x100_0000), Low(f.item / 0x1_0000), Low(f.item / 0x100), Low(f.item));
    assert key[..] == before + Long(f.item) + Zeros(key.Length - OFFSET_TAP_PORT - 4);
    SetFour(key, OFFSET_TAP_PORT + 4, f.from, Low(f.tapType), f.tunnelType, f.tapSide);
  }

  method SetKey(key: array<Byte>, f: Ends)
    requires OFFSET_IP <= key.Length && key[..] == Zeros(key.Length)
    modifies key
    ensures key[..] == Head(f) + Zeros(key.Length - OFFSET_IP)
  {
    SetEpcs(key, f);
    SetTapPort(key, f, Word(f.srcEpc) + Word(f.dstEpc));
    ghost var before := Word(f.srcEpc) + Word(f.dstEpc) + TapPortBytes(f);
    key[OFFSET_PROTOCOL] := f.protocol;
    assert key[..] == before + [0, f.protocol] + Zeros(key.Length - OFFSET_PORT);
    if f.normal || f.activeService {
      SetPair(key, OFFSET_PORT, Low(f.dstPort / 256), Low(f.dstPort));
    }
  }

  method CopyBoth(key: array<Byte>, src: seq<Byte>, dst: seq<Byte>)
    requires key.Length == OFFSET_IP + |src| + |dst|
    modifies key
    ensures key[..] == old(key[..OFFSET_IP]) + src + dst
  {
    Copy(key, OFFSET_IP, src);
    ghost var half := key[..];
    assert half[..OFFSET_IP + |src|] == old(key[..OFFSET_IP]) + src;
    Copy(key, OFFSET_IP + |src|, dst);
    assert half[OFFSET_IP + |src| + |dst|..] == [];
  }

  method GetKey(f: Ends) returns (k: QgKey)
    requires f.Valid()
    ensures k == KeyOf(f)
  {
    var width := if f.ipv6 then 16 else 4;
    var key := new Byte[OFFSET_IP + 2 * width](i => 0);
    assert key[..] == Zeros(key.Length);
    SetKey(key, f);
    HeadParts(f);
    hide Head, Word, TapPortBytes;
    if (f.ipv6 && f.src.IpV6? && f.dst.IpV6?) || (!f.ipv6 && f.src.IpV4? && f.dst.IpV4?) {
      CopyBoth(key, f.src.octets, f.dst.octets);
    }
    assert key[..] == Head(f) + Path(f);
    k := if f.ipv6 then V6(key[..]) else V4(key[..]);
  }

  // ----- What the key tells -----

  /** An address as the key shows it: zeros, if one of the two is not of the version that the key is for. */
  function Shown(f: Ends, ip: Ip): seq<Byte>
  {
    if f.SameVersion() then ip.octets else Zeros(if f.ipv6 then 16 else 4)
  }

  /** The server port is only told of flows that closed normally or to an active service. */
  predicate TellsPort(f: Ends) { f.normal || f.activeService }

  /** The flows' quadruples are the same, as far as the widths of the key's fields go. */
  predicate SameQuad(f: Ends, g: Ends)
  {
    && f.ipv6 == g.ipv6 && f.srcEpc % 0x1_0000 == g.srcEpc % 0x1_0000 && f.dstEpc % 0x1_0000 == g.dstEpc % 0x1_0000
    && f.item == g.item && f.from == g.from && f.tapType % 256 == g.tapType % 256 && f.tunnelType == g.tunnelType
    && f.tapSide == g.tapSide && f.protocol == g.protocol
    && (if TellsPort(f) then f.dstPort else 0) == (if TellsPort(g) then g.dstPort else 0)
    && Shown(f, f.src) == Shown(g, g.src) && Shown(f, f.dst) == Shown(g, g.dst)
  }

  lemma TwoDigits(x: int)
    ensures x % 0x1_0000 == 256 * Low(x / 256) + Low(x)
  {
  }

  lemma SameDigits(a: Byte, b: Byte, c: Byte, d: Byte)
    ensures 256 * a + b == 256 * c + d <==> a == c && b == d
  {
  }

  lemma WordIff(x: int, y: int)
    ensures Word(x) == Word(y) <==> x % 0x1_0000 == y % 0x1_0000
  {
    hide Low;
    TwoDigits(x);
    TwoDigits(y);
    SameDigits(Low(x / 256), Low(x), Low(y / 256), Low(y));
    assert Word(x)[0] == Low(x / 256) && Word(x)[1] == Low(x);
    assert Word(y)[0] == Low(y / 256) && Word(y)[1] == Low(y);
  }

  lemma LongHalves(x: int)
    ensures Long(x)[..2] == Word(x / 0x1_0000) && Long(x)[2..] == Word(x)
  {
  }

  lemma HalvesTell(x: u32, y: u32)
    requires (x / 0x1_0000) % 0x1_0000 == (y / 0x1_0000) % 0x1_0000 && x % 0x1_0000 == y % 0x1_0000
    ensures x == y
  {
  }

  lemma LongIff(x: u32, y: u32)
    ensures Long(x) == Long(y) <==> x == y
  {
    if Long(x) == Long(y) {
      LongHalves(x);
      LongHalves(y);
      LongTells(x, y);
    }
  }

  lemma LongTells(x: u32, y: u32)
    requires Word(x / 0x1_0000) == Word(y / 0x1_0000) && Word(x) == Word(y)
    ensures x == y
  {
    WordIff(x / 0x1_0000, y / 0x1_0000);
    WordIff(x, y);
    HalvesTell(x, y);
  }

  lemma TapPortIff(f: Ends, g: Ends)
    ensures TapPortBytes(f) == TapPortBytes(g) <==>
      f.item == g.item && f.from == g.from && f.tapType % 256 == g.tapType % 256 && f.tunnelType == g.tunnelType
        && f.tapSide == g.tapSide
  {
    var a, b := TapPortBytes(f), TapPortBytes(g);
    assert a[..4] == Long(f.item) && b[..4] == Long(g.item);
    LongIff(f.item, g.item);
    assert a[4] == f.from && a[5] == Low(f.tapType) && a[6] == f.tunnelType && a[7] == f.tapSide;
    assert b[4] == g.from && b[5] == Low(g.tapType) && b[6] == g.tunnelType && b[7] == g.tapSide;
  }

  lemma HeadParts(f: Ends)
    ensures var h := Head(f);
            && |h| == 16 && h[..2] == Word(f.srcEpc) && h[2..4] == Word(f.dstEpc) && h[4..12] == TapPortBytes(f)
            && h[12] == 0 && h[13] == f.protocol && h[14..] == Word(PortOf(f))
  {
  }

  lemma SameParts(a: seq<Byte>, b: seq<Byte>)
    requires |a| == |b| == 16 && a[12] == b[12]
    ensures a == b <==> && a[..2] == b[..2] && a[2..4] == b[2..4] && a[4..12] == b[4..12] && a[13] == b[13]
                        && a[14..] == b[14..]
  {
    if a[..2] == b[..2] && a[2..4] == b[2..4] && a[4..12] == b[4..12] && a[13] == b[13] && a[14..] == b[14..] {
      assert a == a[..2] + a[2..4] + a[4..12] + [a[12], a[13]] + a[14..];
      assert b == b[..2] + b[2..4] + b[4..12] + [b[12], b[13]] + b[14..];
    }
  }

  lemma HeadIff(f: Ends, g: Ends)
    ensures Head(f) == Head(g) <==>
      && f.srcEpc % 0x1_0000 == g.srcEpc % 0x1_0000 && f.dstEpc % 0x1_0000 == g.dstEpc % 0x1_0000
      && f.item == g.item && f.from == g.from && f.tapType % 256 == g.tapType % 256 && f.tunnelType == g.tunnelType
      && f.tapSide == g.tapSide && f.protocol == g.protocol && PortOf(f) == PortOf(g)
  {
    hide Head, Word, TapPortBytes;
    HeadParts(f);
    HeadParts(g);
    SameParts(Head(f), Head(g));
    WordIff(f.srcEpc, g.srcEpc);
    WordIff(f.dstEpc, g.dstEpc);
    TapPortIff(f, g);
    WordIff(PortOf(f), PortOf(g));
  }

  lemma PathShows(f: Ends)
    requires f.Valid()
    ensures Path(f) == Shown(f, f.src) + Shown(f, f.dst) && |Shown(f, f.src)| == if f.ipv6 then 16 else 4
  {
    assert Zeros(32) == Zeros(16) + Zeros(16) && Zeros(8) == Zeros(4) + Zeros(4);
  }

  lemma PathIff(f: Ends, g: Ends)
    requires f.Valid() && g.Valid() && f.ipv6 == g.ipv6
    ensures Path(f) == Path(g) <==> Shown(f, f.src) == Shown(g, g.src) && Shown(f, f.dst) == Shown(g, g.dst)
  {
    hide Path, Shown;
    var n := if f.ipv6 then 16 else 4;
    PathShows(f);
    PathShows(g);
    assert Path(f)[..n] == Shown(f, f.src) && Path(f)[n..] == Shown(f, f.dst);
    assert Path(g)[..n] == Shown(g, g.src) && Path(g)[n..] == Shown(g, g.dst);
  }

  /** Two flows have the same key exactly if their quadruples are the same. */
  lemma KeyIff(f: Ends, g: Ends)
    requires f.Valid() && g.Valid()
    ensures KeyOf(f) == KeyOf(g) <==> SameQuad(f, g)
  {
    hide Head;
    HeadParts(f);
    HeadParts(g);
    HeadIff(f, g);
    if f.ipv6 == g.ipv6 { PathIff(f, g); }
    var a, b := Head(f) + Path(f), Head(g) + Path(g);
    assert a[..16] == Head(f) && a[16..] == Path(f);
    assert b[..16] == Head(g) && b[16..] == Path(g);
  }

  /** The key tells whether the flow is one of TCP or UDP. */
  lemma KeyTellsProtocol(f: Ends)
    ensures Timeouts.IsTcpOrUdp(KeyOf(f)) <==> f.protocol == 6 || f.protocol == 17
  {
    HeadParts(f);
    assert (Head(f) + Path(f))[13] == Head(f)[13];
  }

  /** The numbers in use for virtual private clouds, and for the reserved ones below and above them. */
  predicate IsEpc(e: int) { -2 <= e <= 64000 }

  lemma EpcTells(d: int, e: int)
    requires IsEpc(d) && IsEpc(e) && d % 0x1_0000 == e % 0x1_0000
    ensures d == e
  {
  }

  /** On those numbers, the same key means the same two ends. */
  lemma KeysTellEnds(f: Ends, g: Ends)
    requires f.Valid() && g.Valid() && KeyOf(f) == KeyOf(g)
    requires IsEpc(f.srcEpc) && IsEpc(f.dstEpc) && IsEpc(g.srcEpc) && IsEpc(g.dstEpc) && f.tapType < 256
             && g.tapType < 256
    ensures f.srcEpc == g.srcEpc && f.dstEpc == g.dstEpc && f.tapType == g.tapType && f.protocol == g.protocol
    ensures f.item == g.item && f.from == g.from && f.tunnelType == g.tunnelType && f.tapSide == g.tapSide
    ensures f.ipv6 == g.ipv6 && (if TellsPort(f) then f.dstPort else 0) == if TellsPort(g) then g.dstPort else 0
    ensures f.SameVersion() && g.SameVersion() ==> f.src == g.src && f.dst == g.dst
  {
    KeyIff(f, g);
    EpcTells(f.srcEpc, g.srcEpc);
    EpcTells(f.dstEpc, g.dstEpc);
  }

  /** Two numbers one word apart have the same key: just outside of those in use. */
  lemma EpcsCollide(f: Ends)
    requires f.Valid() && f.srcEpc == -2
    ensures KeyOf(f) == KeyOf(f.(srcEpc := 65534))
  {
    HeadIff(f, f.(srcEpc := 65534));
    assert Path(f) == Path(f.(srcEpc := 65534));
  }
}
