/** The walk over the extension headers of an IPv6 packet. */
module Ip6Options {
  import opened Numbers
  import opened Wrappers

  const HOP_BY_HOP := 0
  const ROUTING := 43
  const FRAGMENT := 44
  const ESP := 50
  const AH := 51
  const ICMPV6 := 58
  const DESTINATION := 60

  const ETH_HEADER_SIZE := 14
  const IPV6_HEADER_SIZE := 40
  const IPV6_PROTO_OFFSET := 20

  // ----- Reference -----

  /** An extension header: its kind, where it starts and how long it is. */
  datatype Header = Header(kind: Byte, at: nat, length: nat)

  predicate IsExtension(kind: Byte)
  {
    kind == HOP_BY_HOP || kind == ROUTING || kind == FRAGMENT || kind == AH || kind == DESTINATION
  }

  /** Sections 4.3 to 4.6 of RFC 8200 count in units of 8 after the first, section 2.2 of RFC 4302 in
      units of 4 after the first two; a fragment header has a fixed length. */
  function Length(kind: Byte, count: Byte): nat
  {
    if kind == FRAGMENT then 8 else if kind == AH then (count + 2) * 4 else (count + 1) * 8
  }

  /** Without further units every kind is eight bytes long; each unit adds eight, or four to an authentication
      header, and none to a fragment header. */
  lemma LengthCounts(kind: Byte, count: nat)
    requires count < 255
    ensures Length(kind, 0) == 8
    ensures Length(kind, count + 1) - Length(kind, count) == if kind == 44 then 0 else if kind == 51 then 4 else 8
  {
  }

  /** A header of this kind lies at this place, all of it within the packet. */
  predicate Complete(packet: seq<Byte>, at: nat, kind: Byte)
  {
    at + 2 <= |packet| && at + Length(kind, packet[at + 1]) <= |packet|
  }

  /** The headers that begin at a place with the given kind: each says what the next one is, none is
      cut off, and they end with something that is not an extension header. */
  predicate Chain(packet: seq<Byte>, at: nat, kind: Byte, hs: seq<Header>)
    decreases |hs|
  {
    if hs == [] then !IsExtension(kind)
    else
      && IsExtension(kind) && Complete(packet, at, kind)
      && hs[0] == Header(kind, at, Length(kind, packet[at + 1]))
      && Chain(packet, at + hs[0].length, packet[at], hs[1..])
  }

  /** The chain, if there is one. */
  function Parse(packet: seq<Byte>, at: nat, kind: Byte): Option<seq<Header>>
    decreases |packet| - at
  {
    if !IsExtension(kind) then Some([])
    else if !Complete(packet, at, kind) then None
    else
      var h := Header(kind, at, Length(kind, packet[at + 1]));
      match Parse(packet, at + h.length, packet[at])
      case None => None
      case Some(hs) => Some([h] + hs)
  }

  /** Parsing finds the one chain there is, and fails exactly if there is none. */
  lemma {:induction false} ParseIsChain(packet: seq<Byte>, at: nat, kind: Byte, hs: seq<Header>)
    ensures Chain(packet, at, kind, hs) <==> Parse(packet, at, kind) == Some(hs)
    decreases |packet| - at
  {
    if IsExtension(kind) && Complete(packet, at, kind) {
      var h := Header(kind, at, Length(kind, packet[at + 1]));
      if hs != [] && hs[0] == h {
        assert hs == [h] + hs[1..];
        ParseIsChain(packet, at + h.length, packet[at], hs[1..]);
      }
      var rest := Parse(packet, at + h.length, packet[at]);
      assert rest.Some? ==> ([h] + rest.value)[1..] == rest.value;
    }
  }

  /** What comes after the headers, where they end, and where the last one and the last fragment
      header are. */
  datatype Summary = Summary(next: Byte, end: nat, last: nat, fragment: nat)

  function After(packet: seq<Byte>, hs: seq<Header>, s: Summary): Summary
  {
    if hs == [] then s
    else
      var h := hs[0];
      var next := if h.at < |packet| then packet[h.at] else 0;
      After(packet, hs[1..], Summary(next, h.at + h.length, h.at, if h.kind == FRAGMENT then h.at else s.fragment))
  }

  // ----- The packet -----

  class MetaPacket {
    const raw: seq<Byte>
    var nextHeader: Byte
    var offsetLastOption: nat
    var offsetFragmentOption: nat

    constructor (packet: seq<Byte>)
      ensures raw == packet && nextHeader == 0 && offsetLastOption == 0 && offsetFragmentOption == 0
    {
      raw := packet;
      nextHeader, offsetLastOption, offsetFragmentOption := 0, 0, 0;
    }

    /** With a whole chain, the protocol it ends in and the size of the chain; encapsulated security
        payload reaches to the end of the packet and counts as the last option. With a chain that is
        cut off, the first protocol and nothing. */
    method UpdateIp6Opt(l2OptSize: nat) returns (next: Byte, size: nat)
      requires ETH_HEADER_SIZE + IPV6_HEADER_SIZE + l2OptSize <= |raw|
      modifies this
      ensures var first := raw[IPV6_PROTO_OFFSET + l2OptSize];
              var start := ETH_HEADER_SIZE + IPV6_HEADER_SIZE + l2OptSize;
              nextHeader == first &&
              match Parse(raw, start, first)
              case None => next == first && size == 0 && offsetLastOption == 0 && offsetFragmentOption == 0
              case Some(hs) =>
                var s := After(raw, hs, Summary(first, start, old(offsetLastOption), old(offsetFragmentOption)));
                next == s.next && offsetFragmentOption == s.fragment &&
                if next == ESP then size == |raw| - start && offsetLastOption == s.end
                else size == s.end - start && offsetLastOption == s.last
    {
      var packet := raw;
      var nextKind := packet[IPV6_PROTO_OFFSET + l2OptSize];
      var originalOffset := ETH_HEADER_SIZE + IPV6_HEADER_SIZE + l2OptSize;
      var optionOffset := originalOffset;
      nextHeader := nextKind;
      var sizeChecker: int := |packet| - optionOffset;
      ghost var start := Summary(nextKind, originalOffset, offsetLastOption, offsetFragmentOption);
      ghost var whole := Parse(packet, originalOffset, nextKind);
      while true
        invariant sizeChecker == |packet| - optionOffset && originalOffset <= optionOffset <= |packet|
        invariant nextHeader == packet[IPV6_PROTO_OFFSET + l2OptSize]
        invariant Resumes(packet, whole, start, Summary(nextKind, optionOffset, offsetLastOption, offsetFragmentOption))
        decreases sizeChecker
      {
        ghost var here := Summary(nextKind, optionOffset, offsetLastOption, offsetFragmentOption);
        if nextKind == AH {
          if sizeChecker < 2 { break; }
          offsetLastOption := optionOffset;
          nextKind := packet[optionOffset];
          var count: nat := packet[optionOffset + 1];
          var length := (count + 2) * 4;
          optionOffset := optionOffset + length;
          sizeChecker := sizeChecker - length;
          if sizeChecker < 0 { break; }
          ResumesNext(packet, whole, start, here);
        } else if nextKind == DESTINATION || nextKind == HOP_BY_HOP || nextKind == ROUTING {
          sizeChecker := sizeChecker - 8;
          if sizeChecker < 0 { break; }
          offsetLastOption := optionOffset;
          nextKind := packet[optionOffset];
          var length: nat := packet[optionOffset + 1];
          optionOffset := optionOffset + length * 8 + 8;
          sizeChecker := sizeChecker - length * 8;
          if sizeChecker < 0 { break; }
          ResumesNext(packet, whole, start, here);
        } else if nextKind == FRAGMENT {
          sizeChecker := sizeChecker - 8;
          if sizeChecker < 0 { break; }
          offsetLastOption := optionOffset;
          offsetFragmentOption := optionOffset;
          nextKind := packet[optionOffset];
          optionOffset := optionOffset + 8;
          ResumesNext(packet, whole, start, here);
        } else if nextKind == ICMPV6 {
          return nextKind, optionOffset - originalOffset;
        } else if nextKind == ESP {
          offsetLastOption := optionOffset;
          optionOffset := optionOffset + sizeChecker;
          return nextKind, optionOffset - originalOffset;
        } else {
          return nextKind, optionOffset - originalOffset;
        }
      }
      assert whole == None;
      offsetLastOption, offsetFragmentOption := 0, 0;
      return packet[IPV6_PROTO_OFFSET + l2OptSize], 0;
    }
  }

  /** From start, the walk has come to here: the whole chain is there if the rest of it is, and adds up
      to the same. */
  ghost predicate Resumes(packet: seq<Byte>, whole: Option<seq<Header>>, start: Summary, here: Summary)
  {
    match Parse(packet, here.end, here.next)
    case None => whole == None
    case Some(rest) => whole.Some? && After(packet, whole.value, start) == After(packet, rest, here)
  }

  /** Going over one more complete header. */
  lemma ResumesNext(packet: seq<Byte>, whole: Option<seq<Header>>, start: Summary, here: Summary)
    requires Resumes(packet, whole, start, here) && IsExtension(here.next) && Complete(packet, here.end, here.next)
    ensures var at := here.end;
            Resumes(packet, whole, start,
                    Summary(packet[at], at + Length(here.next, packet[at + 1]), at,
                            if here.next == FRAGMENT then at else here.fragment))
  {
    var at := here.end;
    var h := Header(here.next, at, Length(here.next, packet[at + 1]));
    var rest := Parse(packet, at + h.length, packet[at]);
    if rest.Some? {
      assert ([h] + rest.value)[1..] == rest.value;
    }
  }

  /** The place of the last fragment header, or what it was before if there is none. */
  ghost predicate LastFragment(hs: seq<Header>, before: nat, place: nat)
  {
    || (place == before && forall j :: 0 <= j < |hs| ==> hs[j].kind != FRAGMENT)
    || exists i :: 0 <= i < |hs| && IsLastFragment(hs, i) && place == hs[i].at
  }

  predicate IsLastFragment(hs: seq<Header>, i: nat)
    requires i < |hs|
  {
    hs[i].kind == FRAGMENT && forall j :: i < j < |hs| ==> hs[j].kind != FRAGMENT
  }

  lemma LastFragmentStep(hs: seq<Header>, before: nat, place: nat)
    requires hs != [] && LastFragment(hs[1..], if hs[0].kind == FRAGMENT then hs[0].at else before, place)
    ensures LastFragment(hs, before, place)
  {
    var rest := hs[1..];
    assert forall j :: 1 <= j < |hs| ==> hs[j] == rest[j - 1];
    if i :| 0 <= i < |rest| && IsLastFragment(rest, i) && place == rest[i].at {
      assert IsLastFragment(hs, i + 1);
    } else if hs[0].kind == FRAGMENT {
      assert IsLastFragment(hs, 0);
    }
  }

  /** The headers of a chain lie one after the other, each as long as it says, and fill the space
      between the fixed header and where the walk ends. */
  lemma {:induction false} ChainTiles(packet: seq<Byte>, at: nat, kind: Byte, hs: seq<Header>, s: Summary)
    requires Chain(packet, at, kind, hs) && at <= |packet| && s.end == at && s.next == kind
    ensures forall i :: 0 <= i < |hs| ==> hs[i].at == (if i == 0 then at else hs[i - 1].at + hs[i - 1].length)
    ensures var e := After(packet, hs, s);
            at <= e.end <= |packet| && !IsExtension(e.next)
              && e.end == if hs == [] then at else hs[|hs| - 1].at + hs[|hs| - 1].length
    ensures hs != [] ==>
      var last := hs[|hs| - 1].at;
      last < |packet| && After(packet, hs, s).last == last && After(packet, hs, s).next == packet[last]
    ensures LastFragment(hs, s.fragment, After(packet, hs, s).fragment)
    decreases |hs|
  {
    if hs != [] {
      var h := hs[0];
      var t := Summary(packet[at], at + h.length, at, if kind == FRAGMENT then at else s.fragment);
      ChainTiles(packet, at + h.length, packet[at], hs[1..], t);
      assert forall i :: 1 <= i < |hs| ==> hs[i] == hs[1..][i - 1];
      LastFragmentStep(hs, s.fragment, After(packet, hs, s).fragment);
    }
  }
}
