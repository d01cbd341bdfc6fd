/** get_port_range: the port list of an ACL as ranges. The start of a range is never moved on, so a list
    is read as the run of ports that begins with its first, and every gap repeats that run. */
module PortLists {
  import opened Numbers
  import opened Wrappers
  import opened PortSegments

  /** The end of the run that begins with the first port: each port one past it so far moves it on. */
  function RunEnd(ports: seq<u16>): u16
    requires ports != []
  {
    if |ports| == 1 then ports[0]
    else
      var end, last := RunEnd(ports[..|ports| - 1]), ports[|ports| - 1];
      if last == end + 1 then last else end
  }

  /** The ranges put out before the last one: the run so far, at each port that does not move it on. */
  function AtGaps(ports: seq<u16>): seq<PortRange>
  {
    if |ports| <= 1 then []
    else
      var front := ports[..|ports| - 1];
      AtGaps(front) + if ports[|ports| - 1] == RunEnd(front) + 1 then [] else [PortRange(ports[0], RunEnd(front))]
  }

  function RangesOf(ports: seq<u16>): seq<PortRange>
  {
    if ports == [] then [] else AtGaps(ports) + [PortRange(ports[0], RunEnd(ports))]
  }

  /** The run reaches the last port there is, and the list goes on: the 16-bit sum overflows. */
  predicate Overflows(ports: seq<u16>)
  {
    |ports| >= 2 && RunEnd(ports[..|ports| - 1]) == 65535
  }

  lemma {:induction false} RunEndGrows(ports: seq<u16>, i: nat)
    requires 1 <= i <= |ports|
    ensures ports[0] <= RunEnd(ports[..i]) <= RunEnd(ports)
    decreases |ports|
  {
    if i < |ports| {
      var front := ports[..|ports| - 1];
      RunEndGrows(front, i);
      assert front[..i] == ports[..i];
    } else {
      assert ports[..i] == ports;
      if i > 1 { RunEndGrows(ports[..i - 1], i - 1); }
    }
  }

  /** get_port_range; None where max + 1 overflows. */
  method GetPortRange(ports: seq<u16>) returns (r: Option<seq<PortRange>>)
    ensures r.None? <==> Overflows(ports)
    ensures r.Some? ==> r.value == RangesOf(ports)
  {
    hide RunEnd, AtGaps, Overflows;
    Start(ports);
    var ranges: seq<PortRange> := [];
    var min: u16, max: u16 := 0, 0;
    for i := 0 to |ports|
      invariant i > 0 ==> min == ports[0] && max == RunEnd(ports[..i])
      invariant i == |ports| ==> !Overflows(ports)
      invariant ranges == if i < |ports| then AtGaps(ports[..i]) else RangesOf(ports)
    {
      Step(ports, i);
      if i == 0 {
        min, max := ports[i], ports[i];
        if |ports| == i + 1 { ranges := ranges + [PortRange(min, max)]; }
        continue;
      }
      if max == 65535 {
        OverflowStays(ports, i);
        return None;
      }
      if ports[i] == max + 1 {
        max := ports[i];
      } else {
        ranges := ranges + [PortRange(min, max)];
      }
      if |ports| == i + 1 { ranges := ranges + [PortRange(min, max)]; }
    }
    return Some(ranges);
  }

  lemma Start(ports: seq<u16>)
    ensures AtGaps(ports[..0]) == [] && (ports == [] ==> !Overflows(ports))
  {
  }

  /** What one more port does to the run and the ranges put out. */
  lemma Step(ports: seq<u16>, i: nat)
    requires i < |ports|
    ensures i == 0 ==> RunEnd(ports[..1]) == ports[0] && AtGaps(ports[..1]) == []
    ensures i > 0 ==> var end := RunEnd(ports[..i]);
      && RunEnd(ports[..i + 1]) == (if ports[i] == end + 1 then ports[i] else end)
      && AtGaps(ports[..i + 1]) == AtGaps(ports[..i]) + if ports[i] == end + 1 then [] else [PortRange(ports[0], end)]
    ensures i + 1 == |ports| ==> ports[..i + 1] == ports
    ensures i + 1 == |ports| ==> (Overflows(ports) <==> i > 0 && RunEnd(ports[..i]) == 65535)
  {
    assert ports[..i + 1][..i] == ports[..i];
    assert i + 1 == |ports| ==> ports[..i + 1] == ports;
  }

  lemma OverflowStays(ports: seq<u16>, i: nat)
    requires 1 <= i < |ports| && RunEnd(ports[..i]) == 65535
    ensures Overflows(ports)
  {
    var front := ports[..|ports| - 1];
    RunEndGrows(front, i);
    assert front[..i] == ports[..i];
  }

  // ----- What a list is read as -----

  /** Every range begins with the first port and ends in the run. */
  lemma {:induction false} GapsInRun(ports: seq<u16>, k: nat)
    requires k < |AtGaps(ports)|
    ensures AtGaps(ports)[k].min == ports[0] <= AtGaps(ports)[k].max <= RunEnd(ports)
    decreases |ports|
  {
    var front := ports[..|ports| - 1];
    RunEndGrows(ports, |front|);
    if k < |AtGaps(front)| { GapsInRun(front, k); }
  }

  lemma RangesInRun(ports: seq<u16>, k: nat)
    requires k < |RangesOf(ports)|
    ensures RangesOf(ports)[k].min == ports[0] <= RangesOf(ports)[k].max <= RunEnd(ports)
  {
    RunEndGrows(ports, 1);
    if k < |AtGaps(ports)| { GapsInRun(ports, k); }
  }

  /** Together the ranges hold exactly the run. */
  lemma HeldIsRun(ports: seq<u16>, x: int)
    requires ports != []
    ensures Covered(RangesOf(ports), x) <==> ports[0] <= x <= RunEnd(ports)
  {
    var ranges := RangesOf(ports);
    assert ranges[|ranges| - 1] == PortRange(ports[0], RunEnd(ports));
    if k :| 0 <= k < |ranges| && ranges[k].Has(x) { RangesInRun(ports, k); }
  }

  /** Every port of the run is in the list. */
  lemma {:induction false} RunIsListed(ports: seq<u16>, x: u16)
    requires ports != [] && ports[0] <= x <= RunEnd(ports)
    ensures x in ports
    decreases |ports|
  {
    if |ports| > 1 {
      var front := ports[..|ports| - 1];
      if x <= RunEnd(front) { RunIsListed(front, x); }
    }
  }

  /** The list is read as it stands: some range holds a port iff the port is listed. */
  ghost predicate ReadRight(ports: seq<u16>)
  {
    forall x: u16 :: Covered(RangesOf(ports), x) <==> x in ports
  }

  /** No port is ever added; a port is lost iff it lies outside the run. */
  lemma ReadRightIff(ports: seq<u16>)
    requires ports != []
    ensures ReadRight(ports) <==> forall x: u16 :: x in ports ==> ports[0] <= x <= RunEnd(ports)
  {
    forall x: u16
      ensures Covered(RangesOf(ports), x) <==> ports[0] <= x <= RunEnd(ports)
      ensures Covered(RangesOf(ports), x) ==> x in ports
    {
      HeldIsRun(ports, x);
      if ports[0] <= x <= RunEnd(ports) { RunIsListed(ports, x); }
    }
  }

  lemma {:induction false} AscendingRun(ports: seq<u16>)
    requires ports != [] && Increasing(ports)
    ensures ports[|ports| - 1] >= ports[0] + |ports| - 1 && RunEnd(ports) <= ports[|ports| - 1]
    ensures RunEnd(ports) == ports[|ports| - 1] <==> ports[|ports| - 1] == ports[0] + |ports| - 1
    decreases |ports|
  {
    if |ports| > 1 {
      var front := ports[..|ports| - 1];
      AscendingRun(front);
      assert front[|front| - 1] < ports[|ports| - 1];
    }
  }

  /** Of an ascending list, nothing is lost iff it has no gap. */
  lemma AscendingReadIff(ports: seq<u16>)
    requires ports != [] && Increasing(ports)
    ensures ReadRight(ports) <==> ports[|ports| - 1] == ports[0] + |ports| - 1
  {
    ReadRightIff(ports);
    AscendingRun(ports);
    assert ports[|ports| - 1] in ports;
  }

  /** Ports 80 and 90: 80 is read twice and 90 is lost. */
  lemma GapLosesPort(ports: seq<u16>)
    requires ports == [80, 90]
    ensures RangesOf(ports) == [PortRange(80, 80), PortRange(80, 80)] && !ReadRight(ports)
  {
    assert ports[..1] == [80];
    assert AtGaps(ports[..1]) == [];
    AscendingReadIff(ports);
  }
}
