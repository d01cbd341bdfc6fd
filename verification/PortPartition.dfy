/** The partition of the ports by the rules that mention them: PortRangeList::interest,
    and the table of representatives that the fast path builds from it. */
module PortPartition {
  import opened Numbers
  import opened Wrappers
  import opened PortSegments

  datatype PortStatus = RangeNone | RangeIn | RangeEdge | RangeLeft | RangeRight

  const PORTS := 65536

  predicate WellFormed(rs: seq<PortRange>)
  {
    forall k :: 0 <= k < |rs| ==> rs[k].min <= rs[k].max
  }

  ghost predicate Starts(rs: seq<PortRange>, p: int)
  {
    exists k :: 0 <= k < |rs| && rs[k].min == p
  }

  ghost predicate Ends(rs: seq<PortRange>, p: int)
  {
    exists k :: 0 <= k < |rs| && rs[k].max == p
  }

  /** Which of the ranges hold port p. */
  ghost function CoverSet(rs: seq<PortRange>, p: int): set<nat>
  {
    set k: nat | k < |rs| && rs[k].Has(p)
  }

  /** What the table holds for port p once the ranges rs have been entered. */
  ghost function StatusOf(rs: seq<PortRange>, p: int): PortStatus
  {
    if Starts(rs, p) && Ends(rs, p) then RangeEdge
    else if Starts(rs, p) then RangeLeft
    else if Ends(rs, p) then RangeRight
    else if Covered(rs, p) then RangeIn
    else RangeNone
  }

  ghost predicate Holds(table: seq<PortStatus>, rs: seq<PortRange>)
  {
    |table| == PORTS && forall p :: 0 <= p < PORTS ==> table[p] == StatusOf(rs, p)
  }

  lemma AppendRange(rs: seq<PortRange>, r: PortRange, p: int)
    ensures Starts(rs + [r], p) <==> Starts(rs, p) || r.min == p
    ensures Ends(rs + [r], p) <==> Ends(rs, p) || r.max == p
    ensures Covered(rs + [r], p) <==> Covered(rs, p) || r.Has(p)
  {
    var all := rs + [r];
    if k :| 0 <= k < |rs| && rs[k].min == p { assert all[k].min == p; }
    if k :| 0 <= k < |rs| && rs[k].max == p { assert all[k].max == p; }
    if k :| 0 <= k < |rs| && rs[k].Has(p) { assert all[k].Has(p); }
    assert all[|rs|] == r;
  }

  /** Entering one range, cell by cell. */
  function Entered(was: PortStatus, r: PortRange, p: int): PortStatus
  {
    if r.min == r.max && p == r.min then RangeEdge
    else if p == r.min then if was == RangeRight || was == RangeEdge then RangeEdge else RangeLeft
    else if p == r.max then if was == RangeLeft || was == RangeEdge then RangeEdge else RangeRight
    else if r.Has(p) && was == RangeNone then RangeIn
    else was
  }

  lemma EnteredIsStatus(rs: seq<PortRange>, r: PortRange, p: int)
    ensures Entered(StatusOf(rs, p), r, p) == StatusOf(rs + [r], p)
  {
    AppendRange(rs, r, p);
  }

  /** create_table. */
  method CreateTable(rs: seq<PortRange>, table: array<PortStatus>)
    requires table.Length == PORTS && forall p :: 0 <= p < PORTS ==> table[p] == RangeNone
    modifies table
    ensures Holds(table[..], rs)
  {
    for k := 0 to |rs|
      invariant Holds(table[..], rs[..k])
    {
      ghost var before := table[..];
      EnterRange(rs[k], table);
      assert rs[..k + 1] == rs[..k] + [rs[k]];
      forall p | 0 <= p < PORTS
        ensures table[p] == StatusOf(rs[..k + 1], p)
      {
        assert before[p] == StatusOf(rs[..k], p);
        EnteredIsStatus(rs[..k], rs[k], p);
      }
    }
    assert rs[..|rs|] == rs;
  }

  /** The body of the outer loop of create_table. */
  method EnterRange(r: PortRange, table: array<PortStatus>)
    requires table.Length == PORTS
    modifies table
    ensures forall p :: 0 <= p < PORTS ==> table[p] == Entered(old(table[p]), r, p)
  {
    if r.min == r.max {
      table[r.min] := RangeEdge;
      return;
    }
    if table[r.min] == RangeRight || table[r.min] == RangeEdge {
      table[r.min] := RangeEdge;
    } else {
      table[r.min] := RangeLeft;
    }
    if table[r.max] == RangeLeft || table[r.max] == RangeEdge {
      table[r.max] := RangeEdge;
    } else {
      table[r.max] := RangeRight;
    }
    var i := r.min + 1;
    while i < r.max
      invariant r.min < i
      invariant forall p :: 0 <= p < PORTS ==>
        table[p] == if r.min < p < r.max && p >= i then old(table[p]) else Entered(old(table[p]), r, p)
    {
      if table[i] == RangeNone {
        table[i] := RangeIn;
      }
      i := i + 1;
    }
  }

  // ----- Pieces between the ends of ranges -----

  /** Where ranges start, where they end, and which ports are mentioned at all. */
  datatype Marks = Marks(starts: set<int>, ends: set<int>, marked: set<int>)

  /** A range starts at p or ends just before it. */
  ghost predicate Cut(m: Marks, p: int) { p in m.starts || p - 1 in m.ends }

  /** A stretch from one cut to the next whose first port is mentioned. */
  ghost predicate IsPiece(m: Marks, lo: int, hi: int)
  {
    && 0 <= lo <= hi < PORTS && Cut(m, lo) && Cut(m, hi + 1) && lo in m.marked
    && forall q :: lo < q <= hi ==> !Cut(m, q)
  }

  ghost predicate Ascending(runs: seq<PortRange>)
  {
    forall i, j :: 0 <= i < j < |runs| ==> runs[i].max < runs[j].min
  }

  /** list holds, in ascending order, exactly the pieces that end below bound. */
  ghost predicate PiecesBelow(m: Marks, list: seq<PortRange>, bound: int)
  {
    && Ascending(list)
    && (forall i :: 0 <= i < |list| ==> IsPiece(m, list[i].min, list[i].max) && list[i].max < bound)
    && (forall lo: u16, hi: u16 :: IsPiece(m, lo, hi) && hi < bound ==> PortRange(lo, hi) in list)
  }

  /** The scan has come to port: last is where the current stretch began, or -1 while no range has
      begun or ended. */
  ghost predicate Scanned(m: Marks, list: seq<PortRange>, last: int, port: int)
  {
    && -1 <= last <= port
    && (forall q :: last <= q < port ==> q !in m.ends)
    && (forall q :: last < q < port ==> q !in m.starts)
    && (if last == -1 then list == [] else Cut(m, last) && PiecesBelow(m, list, last))
  }

  /** A piece that ends in a stretch without cuts is the whole of it. */
  lemma PieceInStretch(m: Marks, last: int, next: int, lo: int, hi: int)
    requires Cut(m, last) && Cut(m, next) && last <= hi < next && IsPiece(m, lo, hi)
    requires forall q :: last < q < next ==> !Cut(m, q)
    ensures lo == last && hi + 1 == next
  {
  }

  /** With the next cut at next, the stretch from last is a piece iff its first port is marked. */
  lemma CloseStretch(m: Marks, list: seq<PortRange>, last: u16, next: int)
    requires Cut(m, last) && PiecesBelow(m, list, last) && last < next <= PORTS && Cut(m, next)
    requires forall q :: last < q < next ==> !Cut(m, q)
    ensures PiecesBelow(m, if last in m.marked then list + [PortRange(last, next - 1)] else list, next)
  {
    var all := if last in m.marked then list + [PortRange(last, next - 1)] else list;
    forall lo: u16, hi: u16 | IsPiece(m, lo, hi) && hi < next
      ensures PortRange(lo, hi) in all
    {
      if hi >= last { PieceInStretch(m, last, next, lo, hi); }
    }
  }

  /** What the scan pushes when a range starts at port. */
  ghost function Closed(m: Marks, list: seq<PortRange>, last: int, port: u16): seq<PortRange>
  {
    if 0 <= last < port && last in m.marked then list + [PortRange(last, port - 1)] else list
  }

  /** The stretch before a start: the step shared by Edge and Left. */
  lemma CloseBefore(m: Marks, list: seq<PortRange>, last: int, port: u16)
    requires Scanned(m, list, last, port) && port in m.starts
    ensures PiecesBelow(m, Closed(m, list, last, port), port)
  {
    if 0 <= last < port {
      CloseStretch(m, list, last, port);
    }
  }

  lemma EdgeStep(m: Marks, list: seq<PortRange>, last: int, port: u16)
    requires Scanned(m, list, last, port) && port in m.starts && port in m.ends && port in m.marked
    ensures Scanned(m, Closed(m, list, last, port) + [PortRange(port, port)], port + 1, port + 1)
  {
    CloseBefore(m, list, last, port);
    CloseStretch(m, Closed(m, list, last, port), port, port + 1);
  }

  lemma LeftStep(m: Marks, list: seq<PortRange>, last: int, port: u16)
    requires Scanned(m, list, last, port) && port in m.starts && port !in m.ends
    ensures Scanned(m, Closed(m, list, last, port), port, port + 1)
  {
    CloseBefore(m, list, last, port);
  }

  lemma RightStep(m: Marks, list: seq<PortRange>, last: int, port: u16)
    requires Scanned(m, list, last, port) && port !in m.starts && port in m.ends && last >= 0
    ensures Scanned(m, if last in m.marked then list + [PortRange(last, port)] else list, port + 1, port + 1)
  {
    CloseStretch(m, list, last, port + 1);
  }

  lemma IdleStep(m: Marks, list: seq<PortRange>, last: int, port: u16)
    requires Scanned(m, list, last, port) && port !in m.starts && port !in m.ends
    ensures Scanned(m, list, last, port + 1)
  {
  }

  lemma ScanEnds(m: Marks, list: seq<PortRange>, last: int)
    requires Scanned(m, list, last, PORTS) && PORTS !in m.starts && -1 !in m.ends
    ensures PiecesBelow(m, list, PORTS)
  {
    forall lo: u16, hi: u16 | IsPiece(m, lo, hi)
      ensures 0 <= last && hi < last
    {
      assert Cut(m, hi + 1) && Cut(m, lo);
    }
  }

  // ----- The marks of the ranges -----

  ghost function MarksOf(rs: seq<PortRange>): Marks
  {
    Marks(set p | 0 <= p < PORTS && Starts(rs, p), set p | 0 <= p < PORTS && Ends(rs, p),
          set p | 0 <= p < PORTS && (Starts(rs, p) || Ends(rs, p) || Covered(rs, p)))
  }

  ghost predicate Boundary(rs: seq<PortRange>, p: int) { Starts(rs, p) || Ends(rs, p - 1) }

  ghost predicate Piece(rs: seq<PortRange>, lo: int, hi: int) { IsPiece(MarksOf(rs), lo, hi) }

  lemma PieceIs(rs: seq<PortRange>, lo: int, hi: int)
    ensures Piece(rs, lo, hi) <==>
      && 0 <= lo <= hi < PORTS && Boundary(rs, lo) && Boundary(rs, hi + 1)
      && (Starts(rs, lo) || Ends(rs, lo) || Covered(rs, lo)) && forall q :: lo < q <= hi ==> !Boundary(rs, q)
  {
    forall p
      ensures Cut(MarksOf(rs), p) <==> Boundary(rs, p)
    {
    }
  }

  /** Some range ends below the start of every range. */
  ghost predicate EndsFirst(rs: seq<PortRange>)
  {
    exists k: nat :: k < |rs| && EndsBelowAll(rs, k)
  }

  ghost predicate EndsBelowAll(rs: seq<PortRange>, k: nat)
    requires k < |rs|
  {
    forall j :: 0 <= j < |rs| ==> rs[k].max < rs[j].min
  }

  /** What the table says of the marks. */
  ghost predicate Tells(table: seq<PortStatus>, m: Marks)
  {
    && |table| == PORTS && (forall p :: p in m.ends || p in m.starts ==> 0 <= p < PORTS && p in m.marked)
    && forall p :: 0 <= p < PORTS ==> StatusIs(table[p], m, p)
  }

  ghost predicate StatusIs(status: PortStatus, m: Marks, p: int)
  {
    && (status != RangeNone <==> p in m.marked)
    && (status == RangeEdge <==> p in m.starts && p in m.ends)
    && (status == RangeLeft <==> p in m.starts && p !in m.ends)
    && (status == RangeRight <==> p !in m.starts && p in m.ends)
  }

  lemma TableTells(table: seq<PortStatus>, rs: seq<PortRange>)
    requires Holds(table, rs)
    ensures Tells(table, MarksOf(rs))
  {
    forall p | 0 <= p < PORTS
      ensures StatusIs(table[p], MarksOf(rs), p)
    {
      assert table[p] == StatusOf(rs, p);
    }
  }

  /** Some end has no start at or below it. */
  ghost predicate EndBeforeStart(m: Marks) { exists e :: e in m.ends && forall q :: 0 <= q <= e ==> q !in m.starts }

  lemma StartBeforeEnd(m: Marks, list: seq<PortRange>, port: u16)
    requires Scanned(m, list, -1, port) && port in m.starts && -1 !in m.ends && forall e :: e in m.ends ==> e >= 0
    ensures !EndBeforeStart(m)
  {
    forall e | e in m.ends
      ensures port <= e
    {
    }
  }

  /** The push that the Edge and Left cases of the scan share. */
  method PushBefore(table: seq<PortStatus>, ghost m: Marks, list: seq<PortRange>, last: int, port: u16)
    returns (list': seq<PortRange>)
    requires Tells(table, m) && last <= port
    ensures list' == Closed(m, list, last, port)
  {
    list' := list;
    if last >= 0 && last != port {
      assert StatusIs(table[last], m, last);
      if table[last] != RangeNone {
        list' := list + [PortRange(last, port - 1)];
      }
    }
  }

  /** The scan of interest over a filled table; None where it looks up port -1. */
  method Scan(table: seq<PortStatus>, ghost m: Marks) returns (r: Option<seq<PortRange>>)
    requires Tells(table, m)
    ensures r.None? <==> EndBeforeStart(m)
    ensures r.Some? ==> PiecesBelow(m, r.value, PORTS)
  {
    var list := [];
    var last := -1;
    var port := 0;
    while port < PORTS
      invariant 0 <= port <= PORTS
      invariant Scanned(m, list, last, port)
      invariant last >= 0 ==> !EndBeforeStart(m)
    {
      assert StatusIs(table[port], m, port);
      match table[port] {
        case RangeEdge =>
          if last == -1 { StartBeforeEnd(m, list, port); }
          EdgeStep(m, list, last, port);
          list := PushBefore(table, m, list, last, port);
          list := list + [PortRange(port, port)];
          last := port + 1;
        case RangeLeft =>
          if last == -1 { StartBeforeEnd(m, list, port); }
          LeftStep(m, list, last, port);
          list := PushBefore(table, m, list, last, port);
          last := port;
        case RangeRight =>
          if last < 0 {
            return None;
          }
          RightStep(m, list, last, port);
          assert StatusIs(table[last], m, last);
          if table[last] != RangeNone {
            list := list + [PortRange(last, port)];
          }
          last := port + 1;
        case _ =>
          IdleStep(m, list, last, port);
      }
      port := port + 1;
    }
    ScanEnds(m, list, last);
    return Some(list);
  }

  lemma StartMarked(rs: seq<PortRange>, j: nat)
    requires j < |rs|
    ensures rs[j].min in MarksOf(rs).starts
  {
    assert Starts(rs, rs[j].min);
  }

  lemma EndsFirstMarks(rs: seq<PortRange>, k: nat)
    requires k < |rs| && EndsBelowAll(rs, k)
    ensures EndBeforeStart(MarksOf(rs))
  {
    assert Ends(rs, rs[k].max);
    assert rs[k].max in MarksOf(rs).ends;
    forall q | 0 <= q <= rs[k].max
      ensures !Starts(rs, q)
    {
    }
  }

  lemma MarksEndFirst(rs: seq<PortRange>, e: int)
    requires e in MarksOf(rs).ends && forall q :: 0 <= q <= e ==> q !in MarksOf(rs).starts
    ensures EndsFirst(rs)
  {
    assert Ends(rs, e);
    var k: nat :| k < |rs| && rs[k].max == e;
    forall j | 0 <= j < |rs|
      ensures rs[k].max < rs[j].min
    {
      StartMarked(rs, j);
    }
    assert EndsBelowAll(rs, k);
  }

  lemma EndsFirstIs(rs: seq<PortRange>)
    ensures EndBeforeStart(MarksOf(rs)) <==> EndsFirst(rs)
  {
    if k: nat :| k < |rs| && EndsBelowAll(rs, k) { EndsFirstMarks(rs, k); }
    if e :| e in MarksOf(rs).ends && forall q :: 0 <= q <= e ==> q !in MarksOf(rs).starts { MarksEndFirst(rs, e); }
  }

  /** list holds, in ascending order, exactly the pieces. */
  ghost predicate Lists(rs: seq<PortRange>, list: seq<PortRange>)
  {
    Ascending(list) && forall lo: u16, hi: u16 :: Piece(rs, lo, hi) <==> PortRange(lo, hi) in list
  }

  /** interest, for any ranges: None, a panic, iff some range ends below the start of every range;
      else exactly the pieces between the ends of ranges. */
  method Interest(rs: seq<PortRange>) returns (r: Option<seq<PortRange>>)
    ensures r.None? <==> EndsFirst(rs)
    ensures r.Some? ==> Lists(rs, r.value)
  {
    if |rs| == 0 {
      NoPieces(rs);
      return Some([]);
    }
    var table := new PortStatus[PORTS](_ => RangeNone);
    CreateTable(rs, table);
    TableTells(table[..], rs);
    EndsFirstIs(rs);
    r := Scan(table[..], MarksOf(rs));
    if r.Some? {
      ListsAll(rs, r.value);
    }
  }

  lemma NoPieces(rs: seq<PortRange>)
    requires rs == []
    ensures forall lo, hi :: !Piece(rs, lo, hi)
  {
    forall lo, hi
      ensures !Piece(rs, lo, hi)
    {
      PieceIs(rs, lo, hi);
    }
  }

  lemma ListsAll(rs: seq<PortRange>, list: seq<PortRange>)
    requires PiecesBelow(MarksOf(rs), list, PORTS)
    ensures Lists(rs, list)
  {
    forall lo: u16, hi: u16
      ensures Piece(rs, lo, hi) <==> PortRange(lo, hi) in list
    {
      if PortRange(lo, hi) in list {
        var i :| 0 <= i < |list| && list[i] == PortRange(lo, hi);
      }
    }
  }

  // ----- Runs of equally covered ports -----

  /** A maximal run of ports held by one and the same nonempty set of ranges. */
  ghost predicate IsRun(rs: seq<PortRange>, lo: int, hi: int)
  {
    && 0 <= lo <= hi < PORTS
    && CoverSet(rs, lo) != {}
    && (forall p :: lo <= p <= hi ==> CoverSet(rs, p) == CoverSet(rs, lo))
    && (lo > 0 ==> CoverSet(rs, lo - 1) != CoverSet(rs, lo))
    && (hi < PORTS - 1 ==> CoverSet(rs, hi + 1) != CoverSet(rs, lo))
  }

  /** Away from boundaries the cover does not change; between ordered ranges it changes at each. */
  lemma CoverChanges(rs: seq<PortRange>, p: int)
    ensures !Boundary(rs, p + 1) ==> CoverSet(rs, p) == CoverSet(rs, p + 1)
    ensures WellFormed(rs) && Boundary(rs, p + 1) ==> CoverSet(rs, p) != CoverSet(rs, p + 1)
  {
    if !Boundary(rs, p + 1) {
      assert forall k :: 0 <= k < |rs| ==> rs[k].min != p + 1 && rs[k].max != p;
      assert forall k :: 0 <= k < |rs| ==> (rs[k].Has(p) <==> rs[k].Has(p + 1));
    } else if WellFormed(rs) {
      if k: nat :| k < |rs| && rs[k].min == p + 1 {
        assert k in CoverSet(rs, p + 1) && k !in CoverSet(rs, p);
      }
      if k: nat :| k < |rs| && rs[k].max == p {
        assert k in CoverSet(rs, p) && k !in CoverSet(rs, p + 1);
      }
    }
  }

  lemma CoveredIsNonempty(rs: seq<PortRange>, p: int)
    ensures Covered(rs, p) <==> CoverSet(rs, p) != {}
  {
    if k :| 0 <= k < |rs| && rs[k].Has(p) { assert k in CoverSet(rs, p); }
    if CoverSet(rs, p) != {} { var k :| k in CoverSet(rs, p); assert rs[k].Has(p); }
  }

  lemma {:induction false} SameCover(rs: seq<PortRange>, a: int, b: int)
    requires a <= b && forall q :: a < q <= b ==> !Boundary(rs, q)
    ensures forall q :: a <= q <= b ==> CoverSet(rs, q) == CoverSet(rs, a)
    decreases b - a
  {
    if a < b {
      SameCover(rs, a, b - 1);
      CoverChanges(rs, b - 1);
    }
  }

  lemma PieceIsRun(rs: seq<PortRange>, lo: int, hi: int)
    requires WellFormed(rs) && Piece(rs, lo, hi)
    ensures IsRun(rs, lo, hi)
  {
    PieceIs(rs, lo, hi);
    SameCover(rs, lo, hi);
    CoverChanges(rs, lo - 1);
    CoverChanges(rs, hi);
    assert Covered(rs, lo) by {
      if k :| 0 <= k < |rs| && (rs[k].min == lo || rs[k].max == lo) { assert rs[k].Has(lo); }
    }
    CoveredIsNonempty(rs, lo);
  }

  lemma RunIsPiece(rs: seq<PortRange>, lo: int, hi: int)
    requires WellFormed(rs) && IsRun(rs, lo, hi)
    ensures Piece(rs, lo, hi)
  {
    CoverChanges(rs, lo - 1);
    CoverChanges(rs, hi);
    CoveredIsNonempty(rs, lo);
    CoveredIsNonempty(rs, hi);
    var k :| 0 <= k < |rs| && rs[k].Has(lo);
    assert lo == 0 ==> rs[k].min == 0;
    var l :| 0 <= l < |rs| && rs[l].Has(hi);
    assert hi == PORTS - 1 ==> rs[l].max == hi;
    forall q | lo < q <= hi
      ensures !Boundary(rs, q)
    {
      CoverChanges(rs, q - 1);
    }
    PieceIs(rs, lo, hi);
  }

  /** Of ordered ranges, the pieces are exactly the maximal runs of equally covered ports, and the
      scan never fails. */
  lemma PiecesAreRuns(rs: seq<PortRange>)
    requires WellFormed(rs)
    ensures !EndsFirst(rs) && forall lo, hi :: Piece(rs, lo, hi) <==> IsRun(rs, lo, hi)
  {
    forall k: nat | k < |rs|
      ensures !EndsBelowAll(rs, k)
    {
      assert rs[k].max >= rs[k].min;
    }
    forall lo, hi
      ensures Piece(rs, lo, hi) <==> IsRun(rs, lo, hi)
    {
      if Piece(rs, lo, hi) { PieceIsRun(rs, lo, hi); }
      if IsRun(rs, lo, hi) { RunIsPiece(rs, lo, hi); }
    }
  }

  /** The last boundary up to p, if there is one. */
  lemma {:induction false} BoundaryBefore(rs: seq<PortRange>, from: int, p: int) returns (lo: int)
    requires from <= p && Boundary(rs, from)
    ensures from <= lo <= p && Boundary(rs, lo) && forall q :: lo < q <= p ==> !Boundary(rs, q)
    decreases p - from
  {
    if Boundary(rs, p) { lo := p; } else { lo := BoundaryBefore(rs, from, p - 1); }
  }

  lemma {:induction false} BoundaryAfter(rs: seq<PortRange>, p: int, end: int) returns (next: int)
    requires p < end && Boundary(rs, end)
    ensures p < next <= end && Boundary(rs, next) && forall q :: p < q < next ==> !Boundary(rs, q)
    decreases end - p
  {
    if Boundary(rs, p + 1) { next := p + 1; } else { next := BoundaryAfter(rs, p + 1, end); }
  }

  /** Every covered port is in a piece. */
  lemma CoveredInPiece(rs: seq<PortRange>, list: seq<PortRange>, p: u16)
    requires Lists(rs, list) && Covered(rs, p)
    ensures Covered(list, p)
  {
    var k :| 0 <= k < |rs| && rs[k].Has(p);
    assert Starts(rs, rs[k].min) && Ends(rs, rs[k].max);
    var lo := BoundaryBefore(rs, rs[k].min, p);
    var next := BoundaryAfter(rs, p, rs[k].max + 1);
    assert rs[k].Has(lo);
    PieceIs(rs, lo, next - 1);
    assert PortRange(lo, next - 1) in list;
  }

  lemma PieceOf(rs: seq<PortRange>, list: seq<PortRange>, k: nat, p: int)
    requires Lists(rs, list) && k < |list| && list[k].Has(p)
    ensures list[k].min <= list[k].max && CoverSet(rs, p) == CoverSet(rs, list[k].min)
  {
    assert list[k] in list;
    PieceIs(rs, list[k].min, list[k].max);
    SameCover(rs, list[k].min, list[k].max);
  }

  /** Two maximal runs that share a port are the same run. */
  lemma SameRun(rs: seq<PortRange>, lo: int, hi: int, lo': int, hi': int)
    requires IsRun(rs, lo, hi) && IsRun(rs, lo', hi') && lo' <= lo <= hi'
    ensures lo == lo' && hi == hi'
  {
    assert CoverSet(rs, lo) == CoverSet(rs, lo');
    assert lo' < lo ==> CoverSet(rs, lo - 1) == CoverSet(rs, lo');
    assert hi < hi' ==> CoverSet(rs, hi + 1) == CoverSet(rs, lo');
    assert hi' < hi ==> CoverSet(rs, hi' + 1) == CoverSet(rs, lo);
  }

  // ----- The table of representatives -----

  const ZERO: PortRange := PortRange(0, 0)

  /** Each port of each run has its run in the table, every other port has ZERO. */
  ghost predicate Filled(table: seq<PortRange>, runs: seq<PortRange>)
  {
    && |table| == PORTS
    && (forall k, p :: 0 <= k < |runs| && 0 <= p < PORTS && runs[k].Has(p) ==> table[p] == runs[k])
    && (forall p :: 0 <= p < PORTS && !Covered(runs, p) ==> table[p] == ZERO)
  }

  /** other is the last port of the stretch of covered ports that begins at port 0,
      as known after the first i runs; 0 when port 0 is not covered. */
  ghost predicate OtherAfter(runs: seq<PortRange>, i: nat, other: int)
    requires i <= |runs|
  {
    && 0 <= other < PORTS
    && (i == 0 || runs[0].min != 0 ==> other == 0)
    && (i > 0 && runs[0].min == 0 ==>
          && (forall p :: 0 <= p <= other ==> Covered(runs, p))
          && (other == runs[i - 1].max || (other < runs[i - 1].max && !Covered(runs, other + 1))))
  }

  lemma OtherStep(runs: seq<PortRange>, i: nat, other: int)
    requires Ascending(runs) && i < |runs| && OtherAfter(runs, i, other)
    requires forall k :: 0 <= k < |runs| ==> runs[k].min <= runs[k].max
    ensures i == 0 ==> OtherAfter(runs, 1, if runs[0].min == 0 then runs[0].max else 0)
    ensures i > 0 ==>
      runs[i].min > 0 && OtherAfter(runs, i + 1, if other >= runs[i].min - 1 then runs[i].max else other)
  {
    if i == 0 {
      forall p | 0 <= p <= runs[0].max && runs[0].min == 0
        ensures Covered(runs, p)
      {
        assert runs[0].Has(p);
      }
    } else if runs[0].min == 0 {
      if other >= runs[i].min - 1 {
        assert other + 1 == runs[i].min ==> runs[i].Has(other + 1);
        forall p | other < p <= runs[i].max
          ensures Covered(runs, p)
        {
          assert runs[i].Has(p);
        }
      } else if other == runs[i - 1].max {
        forall k | 0 <= k < |runs|
          ensures !runs[k].Has(other + 1)
        {
          assert k < i - 1 || k == i - 1 || k == i || k > i;
        }
      }
    }
  }

  lemma FilledStart(table: seq<PortRange>, runs: seq<PortRange>)
    requires |table| == PORTS && forall p :: 0 <= p < PORTS ==> table[p] == ZERO
    ensures Filled(table, runs[..0]) && OtherAfter(runs, 0, 0)
  {
  }

  lemma OtherBounds(runs: seq<PortRange>, i: nat, other: int)
    requires i <= |runs| && OtherAfter(runs, i, other)
    ensures 0 <= other < PORTS
  {
  }

  lemma FilledStep(runs: seq<PortRange>, i: nat, before: seq<PortRange>, after: seq<PortRange>)
    requires Ascending(runs) && i < |runs| && Filled(before, runs[..i]) && |after| == PORTS
    requires forall p :: 0 <= p < PORTS ==> after[p] == if runs[i].Has(p) then runs[i] else before[p]
    ensures Filled(after, runs[..i + 1])
  {
    var more := runs[..i + 1];
    forall p | 0 <= p < PORTS && !Covered(more, p)
      ensures after[p] == ZERO
    {
      assert more[i] == runs[i] && !more[i].Has(p);
      forall k | 0 <= k < |runs[..i]|
        ensures !runs[..i][k].Has(p)
      {
        assert !more[k].Has(p);
      }
    }
    forall k, p | 0 <= k < |more| && 0 <= p < PORTS && more[k].Has(p)
      ensures after[p] == more[k]
    {
      if k < i { assert runs[..i][k].Has(p); }
    }
  }

  /** generate_interest_table over the runs that interest returned. */
  method InterestTable(runs: seq<PortRange>) returns (reps: seq<PortRange>)
    requires Ascending(runs) && forall k :: 0 <= k < |runs| ==> runs[k].min <= runs[k].max
    ensures |reps| == PORTS
    ensures exists filled, other ::
      && Filled(filled, runs) && OtherAfter(runs, |runs|, other)
      && forall p :: 0 <= p < PORTS ==> reps[p] == Replaced(filled[p], other)
  {
    hide Filled, OtherAfter, Ascending;
    var table := new PortRange[PORTS](_ => ZERO);
    FilledStart(table[..], runs);
    var other := 0;
    for i := 0 to |runs|
      invariant OtherAfter(runs, i, other)
      invariant Filled(table[..], runs[..i])
    {
      var item := runs[i];
      OtherStep(runs, i, other);
      if i == 0 {
        other := if item.min == 0 then item.max else 0;
      } else if other >= item.min - 1 {
        other := item.max;
      }
      ghost var before := table[..];
      for j := item.min to item.max + 1
        invariant forall p :: 0 <= p < PORTS ==> table[p] == if item.min <= p < j then item else before[p]
      {
        table[j] := item;
      }
      FilledStep(runs, i, before, table[..]);
    }
    assert runs[..|runs|] == runs;
    OtherBounds(runs, |runs|, other);
    ghost var filled, stop := table[..], other;
    if other != 0 && other < PORTS - 1 {
      other := other + 1;
      for i := 0 to PORTS
        invariant forall p :: 0 <= p < PORTS ==> table[p] == if p < i then Replaced(filled[p], stop) else filled[p]
      {
        if table[i] == ZERO {
          table[i] := PortRange(other, other);
        }
      }
    }
    reps := table[..];
    assert forall p :: 0 <= p < PORTS ==> reps[p] == Replaced(filled[p], stop);
  }

  /** The last pass of generate_interest_table, entry by entry. */
  function Replaced(r: PortRange, other: int): PortRange
    requires 0 <= other < PORTS
  {
    if r == ZERO && other != 0 && other < PORTS - 1 then PortRange(other + 1, other + 1) else r
  }

  /** Ports that share a representative are mentioned by the same ranges, so a policy
      cached for one of them is right for the other. */
  ghost predicate Sound(rs: seq<PortRange>, reps: seq<PortRange>)
    requires |reps| == PORTS
  {
    forall p, q :: 0 <= p < PORTS && 0 <= q < PORTS && reps[p].min == reps[q].min ==> CoverSet(rs, p) == CoverSet(rs, q)
  }

  /** Some port is in no piece. */
  ghost predicate SomeFree(runs: seq<PortRange>)
  {
    exists p :: 0 <= p < PORTS && !Covered(runs, p)
  }

  lemma FreeIsUncovered(rs: seq<PortRange>, runs: seq<PortRange>, p: u16)
    requires Lists(rs, runs) && !Covered(runs, p)
    ensures CoverSet(rs, p) == {}
  {
    if Covered(rs, p) { CoveredInPiece(rs, runs, p); }
    CoveredIsNonempty(rs, p);
  }

  /** The port after the stretch of pieces at 0 is in no piece. */
  lemma AfterOther(runs: seq<PortRange>, other: int)
    requires Ascending(runs) && (forall k :: 0 <= k < |runs| ==> runs[k].min <= runs[k].max)
             && OtherAfter(runs, |runs|, other)
    requires runs != [] && runs[0].min == 0 && other < PORTS - 1
    ensures !Covered(runs, other + 1)
  {
    if other == runs[|runs| - 1].max {
      forall k | 0 <= k < |runs|
        ensures !runs[k].Has(other + 1)
      {
        assert k < |runs| - 1 ==> runs[k].max < runs[|runs| - 1].min;
      }
    }
  }

  /** What represents the ports that are in no piece is in no piece either, unless port 0 is a piece of
      its own. */
  lemma FreeRepresentative(runs: seq<PortRange>, other: int)
    requires Ascending(runs) && (forall k :: 0 <= k < |runs| ==> runs[k].min <= runs[k].max)
             && OtherAfter(runs, |runs|, other)
    requires SomeFree(runs)
    ensures var z := Replaced(ZERO, other).min; !Covered(runs, z) || (z == 0 && ZERO in runs)
  {
    var u :| 0 <= u < PORTS && !Covered(runs, u);
    if runs == [] || runs[0].min != 0 {
      forall k | 0 <= k < |runs|
        ensures !runs[k].Has(0)
      {
        assert k > 0 ==> runs[0].max < runs[k].min;
      }
    } else {
      assert other < PORTS - 1;
      AfterOther(runs, other);
      assert runs[0].Has(0);
      if runs[0].max > 0 { assert runs[0].Has(1); }
    }
  }

  ghost predicate PiecesOrdered(runs: seq<PortRange>) { forall k :: 0 <= k < |runs| ==> runs[k].min <= runs[k].max }

  lemma ListsOrdered(rs: seq<PortRange>, runs: seq<PortRange>)
    requires Lists(rs, runs)
    ensures PiecesOrdered(runs)
  {
    forall k | 0 <= k < |runs|
      ensures runs[k].min <= runs[k].max
    {
      assert runs[k] in runs;
      PieceIs(rs, runs[k].min, runs[k].max);
    }
  }

  /** Unless port 0 is covered, a piece of its own, and some port is in no piece, each port and its
      representative are covered alike. */
  lemma RepresentativeAlike(rs: seq<PortRange>, runs: seq<PortRange>, filled: seq<PortRange>, other: int, p: u16)
    requires Lists(rs, runs) && Filled(filled, runs) && OtherAfter(runs, |runs|, other)
    requires !(ZERO in runs && Covered(rs, 0) && SomeFree(runs))
    ensures CoverSet(rs, Replaced(filled[p], other).min) == CoverSet(rs, p)
  {
    ListsOrdered(rs, runs);
    var z := Replaced(ZERO, other).min;
    if SomeFree(runs) {
      FreeRepresentative(runs, other);
      assert CoverSet(rs, z) == {} by {
        if !Covered(runs, z) { FreeIsUncovered(rs, runs, z); } else { CoveredIsNonempty(rs, 0); }
      }
      CoveredIsNonempty(rs, 0);
    } else {
      assert Covered(runs, PORTS - 1);
      NoneFree(runs, other);
    }
    if Covered(runs, p) {
      var k :| 0 <= k < |runs| && runs[k].Has(p);
      PieceOf(rs, runs, k, p);
    } else {
      FreeIsUncovered(rs, runs, p);
    }
  }

  /** With no port free, the pieces reach from 0 to the top. */
  lemma NoneFree(runs: seq<PortRange>, other: int)
    requires Ascending(runs) && PiecesOrdered(runs) && OtherAfter(runs, |runs|, other) && !SomeFree(runs)
    ensures Replaced(ZERO, other) == ZERO
  {
    assert Covered(runs, 0);
    var k :| 0 <= k < |runs| && runs[k].Has(0);
    assert k > 0 ==> runs[0].max < runs[k].min;
    if other < PORTS - 1 { AfterOther(runs, other); }
    assert other < PORTS - 1 ==> Covered(runs, other + 1);
  }

  /** The table is sound iff port 0 is not a covered piece of its own or every port is in a piece. */
  lemma SoundIff(rs: seq<PortRange>, runs: seq<PortRange>, filled: seq<PortRange>, other: int, reps: seq<PortRange>)
    requires Lists(rs, runs) && Filled(filled, runs) && OtherAfter(runs, |runs|, other)
    requires |reps| == PORTS && forall p :: 0 <= p < PORTS ==> reps[p] == Replaced(filled[p], other)
    ensures Sound(rs, reps) <==> !(ZERO in runs && Covered(rs, 0) && SomeFree(runs))
  {
    if ZERO in runs && Covered(rs, 0) && SomeFree(runs) {
      var u :| 0 <= u < PORTS && !Covered(runs, u);
      var k :| 0 <= k < |runs| && runs[k] == ZERO;
      assert runs[k].Has(0) && filled[0] == ZERO;
      FreeIsUncovered(rs, runs, u);
      CoveredIsNonempty(rs, 0);
      assert reps[0].min == reps[u].min && CoverSet(rs, 0) != CoverSet(rs, u);
    } else {
      forall p, q | 0 <= p < PORTS && 0 <= q < PORTS && reps[p].min == reps[q].min
        ensures CoverSet(rs, p) == CoverSet(rs, q)
      {
        RepresentativeAlike(rs, runs, filled, other, p);
        RepresentativeAlike(rs, runs, filled, other, q);
      }
    }
  }

  /** The port ranges of one ACL, as they are parsed: a side that is not given is 0-65535. */
  datatype PortEnds = PortEnds(src: seq<PortRange>, dst: seq<PortRange>)

  /** The ranges of all ACLs, source before destination. */
  function Joined(acls: seq<PortEnds>): seq<PortRange>
  {
    if acls == [] then [] else Joined(acls[..|acls| - 1]) + acls[|acls| - 1].src + acls[|acls| - 1].dst
  }

  /** The whole of generate_interest_table, from the port ranges of the ACLs; None where interest
      panics. */
  method Representatives(acls: seq<PortEnds>) returns (r: Option<seq<PortRange>>, ghost runs: seq<PortRange>)
    ensures r.None? <==> EndsFirst(Joined(acls))
    ensures r.Some? ==> Lists(Joined(acls), runs) && |r.value| == PORTS
    ensures r.Some? ==>
      (Sound(Joined(acls), r.value) <==> !(ZERO in runs && Covered(Joined(acls), 0) && SomeFree(runs)))
  {
    hide EndsFirst, Lists, Sound, Covered, SomeFree;
    var list: seq<PortRange> := [];
    for i := 0 to |acls|
      invariant list == Joined(acls[..i])
    {
      assert acls[..i + 1][..i] == acls[..i];
      list := list + acls[i].src + acls[i].dst;
    }
    assert acls[..|acls|] == acls;
    var pieces := Interest(list);
    if pieces.None? {
      return None, [];
    }
    ListsOrdered(list, pieces.value);
    var reps := InterestTable(pieces.value);
    ghost var filled, other :|
      && Filled(filled, pieces.value) && OtherAfter(pieces.value, |pieces.value|, other)
      && forall p :: 0 <= p < PORTS ==> reps[p] == Replaced(filled[p], other);
    SoundIff(list, pieces.value, filled, other, reps);
    return Some(reps), pieces.value;
  }

  /** As soon as one ACL leaves a side open, the scan does not fail and every port is in a piece. */
  lemma OpenSideSafe(rs: seq<PortRange>, runs: seq<PortRange>)
    requires PortRange(0, 65535) in rs
    ensures !EndsFirst(rs) && (Lists(rs, runs) ==> !SomeFree(runs))
  {
    var k :| 0 <= k < |rs| && rs[k] == PortRange(0, 65535);
    forall j: nat | j < |rs|
      ensures !EndsBelowAll(rs, j)
    {
      assert rs[j].max >= rs[k].min;
    }
    if Lists(rs, runs) {
      forall p | 0 <= p < PORTS
        ensures Covered(runs, p)
      {
        assert rs[k].Has(p);
        CoveredInPiece(rs, runs, p);
      }
    }
  }

  /** One ACL with the ports 5-3 on both sides: nothing starts at or below port 3, where both end. */
  lemma InvertedBoth(acls: seq<PortEnds>)
    requires acls == [PortEnds([PortRange(5, 3)], [PortRange(5, 3)])]
    ensures EndsFirst(Joined(acls))
  {
    assert Joined(acls[..0]) == [];
    assert Joined(acls) == [PortRange(5, 3), PortRange(5, 3)];
    assert EndsBelowAll(Joined(acls), 0);
  }

  /** One ACL for port 0 on both sides is a case in which the table is not sound. */
  lemma PortZeroBoth(acls: seq<PortEnds>, runs: seq<PortRange>)
    requires acls == [PortEnds([PortRange(0, 0)], [PortRange(0, 0)])] && Lists(Joined(acls), runs)
    ensures ZERO in runs && Covered(Joined(acls), 0) && SomeFree(runs)
  {
    var rs := Joined(acls);
    assert Joined(acls[..0]) == [];
    assert rs == [PortRange(0, 0), PortRange(0, 0)];
    PortZeroOnly(rs, runs);
  }

  lemma PortZeroOnly(rs: seq<PortRange>, runs: seq<PortRange>)
    requires rs == [PortRange(0, 0), PortRange(0, 0)] && Lists(rs, runs)
    ensures ZERO in runs && Covered(rs, 0) && SomeFree(runs)
  {
    assert rs[0].Has(0) && Starts(rs, 0) && Ends(rs, 0);
    PieceIs(rs, 0, 0);
    forall k | 0 <= k < |runs|
      ensures !runs[k].Has(5)
    {
      assert runs[k] in runs;
      PieceIs(rs, runs[k].min, runs[k].max);
    }
    assert !Covered(runs, 5);
  }
}
