/** The lookup key of the policy table and the table index that is picked out of its
    bits. A rule is a pair of fields, (field, mask). */
module MatchedFields {
  import opened Powers
  import opened BitSets
  import opened Numbers
  import opened Wrappers

  const OTHERS := 10

  /** Two addresses of the same length and ten more bytes. */
  datatype Field = Field(srcIp: seq<Byte>, dstIp: seq<Byte>, others: seq<Byte>) {
    predicate Valid(n: nat) { |srcIp| == n && |dstIp| == n && |others| == OTHERS }

    /** Byte j of the three arrays laid end to end. */
    function ByteAt(n: nat, j: nat): Byte
      requires Valid(n) && j < 2 * n + OTHERS
    {
      if j < n then srcIp[j] else if j < 2 * n then dstIp[j - n] else others[j - 2 * n]
    }

    function WithByte(n: nat, j: nat, b: Byte): (f: Field)
      requires Valid(n) && j < 2 * n + OTHERS
      ensures f.Valid(n)
      ensures forall k: nat :: k < 2 * n + OTHERS ==> f.ByteAt(n, k) == if k == j then b else ByteAt(n, k)
    {
      if j < n then this.(srcIp := srcIp[j := b])
      else if j < 2 * n then this.(dstIp := dstIp[j - n := b])
      else this.(others := others[j - 2 * n := b])
    }
  }

  function BitSize(n: nat): nat { 8 * (2 * n + OTHERS) }

  function AndBytes(a: seq<Byte>, b: seq<Byte>): (c: seq<Byte>)
    requires |a| == |b|
    ensures |c| == |a| && forall i :: 0 <= i < |c| ==> c[i] == And(a[i], b[i])
  {
    if a == [] then []
    else
      AndBound(a[0], b[0]);
      [And(a[0], b[0])] + AndBytes(a[1..], b[1..])
  }

  /** f & g. */
  function BitAnd(f: Field, g: Field, n: nat): (h: Field)
    requires f.Valid(n) && g.Valid(n)
    ensures h.Valid(n)
  {
    Field(AndBytes(f.srcIp, g.srcIp), AndBytes(f.dstIp, g.dstIp), AndBytes(f.others, g.others))
  }

  /** Bit offset of f is one: the negation of is_bit_zero, which panics past the end. */
  predicate One(f: Field, n: nat, offset: nat)
  {
    f.Valid(n) && offset < BitSize(n) && Bit(f.ByteAt(n, offset / 8), offset % 8)
  }

  lemma AndByte(f: Field, g: Field, n: nat, j: nat)
    requires f.Valid(n) && g.Valid(n) && j < 2 * n + OTHERS
    ensures BitAnd(f, g, n).ByteAt(n, j) == And(f.ByteAt(n, j), g.ByteAt(n, j))
  {
  }

  lemma AndBit(f: Field, g: Field, n: nat, o: nat)
    requires f.Valid(n) && g.Valid(n)
    ensures One(BitAnd(f, g, n), n, o) <==> One(f, n, o) && One(g, n, o)
  {
    if o < BitSize(n) {
      AndByte(f, g, n, o / 8);
      BitOfAnd(f.ByteAt(n, o / 8), g.ByteAt(n, o / 8), o % 8);
    }
  }

  // ----- The index of a key -----

  /** The one bits of mv in lo..hi-1, in ascending order. */
  function OnesOf(mv: Field, n: nat, lo: nat, hi: nat): (bits: seq<nat>)
    decreases hi
  {
    if hi <= lo then []
    else OnesOf(mv, n, lo, hi - 1) + (if One(mv, n, hi - 1) then [hi - 1] else [])
  }

  lemma {:induction false} OnesOfAre(mv: Field, n: nat, lo: nat, hi: nat)
    ensures Increasing(OnesOf(mv, n, lo, hi))
    ensures forall o: nat :: o in OnesOf(mv, n, lo, hi) <==> lo <= o < hi && One(mv, n, o)
    decreases hi
  {
    hide One;
    if hi > lo {
      var front := OnesOf(mv, n, lo, hi - 1);
      OnesOfAre(mv, n, lo, hi - 1);
      IncreasingSnoc(front, hi - 1);
      assert front + [] == front;
    }
  }

  /** The number whose bit r is the bit of key at offset bits[r]. */
  function Gathered(key: Field, n: nat, bits: seq<nat>): nat
  {
    if bits == [] then 0
    else
      var last := |bits| - 1;
      var index := Gathered(key, n, bits[..last]);
      if One(key, n, bits[last]) then SetBit(index, last) else index
  }

  lemma {:induction false} GatheredBits(key: Field, n: nat, bits: seq<nat>)
    ensures Gathered(key, n, bits) < Pow2(|bits|)
    ensures forall r: nat :: Bit(Gathered(key, n, bits), r) <==> r < |bits| && One(key, n, bits[r])
  {
    if bits == [] {
      forall r: nat ensures !Bit(0, r) { BitOfZero(r); }
    } else {
      var last := |bits| - 1;
      var front := bits[..last];
      var index := Gathered(key, n, front);
      GatheredBits(key, n, front);
      Pow2Monotonic(last, |bits|);
      SetBitBound(index, last, |bits|);
      forall r: nat
        ensures Bit(Gathered(key, n, bits), r) <==> r < |bits| && One(key, n, bits[r])
      {
        BitOfSet(index, last, r);
        if r < last { assert front[r] == bits[r]; }
      }
    }
  }

  /** The first sixteen of the bits: the others do not fit the index. */
  function FirstSixteen(bits: seq<nat>): seq<nat> { if |bits| <= 16 then bits else bits[..16] }

  /** A bit of the key is to be shifted to a place past the 32 bits of the shifted one. */
  ghost predicate ShiftsOut(key: Field, n: nat, bits: seq<nat>)
  {
    exists r :: 32 <= r < |bits| && One(key, n, bits[r])
  }

  /** Where get_table_index panics: at an empty window, at one past the end, or at a shift. */
  ghost predicate NoIndex(key: Field, mv: Field, n: nat, min: nat, max: nat)
  {
    min > max || max >= BitSize(n) || ShiftsOut(key, n, OnesOf(mv, n, min, max + 1))
  }

  /** State of the loop of get_table_index before it looks at bit i. */
  ghost predicate AtBit(key: Field, mv: Field, n: nat, min: nat, i: nat, index: nat, offset: nat)
  {
    var bits := OnesOf(mv, n, min, i);
    offset == |bits| && index == Gathered(key, n, FirstSixteen(bits)) && !ShiftsOut(key, n, bits)
  }

  lemma NextBit(key: Field, mv: Field, n: nat, min: nat, i: nat, index: nat, offset: nat)
    requires key.Valid(n) && mv.Valid(n) && min <= i && AtBit(key, mv, n, min, i, index, offset)
    requires offset < 32 || !One(BitAnd(key, mv, n), n, i)
    ensures AtBit(key, mv, n, min, i + 1,
                  if One(BitAnd(key, mv, n), n, i) && offset < 16 then SetBit(index, offset) else index,
                  if One(mv, n, i) then offset + 1 else offset)
  {
    AndBit(key, mv, n, i);
    hide One, OnesOf, Gathered, ShiftsOut;
    var before := OnesOf(mv, n, min, i);
    OneMore(mv, n, min, i);
    GatheredSnoc(key, n, before, i);
    ShiftsOutSnoc(key, n, before, i);
    assert FirstSixteen(before + [i]) == if |before| < 16 then before + [i] else FirstSixteen(before);
  }

  lemma OneMore(mv: Field, n: nat, lo: nat, i: nat)
    requires lo <= i
    ensures OnesOf(mv, n, lo, i + 1) == if One(mv, n, i) then OnesOf(mv, n, lo, i) + [i] else OnesOf(mv, n, lo, i)
  {
  }

  lemma GatheredSnoc(key: Field, n: nat, bits: seq<nat>, o: nat)
    ensures Gathered(key, n, bits + [o])
         == if One(key, n, o) then SetBit(Gathered(key, n, bits), |bits|) else Gathered(key, n, bits)
  {
    assert (bits + [o])[..|bits|] == bits;
  }

  lemma ShiftsOutSnoc(key: Field, n: nat, bits: seq<nat>, o: nat)
    ensures ShiftsOut(key, n, bits + [o]) <==> ShiftsOut(key, n, bits) || (|bits| >= 32 && One(key, n, o))
  {
    var all := bits + [o];
    if r :| 32 <= r < |bits| && One(key, n, bits[r]) { assert all[r] == bits[r]; }
    assert all[|bits|] == o;
  }

  lemma ShiftedOut(key: Field, mv: Field, n: nat, min: nat, i: nat, offset: nat, max: nat)
    requires key.Valid(n) && mv.Valid(n) && min <= i <= max
    requires offset == |OnesOf(mv, n, min, i)| >= 32 && One(BitAnd(key, mv, n), n, i)
    ensures NoIndex(key, mv, n, min, max)
  {
    AndBit(key, mv, n, i);
    OnesOfGrows(mv, n, min, i + 1, max + 1);
    assert OnesOf(mv, n, min, i + 1)[offset] == i;
  }

  lemma {:induction false} OnesOfGrows(mv: Field, n: nat, lo: nat, i: nat, hi: nat)
    requires lo <= i <= hi
    ensures OnesOf(mv, n, lo, i) <= OnesOf(mv, n, lo, hi)
    decreases hi
  {
    if i < hi { OnesOfGrows(mv, n, lo, i, hi - 1); }
  }

  /** get_table_index; None where it panics. The index has sixteen bits. */
  method GetTableIndex(key: Field, mv: Field, n: nat, min: nat, max: nat) returns (r: Option<nat>)
    requires key.Valid(n) && mv.Valid(n)
    ensures r.None? <==> NoIndex(key, mv, n, min, max)
    ensures r.Some? ==> r.value < Pow2(16) && r.value == Gathered(key, n, FirstSixteen(OnesOf(mv, n, min, max + 1)))
  {
    hide One, Pow2;
    if min > max { return None; }
    var result := BitAnd(key, mv, n);
    var index: nat, offset: nat := 0, 0;
    for i := min to max + 1
      invariant AtBit(key, mv, n, min, i, index, offset) && (i > min ==> i <= BitSize(n))
    {
      if i >= BitSize(n) { return None; }
      if One(result, n, i) {
        if offset >= 32 {
          ShiftedOut(key, mv, n, min, i, offset, max);
          return None;
        }
        NextBit(key, mv, n, min, i, index, offset);
        if offset < 16 { index := SetBit(index, offset); }
      } else {
        NextBit(key, mv, n, min, i, index, offset);
      }
      if One(mv, n, i) {
        offset := offset + 1;
      }
    }
    ghost var bits := FirstSixteen(OnesOf(mv, n, min, max + 1));
    GatheredBits(key, n, bits);
    Pow2Monotonic(|bits|, 16);
    return Some(index);
  }

  // ----- All indices of a rule -----

  /** The positions of vector_bits where the mask leaves the bit open. */
  ghost function OpenBits(mask: Field, n: nat, vectorBits: seq<nat>): set<nat>
  {
    set r: nat | r < |vectorBits| && !One(mask, n, vectorBits[r])
  }

  /** The loop that collects the open positions; None at an offset past the end. */
  method OpenOffsets(mask: Field, n: nat, vectorBits: seq<nat>) returns (r: Option<seq<nat>>)
    requires mask.Valid(n)
    ensures r.None? <==> exists k :: 0 <= k < |vectorBits| && vectorBits[k] >= BitSize(n)
    ensures r.Some? ==> NoRepeats(r.value) && forall k: nat :: k in r.value <==> k in OpenBits(mask, n, vectorBits)
  {
    hide One;
    var offsets: seq<nat> := [];
    for i := 0 to |vectorBits|
      invariant forall k :: 0 <= k < i ==> vectorBits[k] < BitSize(n)
      invariant forall k: nat :: k in offsets <==> k < i && !One(mask, n, vectorBits[k])
      invariant NoRepeats(offsets)
    {
      if vectorBits[i] >= BitSize(n) { return None; }
      if !One(mask, n, vectorBits[i]) {
        assert i !in offsets;
        offsets := offsets + [i];
      }
    }
    return Some(offsets);
  }

  /** The loop that clears them; None at a position that a sixteen-bit one cannot be shifted to. */
  method ClearAll(first: nat, offsets: seq<nat>) returns (index: Option<nat>)
    requires first < Pow2(16)
    ensures index.None? <==> exists k :: 0 <= k < |offsets| && offsets[k] >= 16
    ensures index.Some? ==>
      index.value < Pow2(16) && forall r: nat :: Bit(index.value, r) <==> r !in offsets && Bit(first, r)
  {
    hide Pow2, Bit;
    var cleared: nat := first;
    for k := 0 to |offsets|
      invariant cleared < Pow2(16) && forall j :: 0 <= j < k ==> offsets[j] < 16
      invariant forall r: nat :: Bit(cleared, r) <==> r !in offsets[..k] && Bit(first, r)
    {
      if offsets[k] >= 16 { return None; }
      ghost var before := cleared;
      SetBitBound(cleared, offsets[k], 16);
      cleared := ClearBit(cleared, offsets[k]);
      forall r: nat
        ensures Bit(cleared, r) <==> r !in offsets[..k + 1] && Bit(first, r)
      {
        BitOfClear(before, offsets[k], r);
      }
    }
    assert offsets[..|offsets|] == offsets;
    return Some(cleared);
  }

  ghost function Prefix(s: seq<nat>, k: nat): set<nat>
    requires k <= |s|
  {
    set r | r in s[..k]
  }

  /** The loop that doubles the list at each open position. */
  method Expand(index: nat, offsets: seq<nat>, ghost w: nat) returns (base: seq<nat>)
    requires index < Pow2(w) && NoRepeats(offsets)
    requires forall k :: 0 <= k < |offsets| ==> offsets[k] < w && !Bit(index, offsets[k])
    ensures Enumerates(base, index, Prefix(offsets, |offsets|), w)
  {
    base := [index];
    StartEnumeration(index, w);
    for k := 0 to |offsets|
      invariant Enumerates(base, index, Prefix(offsets, k), w)
    {
      ghost var half := base;
      var len := |base|;
      for i := 0 to len
        invariant |base| == len + i
        invariant forall j :: 0 <= j < len ==> base[j] == half[j]
        invariant forall j :: len <= j < len + i ==> base[j] == SetBit(half[j - len], offsets[k])
      {
        base := base + [SetBit(base[i], offsets[k])];
      }
      DoubleEnumeration(half, base, index, Prefix(offsets, k), offsets[k], w);
      assert Prefix(offsets, k + 1) == Prefix(offsets, k) + {offsets[k]};
    }

  }

  /** Where get_all_table_index panics: with its first index, at an offset past the end, or at the shift of
      a sixteen-bit one to an open position from 16 on. */
  ghost predicate NoIndices(field: Field, mv: Field, mask: Field, n: nat, min: nat, max: nat, vectorBits: seq<nat>)
  {
    || NoIndex(field, mv, n, min, max)
    || (exists r :: 0 <= r < |vectorBits| && vectorBits[r] >= BitSize(n))
    || (exists r :: r in OpenBits(mask, n, vectorBits) && r >= 16)
  }

  /** get_all_table_index; None where it panics. */
  method GetAllTableIndex(field: Field, mv: Field, mask: Field, n: nat, min: nat, max: nat, vectorBits: seq<nat>)
    returns (r: Option<seq<nat>>)
    requires field.Valid(n) && mv.Valid(n) && mask.Valid(n)
    ensures r.None? <==> NoIndices(field, mv, mask, n, min, max, vectorBits)
    ensures r.Some? ==>
      Enumerates(r.value, Gathered(field, n, FirstSixteen(OnesOf(mv, n, min, max + 1))),
                 OpenBits(mask, n, vectorBits), 16)
  {
    hide Pow2, Bit, One, NoIndex;
    var first := GetTableIndex(field, mv, n, min, max);
    if first.None? { return None; }
    var offsets := OpenOffsets(mask, n, vectorBits);
    if offsets.None? { return None; }
    ghost var free := OpenBits(mask, n, vectorBits);
    var index := ClearAll(first.value, offsets.value);
    assert forall k :: 0 <= k < |offsets.value| ==> offsets.value[k] in offsets.value;
    if index.None? { return None; }
    var base := Expand(index.value, offsets.value, 16);
    assert free == Prefix(offsets.value, |offsets.value|);
    SameOutside(base, index.value, first.value, free, 16);
    return Some(base);
  }
}
