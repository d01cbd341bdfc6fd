/** Setting, clearing and testing single bits of a natural. */
module BitSets {
  import opened Powers

  /** x | (1 << i). */
  function SetBit(x: nat, i: nat): nat
  {
    if i == 0 then x / 2 * 2 + 1 else 2 * SetBit(x / 2, i - 1) + x % 2
  }

  /** x & !(1 << i). */
  function ClearBit(x: nat, i: nat): nat
  {
    if i == 0 then x / 2 * 2 else 2 * ClearBit(x / 2, i - 1) + x % 2
  }

  lemma {:induction false} BitOfSet(x: nat, i: nat, j: nat)
    ensures Bit(SetBit(x, i), j) <==> j == i || Bit(x, j)
    decreases i
  {
    if i > 0 {
      assert SetBit(x, i) / 2 == SetBit(x / 2, i - 1);
      if j > 0 { BitOfSet(x / 2, i - 1, j - 1); }
    }
  }

  lemma {:induction false} BitOfClear(x: nat, i: nat, j: nat)
    ensures Bit(ClearBit(x, i), j) <==> j != i && Bit(x, j)
    decreases i
  {
    if i > 0 {
      assert ClearBit(x, i) / 2 == ClearBit(x / 2, i - 1);
      if j > 0 { BitOfClear(x / 2, i - 1, j - 1); }
    }
  }

  lemma {:induction false} BitOfAnd(x: nat, y: nat, i: nat)
    ensures Bit(And(x, y), i) <==> Bit(x, i) && Bit(y, i)
    decreases i
  {
    AndStep(x, y);
    if i > 0 { BitOfAnd(x / 2, y / 2, i - 1); }
  }

  lemma {:induction false} ClearBitBound(x: nat, i: nat)
    ensures ClearBit(x, i) <= x
    decreases i
  {
    if i > 0 { ClearBitBound(x / 2, i - 1); }
  }

  lemma {:induction false} SetBitBound(x: nat, i: nat, w: nat)
    requires x < Pow2(w) && i < w
    ensures SetBit(x, i) < Pow2(w) && ClearBit(x, i) <= x
    decreases i
  {
    hide ClearBit;
    ClearBitBound(x, i);
    if i > 0 {
      var y := SetBit(x / 2, i - 1);
      SetBitBound(x / 2, i - 1, w - 1);
      assert SetBit(x, i) == 2 * y + x % 2 && y + 1 <= Pow2(w - 1);
    }
  }

  lemma {:induction false} NoBitAbove(x: nat, i: nat)
    requires x < Pow2(i)
    ensures !Bit(x, i)
    decreases i
  {
    if i > 0 { NoBitAbove(x / 2, i - 1); }
  }

  lemma {:induction false} BitOfZero(i: nat)
    ensures !Bit(0, i)
  {
    if i > 0 { BitOfZero(i - 1); }
  }

  lemma {:induction false} OnesBit(w: nat, i: nat)
    requires i < w
    ensures Bit(Pow2(w) - 1, i)
    decreases w
  {
    if i > 0 {
      assert (Pow2(w) - 1) / 2 == Pow2(w - 1) - 1;
      OnesBit(w - 1, i - 1);
    }
  }

  /** Numbers of w bits with the same bits are the same. */
  lemma {:induction false} SameBits(x: nat, y: nat, w: nat)
    requires x < Pow2(w) && y < Pow2(w)
    requires forall i: nat :: i < w ==> Bit(x, i) == Bit(y, i)
    ensures x == y
    decreases w
  {
    if w > 0 {
      forall i: nat | i < w - 1
        ensures Bit(x / 2, i) == Bit(y / 2, i)
      {
        assert Bit(x, i + 1) == Bit(y, i + 1);
      }
      SameBits(x / 2, y / 2, w - 1);
      assert Bit(x, 0) == Bit(y, 0);
    }
  }

  /** Setting a clear bit and clearing a set one undo each other. */
  lemma ClearUndoesSet(x: nat, o: nat, w: nat)
    requires x < Pow2(w) && o < w && !Bit(x, o)
    ensures ClearBit(SetBit(x, o), o) == x
  {
    var y := SetBit(x, o);
    SetBitBound(x, o, w);
    SetBitBound(y, o, w);
    forall i: nat | i < w
      ensures Bit(ClearBit(y, o), i) == Bit(x, i)
    {
      BitOfSet(x, o, i);
      BitOfClear(y, o, i);
    }
    SameBits(ClearBit(y, o), x, w);
  }

  lemma SetUndoesClear(x: nat, o: nat, w: nat)
    requires x < Pow2(w) && o < w && Bit(x, o)
    ensures SetBit(ClearBit(x, o), o) == x
  {
    var y := ClearBit(x, o);
    SetBitBound(x, o, w);
    SetBitBound(y, o, w);
    forall i: nat | i < w
      ensures Bit(SetBit(y, o), i) == Bit(x, i)
    {
      BitOfClear(x, o, i);
      BitOfSet(y, o, i);
    }
    SameBits(SetBit(y, o), x, w);
  }

  /** v has w bits and equals x at every one of them outside free. */
  ghost predicate EqualOutside(v: nat, x: nat, free: set<nat>, w: nat)
  {
    v < Pow2(w) && forall r: nat :: r < w && r !in free ==> Bit(v, r) == Bit(x, r)
  }

  ghost predicate NoRepeats(s: seq<nat>)
  {
    forall i, j :: 0 <= i < j < |s| ==> s[i] != s[j]
  }

  /** base lists, once each, the w-bit numbers that equal x outside free. */
  ghost predicate Enumerates(base: seq<nat>, x: nat, free: set<nat>, w: nat)
  {
    NoRepeats(base) && forall v: nat :: v in base <==> EqualOutside(v, x, free, w)
  }

  lemma StartEnumeration(index: nat, w: nat)
    requires index < Pow2(w)
    ensures Enumerates([index], index, {}, w)
  {
    forall v: nat
      ensures v in [index] <==> EqualOutside(v, index, {}, w)
    {
      if EqualOutside(v, index, {}, w) { SameBits(v, index, w); }
    }
  }

  /** base is half, followed by half with bit o set. */
  ghost predicate Doubles(base: seq<nat>, half: seq<nat>, o: nat)
  {
    && |base| == 2 * |half|
    && (forall j :: 0 <= j < |half| ==> base[j] == half[j])
    && (forall j :: |half| <= j < |base| ==> base[j] == SetBit(half[j - |half|], o))
  }

  /** Doubling an enumeration at a bit that is clear throughout frees that bit. */
  lemma DoubleEnumeration(half: seq<nat>, base: seq<nat>, x: nat, free: set<nat>, o: nat, w: nat)
    requires Enumerates(half, x, free, w) && o < w && o !in free && !Bit(x, o) && Doubles(base, half, o)
    ensures Enumerates(base, x, free + {o}, w)
  {
    forall v: nat
      ensures v in base <==> EqualOutside(v, x, free + {o}, w)
    {
      if v in base { DoubledIsEqual(half, base, x, free, o, w, v); }
      if EqualOutside(v, x, free + {o}, w) { EqualIsDoubled(half, base, x, free, o, w, v); }
    }
    DoubledNoRepeats(half, base, x, free, o, w);
  }

  lemma DoubledIsEqual(half: seq<nat>, base: seq<nat>, x: nat, free: set<nat>, o: nat, w: nat, v: nat)
    requires Enumerates(half, x, free, w) && o < w && Doubles(base, half, o) && v in base
    ensures EqualOutside(v, x, free + {o}, w)
  {
    var j :| 0 <= j < |base| && base[j] == v;
    var h := if j < |half| then half[j] else half[j - |half|];
    assert h in half;
    SetBitBound(h, o, w);
    forall r: nat | r < w && r !in free + {o}
      ensures Bit(v, r) == Bit(x, r)
    {
      BitOfSet(h, o, r);
    }
  }

  lemma EqualIsDoubled(half: seq<nat>, base: seq<nat>, x: nat, free: set<nat>, o: nat, w: nat, v: nat)
    requires Enumerates(half, x, free, w) && o < w && !Bit(x, o) && Doubles(base, half, o)
    requires EqualOutside(v, x, free + {o}, w)
    ensures v in base
  {
    var h := if Bit(v, o) then ClearBit(v, o) else v;
    SetBitBound(v, o, w);
    forall r: nat | r < w && r !in free
      ensures Bit(h, r) == Bit(x, r)
    {
      BitOfClear(v, o, r);
    }
    assert h in half;
    var j :| 0 <= j < |half| && half[j] == h;
    if Bit(v, o) {
      SetUndoesClear(v, o, w);
      assert base[|half| + j] == v;
    } else {
      assert base[j] == v;
    }
  }

  lemma DoubledNoRepeats(half: seq<nat>, base: seq<nat>, x: nat, free: set<nat>, o: nat, w: nat)
    requires Enumerates(half, x, free, w) && o < w && o !in free && !Bit(x, o) && Doubles(base, half, o)
    ensures NoRepeats(base)
  {
    var len := |half|;
    forall j | 0 <= j < len
      ensures half[j] < Pow2(w) && !Bit(half[j], o)
    {
      assert half[j] in half;
    }
    forall i, j | 0 <= i < j < |base|
      ensures base[i] != base[j]
    {
      if i < len <= j {
        BitOfSet(half[j - len], o, o);
      } else if len <= i {
        ClearUndoesSet(half[i - len], o, w);
        ClearUndoesSet(half[j - len], o, w);
      }
    }
  }

  /** What is enumerated depends on x outside free only. */
  lemma SameOutside(base: seq<nat>, x: nat, y: nat, free: set<nat>, w: nat)
    requires Enumerates(base, x, free, w)
    requires forall r: nat :: r !in free ==> Bit(x, r) == Bit(y, r)
    ensures Enumerates(base, y, free, w)
  {
    forall v: nat
      ensures v in base <==> EqualOutside(v, y, free, w)
    {
      assert EqualOutside(v, x, free, w) <==> EqualOutside(v, y, free, w);
    }
  }

  /** Anding w-bit numbers gives a w-bit number. */
  lemma {:induction false} AndBound(x: nat, y: nat)
    ensures And(x, y) <= x
  {
    if x > 0 && y > 0 { AndBound(x / 2, y / 2); }
  }
}
