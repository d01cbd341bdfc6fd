/** The sorted set of 16-bit ids that accumulates policy group ids. */
module U16Sets {
  import opened Numbers

  /** Where v is in a sorted vector, or where it would have to go. */
  method BinarySearch(s: seq<u16>, v: u16) returns (found: bool, i: nat)
    requires Increasing(s)
    ensures i <= |s| && found == (v in s)
    ensures found ==> i < |s| && s[i] == v
    ensures !found ==> (forall j :: 0 <= j < i ==> s[j] < v) && (forall j :: i <= j < |s| ==> s[j] > v)
  {
    var lo, hi := 0, |s|;
    while lo < hi
      invariant 0 <= lo <= hi <= |s|
      invariant forall j :: 0 <= j < lo ==> s[j] < v
      invariant forall j :: hi <= j < |s| ==> s[j] > v
    {
      var mid := (lo + hi) / 2;
      if s[mid] == v { return true, mid; }
      if s[mid] < v { lo := mid + 1; } else { hi := mid; }
    }
    return false, lo;
  }

  /** done is the strictly increasing union of the first p elements of a and the first q of
      b, and what is left of either lies above it. */
  ghost predicate Merged(done: seq<u16>, a: seq<u16>, p: nat, b: seq<u16>, q: nat)
    requires p <= |a| && q <= |b|
  {
    && Increasing(done) && |done| <= p + q
    && (forall x: u16 :: x in done <==> x in a[..p] || x in b[..q])
    && (p < |a| ==> forall i :: 0 <= i < |done| ==> done[i] < a[p])
    && (q < |b| ==> forall i :: 0 <= i < |done| ==> done[i] < b[q])
  }

  lemma TakeLeft(done: seq<u16>, a: seq<u16>, p: nat, b: seq<u16>, q: nat)
    requires Increasing(a) && Increasing(b) && p < |a| && q <= |b| && Merged(done, a, p, b, q)
    requires q < |b| ==> a[p] < b[q]
    ensures Merged(done + [a[p]], a, p + 1, b, q)
  {
    assert a[..p + 1] == a[..p] + [a[p]];
  }

  lemma TakeRight(done: seq<u16>, a: seq<u16>, p: nat, b: seq<u16>, q: nat)
    requires Increasing(a) && Increasing(b) && p <= |a| && q < |b| && Merged(done, a, p, b, q)
    requires p < |a| ==> b[q] < a[p]
    ensures Merged(done + [b[q]], a, p, b, q + 1)
  {
    assert b[..q + 1] == b[..q] + [b[q]];
  }

  lemma TakeBoth(done: seq<u16>, a: seq<u16>, p: nat, b: seq<u16>, q: nat)
    requires Increasing(a) && Increasing(b) && p < |a| && q < |b| && Merged(done, a, p, b, q) && a[p] == b[q]
    ensures Merged(done + [a[p]], a, p + 1, b, q + 1)
  {
    assert a[..p + 1] == a[..p] + [a[p]];
    assert b[..q + 1] == b[..q] + [b[q]];
  }

  /** With one side used up, the rest of the other can be appended in one piece. */
  lemma {:induction false} TakeRest(done: seq<u16>, a: seq<u16>, p: nat, b: seq<u16>, q: nat)
    requires Increasing(a) && Increasing(b) && p <= |a| && q <= |b| && Merged(done, a, p, b, q)
    requires p == |a| || q == |b|
    ensures Merged(done + a[p..] + b[q..], a, |a|, b, |b|)
    decreases |a| - p + |b| - q
  {
    if p < |a| {
      TakeLeft(done, a, p, b, q);
      TakeRest(done + [a[p]], a, p + 1, b, q);
      assert done + a[p..] + b[q..] == done + [a[p]] + a[p + 1..] + b[q..];
    } else if q < |b| {
      TakeRight(done, a, p, b, q);
      TakeRest(done + [b[q]], a, p, b, q + 1);
      assert done + a[p..] + b[q..] == done + [b[q]] + a[p..] + b[q + 1..];
    } else {
      assert done + a[p..] + b[q..] == done;
    }
  }

  /** The vector in the middle of a merge: merged elements below the write cursor k, unread
      elements of a from the read cursor i on. The write cursor never overtakes i. */
  ghost predicate Working(v: seq<u16>, a: seq<u16>, b: seq<u16>, i: nat, j: nat, k: nat)
  {
    && |b| <= i <= |a| + |b| == |v| && j <= |b| && k <= i - |b| + j <= i
    && v[i..] == a[i - |b|..] && Merged(v[..k], a, i - |b|, b, j)
  }

  /** What one turn of the merge loop writes at k, and where it moves the read cursors. */
  function Turn(x: u16, y: u16, i: nat, j: nat): (u16, nat, nat)
  {
    if x > y then (y, i, j + 1) else if x < y then (x, i + 1, j) else (x, i + 1, j + 1)
  }

  lemma WorkingStep(v: seq<u16>, a: seq<u16>, b: seq<u16>, i: nat, j: nat, k: nat)
    requires Increasing(a) && Increasing(b) && Working(v, a, b, i, j, k) && i < |v| && j < |b|
    ensures k < |v| && var (x, i', j') := Turn(v[i], b[j], i, j); Working(v[k := x], a, b, i', j', k + 1)
  {
    var p := i - |b|;
    assert v[i] == v[i..][0] == a[p];
    assert v[i + 1..] == a[p + 1..] by { assert v[i..][1..] == a[p..][1..]; }
    if v[i] > b[j] {
      TakeRight(v[..k], a, p, b, j);
      WriteAt(v, k, b[j], i);
    } else if v[i] < b[j] {
      TakeLeft(v[..k], a, p, b, j);
      WriteAt(v, k, v[i], i + 1);
    } else {
      TakeBoth(v[..k], a, p, b, j);
      WriteAt(v, k, v[i], i + 1);
    }
  }

  lemma WorkingStart(v: seq<u16>, a: seq<u16>, b: seq<u16>)
    requires |v| == |a| + |b| && v[|b|..] == a
    ensures Working(v, a, b, |b|, 0, 0)
  {
    assert v[..0] == [] && a[0..] == a;
  }

  lemma WorkingBounds(v: seq<u16>, a: seq<u16>, b: seq<u16>, i: nat, j: nat, k: nat)
    requires Working(v, a, b, i, j, k)
    ensures i <= |v| && j <= |b|
  {
  }

  lemma WriteAt(v: seq<u16>, k: nat, x: u16, i: nat)
    requires k < |v| && k < i <= |v|
    ensures v[k := x][..k + 1] == v[..k] + [x] && v[k := x][i..] == v[i..]
  {
  }

  class U16Set {
    var data: seq<u16>

    ghost predicate Valid()
      reads this
    {
      Increasing(data)
    }

    constructor ()
      ensures Valid() && data == []
    {
      data := [];
    }

    method Add(v: u16)
      requires Valid()
      modifies this
      ensures Valid() && forall x: u16 :: x in data <==> x in old(data) || x == v
    {
      var found, i := BinarySearch(data, v);
      if !found {
        ghost var before := data;
        data := data[..i] + [v] + data[i..];
        assert before == before[..i] + before[i..];
      }
    }

    /** The union, computed inside one vector. */
    method Merge(other: U16Set)
      requires Valid() && other.Valid() && other != this
      modifies this
      ensures Valid() && forall x: u16 :: x in data <==> x in old(data) || x in other.data
    {
      if |other.data| == 0 { return; }
      if |data| == 0 {
        data := data + other.data;
        return;
      }
      data := MergeInto(data, other.data);
    }
  }

  /** The part of merge that works in place: v is self's vector, grown to hold both sets. */
  method MergeInto(a: seq<u16>, b: seq<u16>) returns (v: seq<u16>)
    requires Increasing(a) && Increasing(b)
    ensures Increasing(v) && forall x: u16 :: x in v <==> x in a || x in b
  {
    var grown := a + seq(|b|, _ => 0);
    var shifted := grown[..|b|] + grown[..|a|];
    var w, i, j, k := MergeLoop(shifted, a, b);
    v := CopyRest(w, a, b, i, j, k);
  }

  method MergeLoop(shifted: seq<u16>, ghost a: seq<u16>, b: seq<u16>) returns (v: seq<u16>, i: nat, j: nat, k: nat)
    requires Increasing(a) && Increasing(b) && |shifted| == |a| + |b| && shifted[|b|..] == a
    ensures Working(v, a, b, i, j, k) && (i == |v| || j == |b|)
  {
    hide Working, Increasing;
    v := shifted;
    i, j, k := |b|, 0, 0;
    WorkingStart(v, a, b);
    while i < |v| && j < |b|
      invariant Working(v, a, b, i, j, k)
    {
      WorkingStep(v, a, b, i, j, k);
      if v[i] > b[j] {
        v, j := v[k := b[j]], j + 1;
      } else if v[i] < b[j] {
        v, i := v[k := v[i]], i + 1;
      } else {
        v, i, j := v[k := v[i]], i + 1, j + 1;
      }
      k := k + 1;
    }
    WorkingBounds(v, a, b, i, j, k);
  }

  /** The two copies after the loop; at most one of them has anything to copy. */
  method CopyRest(w: seq<u16>, ghost a: seq<u16>, b: seq<u16>, i: nat, j: nat, k: nat) returns (v: seq<u16>)
    requires Increasing(a) && Increasing(b) && Working(w, a, b, i, j, k) && (i == |w| || j == |b|)
    ensures Increasing(v) && forall x: u16 :: x in v <==> x in a || x in b
  {
    v := w;
    var end, total := k, |w|;
    if i < total {
      v := v[..k] + v[i..total] + v[k + (total - i)..];
      end := k + (total - i);
    }
    if j < |b| {
      var left := |b| - j;
      v := v[..end] + b[j..j + left] + v[end + left..];
      end := end + left;
    }
    v := v[..end];
    assert v == w[..k] + a[i - |b|..] + b[j..];
    TakeRest(w[..k], a, i - |b|, b, j);
    assert a[..|a|] == a && b[..|b|] == b;
  }
}
