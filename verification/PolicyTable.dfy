/** The first-path table: rules are filed under every index they can be reached by, and
    a key is matched against the rules filed under its own index. */
module PolicyTable {
  import opened Numbers
  import opened Powers
  import opened BitSets
  import opened MatchedFields

  // ----- Fields, bit by bit -----

  function Filled(n: nat, b: Byte): (f: Field)
    ensures f.Valid(n)
  {
    Field(seq(n, _ => b), seq(n, _ => b), seq(OTHERS, _ => b))
  }

  /** f with bit o set to value. */
  function WithBit(f: Field, n: nat, o: nat, value: bool): (g: Field)
    requires f.Valid(n) && o < BitSize(n)
    ensures g.Valid(n)
  {
    var b := f.ByteAt(n, o / 8);
    assert Pow2(8) == 256;
    SetBitBound(b, o % 8, 8);
    f.WithByte(n, o / 8, if value then SetBit(b, o % 8) else ClearBit(b, o % 8))
  }

  lemma OneOfWithBit(f: Field, n: nat, o: nat, value: bool, p: nat)
    requires f.Valid(n) && o < BitSize(n)
    ensures One(WithBit(f, n, o, value), n, p) <==> if p == o then value else One(f, n, p)
  {
    if p < BitSize(n) && p / 8 == o / 8 {
      BitOfSet(f.ByteAt(n, o / 8), o % 8, p % 8);
      BitOfClear(f.ByteAt(n, o / 8), o % 8, p % 8);
      assert p == o <==> p % 8 == o % 8;
    }
  }

  lemma OneOfFilled(n: nat, o: nat)
    ensures !One(Filled(n, 0), n, o)
    ensures One(Filled(n, 255), n, o) <==> o < BitSize(n)
  {
    BitOfZero(o % 8);
    assert Pow2(8) == 256;
    OnesBit(8, o % 8);
  }

  // ----- When the index finds every rule -----

  /** The bits that were picked to index the table. */
  datatype Vector = Vector(mask: Field, minBit: nat, maxBit: nat, vectorBits: seq<nat>) {
    ghost predicate Valid(n: nat)
    {
      && mask.Valid(n) && minBit <= maxBit < BitSize(n)
      && |Chosen(n)| <= 16 && |vectorBits| <= 16
      && forall r :: 0 <= r < |vectorBits| ==> vectorBits[r] < BitSize(n)
    }

    /** The offsets that make up an index, lowest bit first. */
    function Chosen(n: nat): seq<nat>
    {
      OnesOf(mask, n, minBit, maxBit + 1)
    }

    /** The index of a key. */
    function Index(key: Field, n: nat): nat
    {
      Gathered(key, n, Chosen(n))
    }
  }

  /** key and field agree at every bit that the mask asks about. */
  ghost predicate Agrees(key: Field, field: Field, mask: Field, n: nat)
  {
    forall o: nat :: One(mask, n, o) ==> One(key, n, o) == One(field, n, o)
  }

  /** The rule (field, mask) is filed under index. */
  ghost predicate Filed(index: nat, field: Field, mask: Field, v: Vector, n: nat)
  {
    EqualOutside(index, v.Index(field, n), OpenBits(mask, n, v.vectorBits), 16)
  }

  /** Every rule is filed under the index of every key that agrees with it. */
  ghost predicate NeverMisses(v: Vector, n: nat)
  {
    forall key: Field, field: Field, mask: Field ::
      key.Valid(n) && field.Valid(n) && mask.Valid(n) && Agrees(key, field, mask, n)
      ==> Filed(v.Index(key, n), field, mask, v, n)
  }

  lemma FiledWhenPrefix(key: Field, field: Field, mask: Field, v: Vector, n: nat)
    requires v.Valid(n) && v.Chosen(n) <= v.vectorBits && Agrees(key, field, mask, n)
    ensures Filed(v.Index(key, n), field, mask, v, n)
  {
    hide Pow2, Bit;
    var bits := v.Chosen(n);
    GatheredBits(key, n, bits);
    GatheredBits(field, n, bits);
    Pow2Monotonic(|bits|, 16);
    forall r: nat | r < 16 && r !in OpenBits(mask, n, v.vectorBits)
      ensures Bit(v.Index(key, n), r) == Bit(v.Index(field, n), r)
    {
      if r < |bits| { assert bits[r] == v.vectorBits[r]; }
    }
  }

  /** A rule that asks about every bit but one, and a key that differs in that bit. */
  lemma MissedUnlessPrefix(v: Vector, n: nat, r: nat) returns (key: Field, field: Field, mask: Field)
    requires v.Valid(n) && r < |v.Chosen(n)| && (r < |v.vectorBits| ==> v.vectorBits[r] != v.Chosen(n)[r])
    ensures key.Valid(n) && field.Valid(n) && mask.Valid(n) && Agrees(key, field, mask, n)
    ensures !Filed(v.Index(key, n), field, mask, v, n)
  {
    var bits := v.Chosen(n);
    OnesOfAre(v.mask, n, v.minBit, v.maxBit + 1);
    var o := bits[r];
    assert o in bits;
    field := Filled(n, 0);
    key := WithBit(field, n, o, true);
    mask := WithBit(Filled(n, 255), n, o, false);
    forall p: nat
      ensures One(key, n, p) <==> p == o
      ensures !One(field, n, p)
      ensures One(mask, n, p) <==> p < BitSize(n) && p != o
    {
      OneOfFilled(n, p);
      OneOfWithBit(field, n, o, true, p);
      OneOfWithBit(Filled(n, 255), n, o, false, p);
    }
    GatheredBits(key, n, bits);
    GatheredBits(field, n, bits);
    assert r !in OpenBits(mask, n, v.vectorBits);
    assert Bit(v.Index(key, n), r) && !Bit(v.Index(field, n), r);
  }

  /** No rule is ever missed iff the offsets that make up an index are the first of the
      listed vector bits, in the listed order. */
  lemma NeverMissesIff(v: Vector, n: nat)
    requires v.Valid(n)
    ensures NeverMisses(v, n) <==> v.Chosen(n) <= v.vectorBits
  {
    var bits := v.Chosen(n);
    if bits <= v.vectorBits {
      forall key: Field, field: Field, mask: Field
        | key.Valid(n) && field.Valid(n) && mask.Valid(n) && Agrees(key, field, mask, n)
        ensures Filed(v.Index(key, n), field, mask, v, n)
      {
        FiledWhenPrefix(key, field, mask, v, n);
      }
    } else {
      var r := FirstDifference(bits, v.vectorBits);
      var key, field, mask := MissedUnlessPrefix(v, n, r);
    }
  }

  lemma FirstDifference(a: seq<nat>, b: seq<nat>) returns (r: nat)
    requires !(a <= b)
    ensures r < |a| && (r < |b| ==> a[r] != b[r])
  {
    if |a| > |b| {
      r := |b|;
    } else {
      r :| r < |a| && a[r] != b[r];
    }
  }

  // ----- The vector that init builds -----

  /** Offset o is assigned last among the offsets of its byte. */
  ghost predicate Survives(bits: seq<nat>, o: nat)
  {
    exists j :: 0 <= j < |bits| && bits[j] == o && forall l :: j < l < |bits| ==> bits[l] / 8 != o / 8
  }

  lemma {:induction false} BitOfPow2(i: nat, j: nat)
    ensures Bit(Pow2(i), j) <==> i == j
    decreases i
  {
    if i == 0 {
      if j > 0 { BitOfZero(j - 1); }
    } else if j > 0 {
      BitOfPow2(i - 1, j - 1);
    }
  }

  lemma AssignByte(f: Field, n: nat, b: nat, o: nat)
    requires f.Valid(n) && b < BitSize(n) && Pow2(b % 8) < 256
    ensures One(f.WithByte(n, b / 8, Pow2(b % 8)), n, o) <==> if o / 8 == b / 8 then o == b else One(f, n, o)
  {
    BitOfPow2(b % 8, o % 8);
  }

  /** set_bits: each offset assigns its whole byte. */
  method SetBits(bits: seq<nat>, n: nat) returns (f: Field)
    requires forall r :: 0 <= r < |bits| ==> bits[r] < BitSize(n)
    ensures f.Valid(n) && forall o: nat :: One(f, n, o) <==> Survives(bits, o)
  {
    f := Filled(n, 0);
    forall o: nat ensures !One(f, n, o) { OneOfFilled(n, o); }
    for k := 0 to |bits|
      invariant f.Valid(n) && forall o: nat :: One(f, n, o) <==> Survives(bits[..k], o)
    {
      var b := bits[k];
      ghost var before := f;
      assert Pow2(b % 8) < 256 by { Pow2Monotonic(b % 8, 7); assert Pow2(7) == 128; }
      f := f.WithByte(n, b / 8, Pow2(b % 8));
      forall o: nat
        ensures One(f, n, o) <==> Survives(bits[..k + 1], o)
      {
        AssignByte(before, n, b, o);
        SurvivesStep(bits, k, o);
      }
    }
    assert bits[..|bits|] == bits;
  }

  lemma SurvivesStep(bits: seq<nat>, k: nat, o: nat)
    requires k < |bits|
    ensures Survives(bits[..k + 1], o) <==> if o / 8 == bits[k] / 8 then o == bits[k] else Survives(bits[..k], o)
  {
    var before, after := bits[..k], bits[..k + 1];
    assert after[k] == bits[k];
    if Survives(before, o) && o / 8 != bits[k] / 8 {
      var j :| 0 <= j < |before| && before[j] == o && forall l :: j < l < |before| ==> before[l] / 8 != o / 8;
      forall l | j < l < |after|
        ensures after[l] / 8 != o / 8
      {
        if l < k { assert after[l] == before[l]; }
      }
      assert after[j] == o;
    }
    if Survives(after, o) {
      var j :| 0 <= j < |after| && after[j] == o && forall l :: j < l < |after| ==> after[l] / 8 != o / 8;
      if j < k {
        assert before[j] == o;
        forall l | j < l < |before|
          ensures before[l] / 8 != o / 8
        {
          assert after[l] == before[l];
        }
      }
    }
  }

  /** Init takes the listed offsets in ascending order and looks at the first size of them. */
  ghost predicate Built(v: Vector, n: nat, size: nat)
  {
    && v.mask.Valid(n) && 1 <= size <= |v.vectorBits| <= 16 && Increasing(v.vectorBits)
    && (forall r :: 0 <= r < |v.vectorBits| ==> v.vectorBits[r] < BitSize(n))
    && v.minBit == v.vectorBits[0] && v.maxBit == v.vectorBits[size - 1]
    && forall o: nat :: One(v.mask, n, o) <==> Survives(v.vectorBits, o)
  }

  lemma ChosenOfBuilt(v: Vector, n: nat, size: nat)
    requires Built(v, n, size)
    ensures v.Valid(n) && Increasing(v.Chosen(n))
    ensures forall o: nat :: o in v.Chosen(n) <==> Survives(v.vectorBits, o) && o <= v.maxBit
    ensures forall o: nat :: o in v.Chosen(n) ==> o in v.vectorBits
  {
    hide OnesOf, One;
    var bits := v.vectorBits;
    OnesOfAre(v.mask, n, v.minBit, v.maxBit + 1);
    forall o: nat | Survives(bits, o)
      ensures o in bits && v.minBit <= o
    {
      var j :| 0 <= j < |bits| && bits[j] == o && forall l :: j < l < |bits| ==> bits[l] / 8 != o / 8;
    }
    SubsetLength(v.Chosen(n), bits);
  }

  ghost function Elements(s: seq<nat>): set<nat>
  {
    set x | x in s
  }

  lemma SubsetLength(a: seq<nat>, b: seq<nat>)
    requires Increasing(a) && forall x :: x in a ==> x in b
    ensures |a| <= |b|
  {
    var rest := Elements(b) - Elements(a);
    assert Elements(b) == Elements(a) + rest;
    ElementCount(a);
    ElementCount(b);
  }

  lemma {:induction false} ElementCount(a: seq<nat>)
    ensures |Elements(a)| <= |a|
    ensures Increasing(a) ==> |Elements(a)| == |a|
  {
    if a == [] {
      assert Elements(a) == {};
    } else {
      var front, last := a[..|a| - 1], a[|a| - 1];
      ElementCount(front);
      assert a == front + [last];
      assert Elements(a) == Elements(front) + {last};
      assert Increasing(a) ==> Increasing(front) && last !in front;
    }
  }

  /** An increasing list of elements of another is nowhere behind it. */
  lemma {:induction false} NowhereBehind(a: seq<nat>, b: seq<nat>, r: nat)
    requires Increasing(a) && Increasing(b) && (forall x :: x in a ==> x in b) && r < |a|
    ensures r < |b| && a[r] >= b[r]
    decreases r
  {
    assert a[r] in a;
    var j :| 0 <= j < |b| && b[j] == a[r];
    if r > 0 { NowhereBehind(a, b, r - 1); }
    assert j >= r;
    assert j > r ==> b[j] > b[r];
  }

  // ----- The indices of a rule are exactly those of the keys that agree with it -----

  /** field, with its bits at the first k offsets replaced by those of index. */
  function KeyFor(field: Field, n: nat, bits: seq<nat>, index: nat, k: nat): (key: Field)
    requires field.Valid(n) && k <= |bits| && forall r :: 0 <= r < |bits| ==> bits[r] < BitSize(n)
    ensures key.Valid(n)
  {
    if k == 0 then field else WithBit(KeyFor(field, n, bits, index, k - 1), n, bits[k - 1], Bit(index, k - 1))
  }

  lemma {:induction false} KeyForBits(field: Field, n: nat, bits: seq<nat>, index: nat, k: nat)
    requires field.Valid(n) && k <= |bits| && forall r :: 0 <= r < |bits| ==> bits[r] < BitSize(n)
    requires Increasing(bits)
    ensures forall r :: 0 <= r < k ==> (One(KeyFor(field, n, bits, index, k), n, bits[r]) <==> Bit(index, r))
    ensures forall o: nat :: o !in bits[..k] ==> One(KeyFor(field, n, bits, index, k), n, o) == One(field, n, o)
    decreases k
  {
    if k > 0 {
      var before, after := KeyFor(field, n, bits, index, k - 1), KeyFor(field, n, bits, index, k);
      KeyForBits(field, n, bits, index, k - 1);
      assert bits[..k] == bits[..k - 1] + [bits[k - 1]];
      forall r | 0 <= r < k
        ensures One(after, n, bits[r]) <==> Bit(index, r)
      {
        OneOfWithBit(before, n, bits[k - 1], Bit(index, k - 1), bits[r]);
      }
      forall o: nat | o !in bits[..k]
        ensures One(after, n, o) == One(field, n, o)
      {
        OneOfWithBit(before, n, bits[k - 1], Bit(index, k - 1), o);
      }
    }
  }

  lemma IndexOfSomeKey(index: nat, field: Field, mask: Field, v: Vector, n: nat) returns (key: Field)
    requires v.Valid(n) && v.Chosen(n) == v.vectorBits && field.Valid(n)
    requires Filed(index, field, mask, v, n)
    ensures key.Valid(n) && Agrees(key, field, mask, n) && v.Index(key, n) == index
  {
    var bits := v.vectorBits;
    OnesOfAre(v.mask, n, v.minBit, v.maxBit + 1);
    key := KeyFor(field, n, bits, index, |bits|);
    KeyForBits(field, n, bits, index, |bits|);
    GatheredBits(field, n, bits);
    GatheredBits(key, n, bits);
    forall o: nat | One(mask, n, o)
      ensures One(key, n, o) == One(field, n, o)
    {
      if o in bits {
        var r :| 0 <= r < |bits| && bits[r] == o;
        assert r !in OpenBits(mask, n, bits);
        assert Bit(index, r) == Bit(v.Index(field, n), r);
      }
    }
    Pow2Monotonic(|bits|, 16);
    forall i: nat | i < 16
      ensures Bit(index, i) == Bit(v.Index(key, n), i)
    {
      if i >= |bits| { assert i !in OpenBits(mask, n, bits); }
    }
    SameBits(index, v.Index(key, n), 16);
  }

  /** With every listed offset in the window, a rule is filed exactly under the indices of
      the keys that agree with it. */
  lemma FiledIff(index: nat, field: Field, mask: Field, v: Vector, n: nat)
    requires v.Valid(n) && v.Chosen(n) == v.vectorBits && field.Valid(n)
    ensures Filed(index, field, mask, v, n)
       <==> exists key: Field :: key.Valid(n) && Agrees(key, field, mask, n) && v.Index(key, n) == index
  {
    if Filed(index, field, mask, v, n) {
      var key := IndexOfSomeKey(index, field, mask, v, n);
    }
    forall key: Field | key.Valid(n) && Agrees(key, field, mask, n)
      ensures Filed(v.Index(key, n), field, mask, v, n)
    {
      FiledWhenPrefix(key, field, mask, v, n);
    }
  }

  // ----- Filing and looking up -----

  datatype Rule<P> = Rule(field: Field, mask: Field, policy: P) {
    predicate Valid(n: nat) { field.Valid(n) && mask.Valid(n) }

    /** The test of the lookup: field & mask of the key equals the field of the rule. */
    predicate Matches(key: Field, n: nat)
      requires Valid(n) && key.Valid(n)
    {
      BitAnd(key, mask, n) == field
    }
  }

  ghost predicate AllValid<P>(rules: seq<Rule<P>>, n: nat)
  {
    forall k :: 0 <= k < |rules| ==> rules[k].Valid(n)
  }

  /** The rules filed under index, in order. */
  ghost function Bucket<P>(rules: seq<Rule<P>>, index: nat, v: Vector, n: nat): seq<Rule<P>>
  {
    if rules == [] then []
    else
      var last := rules[|rules| - 1];
      Bucket(rules[..|rules| - 1], index, v, n)
      + (if Filed(index, last.field, last.mask, v, n) then [last] else [])
  }

  /** The rules that match key, in order. */
  function Matching<P>(rules: seq<Rule<P>>, key: Field, n: nat): seq<Rule<P>>
    requires AllValid(rules, n) && key.Valid(n)
  {
    if rules == [] then []
    else
      var last := rules[|rules| - 1];
      Matching(rules[..|rules| - 1], key, n) + (if last.Matches(key, n) then [last] else [])
  }

  ghost predicate Holds<P>(table: seq<seq<Rule<P>>>, rules: seq<Rule<P>>, v: Vector, n: nat)
  {
    |table| == 65536 && forall index :: 0 <= index < |table| ==> table[index] == Bucket(rules, index, v, n)
  }

  /** generate_table4 and generate_table6 over the rules of all ACLs, in order. */
  method GenerateTable<P>(rules: seq<Rule<P>>, v: Vector, n: nat) returns (table: seq<seq<Rule<P>>>)
    requires v.Valid(n) && AllValid(rules, n)
    ensures Holds(table, rules, v, n)
  {
    hide Bucket, Filed, NoIndices, OpenBits, Enumerates, Holds, OnesOf;
    var buckets := new seq<Rule<P>>[65536](_ => []);
    EmptyTable(buckets[..], rules, v, n);
    for k := 0 to |rules|
      invariant Holds(buckets[..], rules[..k], v, n)
    {
      var rule := rules[k];
      var all := GetAllTableIndex(rule.field, v.mask, rule.mask, n, v.minBit, v.maxBit, v.vectorBits);
      IndicesOf(rule, v, n);
      assert all.Some?;
      var indices := all.value;
      EnumeratesOnce(indices, v.Index(rule.field, n), OpenBits(rule.mask, n, v.vectorBits));
      ghost var before := buckets[..];
      for i := 0 to |indices|
        invariant forall j :: 0 <= j < 65536 ==> buckets[j] == before[j] + (if j in indices[..i] then [rule] else [])
      {
        buckets[indices[i]] := buckets[indices[i]] + [rule];
      }
      assert indices[..|indices|] == indices;
      FileOne(before, buckets[..], rules, k, indices, v, n);
    }
    assert rules[..|rules|] == rules;
    table := buckets[..];
  }

  lemma EmptyTable<P>(table: seq<seq<Rule<P>>>, rules: seq<Rule<P>>, v: Vector, n: nat)
    requires |table| == 65536 && forall j :: 0 <= j < 65536 ==> table[j] == []
    ensures Holds(table, rules[..0], v, n)
  {
  }

  /** The indices of a rule are there, and are those it is filed under. */
  lemma IndicesOf<P>(rule: Rule<P>, v: Vector, n: nat)
    requires v.Valid(n) && rule.Valid(n)
    ensures !NoIndices(rule.field, v.mask, rule.mask, n, v.minBit, v.maxBit, v.vectorBits)
    ensures FirstSixteen(OnesOf(v.mask, n, v.minBit, v.maxBit + 1)) == v.Chosen(n)
  {
  }

  lemma EnumeratesOnce(indices: seq<nat>, index: nat, free: set<nat>)
    requires Enumerates(indices, index, free, 16)
    ensures forall i :: 0 <= i < |indices| ==> indices[i] < 65536 && indices[i] !in indices[..i]
  {
    SixteenBits();
    assert forall i :: 0 <= i < |indices| ==> indices[i] in indices;
  }

  lemma FileOne<P>(before: seq<seq<Rule<P>>>, after: seq<seq<Rule<P>>>, rules: seq<Rule<P>>, k: nat,
                   indices: seq<nat>, v: Vector, n: nat)
    requires k < |rules| && Holds(before, rules[..k], v, n) && |after| == 65536
    requires Enumerates(indices, v.Index(rules[k].field, n), OpenBits(rules[k].mask, n, v.vectorBits), 16)
    requires forall j :: 0 <= j < 65536 ==> after[j] == before[j] + (if j in indices then [rules[k]] else [])
    ensures Holds(after, rules[..k + 1], v, n)
  {
    forall j | 0 <= j < 65536
      ensures after[j] == Bucket(rules[..k + 1], j, v, n)
    {
      assert rules[..k + 1][..k] == rules[..k];
      assert before[j] == Bucket(rules[..k], j, v, n);
      assert j in indices <==> Filed(j, rules[k].field, rules[k].mask, v, n);
    }
  }

  lemma IndexInTable(key: Field, v: Vector, n: nat)
    requires v.Valid(n)
    ensures v.Index(key, n) < 65536
  {
    GatheredBits(key, n, v.Chosen(n));
    Pow2Monotonic(|v.Chosen(n)|, 16);
    SixteenBits();
  }

  /** get_policy_from_table4 and get_policy_from_table6: the rules whose actions are merged. */
  method Lookup<P>(table: seq<seq<Rule<P>>>, key: Field, v: Vector, n: nat) returns (found: seq<Rule<P>>)
    requires v.Valid(n) && key.Valid(n) && |table| == 65536
    requires forall index :: 0 <= index < |table| ==> AllValid(table[index], n)
    ensures v.Index(key, n) < |table| && found == Matching(table[v.Index(key, n)], key, n)
  {
    var index := GetTableIndex(key, v.mask, n, v.minBit, v.maxBit);
    IndexInTable(key, v, n);
    assert index.Some?;
    found := ScanBucket(table[index.value], key, n);
  }

  method ScanBucket<P>(bucket: seq<Rule<P>>, key: Field, n: nat) returns (found: seq<Rule<P>>)
    requires AllValid(bucket, n) && key.Valid(n)
    ensures found == Matching(bucket, key, n)
  {
    found := [];
    for i := 0 to |bucket|
      invariant found == Matching(bucket[..i], key, n)
    {
      assert bucket[..i + 1][..i] == bucket[..i];
      if bucket[i].Matches(key, n) { found := found + [bucket[i]]; }
    }
    assert bucket[..|bucket|] == bucket;
  }

  lemma MatchesAgrees<P>(rule: Rule<P>, key: Field, n: nat)
    requires rule.Valid(n) && key.Valid(n) && rule.Matches(key, n)
    ensures Agrees(key, rule.field, rule.mask, n)
  {
    forall o: nat
      ensures One(rule.mask, n, o) ==> One(key, n, o) == One(rule.field, n, o)
    {
      AndBit(key, rule.mask, n, o);
    }
  }

  lemma {:induction false} BucketValid<P>(rules: seq<Rule<P>>, index: nat, v: Vector, n: nat)
    requires AllValid(rules, n)
    ensures AllValid(Bucket(rules, index, v, n), n)
  {
    if rules != [] { BucketValid(rules[..|rules| - 1], index, v, n); }
  }

  /** Every rule that matches key is filed under the index of key. */
  ghost predicate Reaches<P>(rules: seq<Rule<P>>, key: Field, v: Vector, n: nat)
    requires AllValid(rules, n) && key.Valid(n)
  {
    forall k :: 0 <= k < |rules| && rules[k].Matches(key, n) ==>
      Filed(v.Index(key, n), rules[k].field, rules[k].mask, v, n)
  }

  /** Then the bucket of key holds exactly the rules that match, in order. */
  lemma {:induction false} LookupIsMatching<P>(rules: seq<Rule<P>>, key: Field, v: Vector, n: nat)
    requires v.Valid(n) && AllValid(rules, n) && key.Valid(n) && Reaches(rules, key, v, n)
    ensures AllValid(Bucket(rules, v.Index(key, n), v, n), n)
    ensures Matching(Bucket(rules, v.Index(key, n), v, n), key, n) == Matching(rules, key, n)
  {
    hide Filed, Field.Valid, Rule.Matches;
    BucketValid(rules, v.Index(key, n), v, n);
    if rules != [] {
      var front, last := rules[..|rules| - 1], rules[|rules| - 1];
      var bucket := Bucket(front, v.Index(key, n), v, n);
      LookupIsMatching(front, key, v, n);
      assert (bucket + [last])[..|bucket|] == bucket;
      assert bucket + [] == bucket;
    }
  }
}
