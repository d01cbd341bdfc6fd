/** When the table finds the rules that are in it: rule by rule, and all of them. */
module RuleIndex {
  import opened Powers
  import opened MatchedFields
  import opened PolicyTable
  import opened MaskBits

  // ----- One rule -----

  /** Where an index tells keys apart, the rule asks about the bit in question or is filed under both. */
  predicate KeepsAt(mask: Field, v: Vector, n: nat, r: nat)
    requires r < |v.Chosen(n)|
  {
    One(mask, n, v.Chosen(n)[r]) || (r < |v.vectorBits| && !One(mask, n, v.vectorBits[r]))
  }

  ghost predicate Keeps(mask: Field, v: Vector, n: nat)
  {
    forall r: nat :: r < |v.Chosen(n)| ==> KeepsAt(mask, v, n, r)
  }

  /** The rule is filed under the index of every key that it matches. */
  ghost predicate NeverMissed<P>(rule: Rule<P>, v: Vector, n: nat)
    requires rule.Valid(n)
  {
    forall key: Field :: key.Valid(n) && rule.Matches(key, n) ==> Filed(v.Index(key, n), rule.field, rule.mask, v, n)
  }

  lemma FiledWhenKept(key: Field, field: Field, mask: Field, v: Vector, n: nat)
    requires v.Valid(n) && Keeps(mask, v, n) && Agrees(key, field, mask, n)
    ensures Filed(v.Index(key, n), field, mask, v, n)
  {
    hide OnesOf, Pow2, Bit, One;
    var bits := v.Chosen(n);
    GatheredBits(key, n, bits);
    GatheredBits(field, n, bits);
    Pow2Monotonic(|bits|, 16);
    forall r: nat | r < 16 && r !in OpenBits(mask, n, v.vectorBits)
      ensures Bit(v.Index(key, n), r) == Bit(v.Index(field, n), r)
    {
      if r < |bits| { assert KeepsAt(mask, v, n, r); }
    }
  }

  /** A bit that the mask does not ask about can be set in a key without the rule noticing. */
  lemma OtherBitMatches<P>(rule: Rule<P>, n: nat, o: nat)
    requires rule.Valid(n) && rule.Matches(rule.field, n) && o < BitSize(n) && !One(rule.mask, n, o)
    ensures !One(rule.field, n, o) && rule.Matches(WithBit(rule.field, n, o, true), n)
  {
    var key := WithBit(rule.field, n, o, true);
    forall q: nat | q < BitSize(n)
      ensures One(rule.field, n, q) ==> One(rule.mask, n, q)
      ensures One(BitAnd(key, rule.mask, n), n, q) == One(rule.field, n, q)
    {
      AndBit(rule.field, rule.mask, n, q);
      AndBit(key, rule.mask, n, q);
      OneOfWithBit(rule.field, n, o, true, q);
    }
    SameFields(BitAnd(key, rule.mask, n), rule.field, n);
  }

  lemma NotFiled(key: Field, field: Field, mask: Field, v: Vector, n: nat, r: nat)
    requires v.Valid(n) && r < |v.Chosen(n)| && (r < |v.vectorBits| ==> One(mask, n, v.vectorBits[r]))
    requires One(key, n, v.Chosen(n)[r]) && !One(field, n, v.Chosen(n)[r])
    ensures !Filed(v.Index(key, n), field, mask, v, n)
  {
    var bits := v.Chosen(n);
    GatheredBits(key, n, bits);
    GatheredBits(field, n, bits);
    assert r !in OpenBits(mask, n, v.vectorBits);
    assert Bit(v.Index(key, n), r) && !Bit(v.Index(field, n), r);
  }

  /** The field of the rule with one bit set that the rule does not ask about. */
  lemma MissedUnlessKept<P>(rule: Rule<P>, v: Vector, n: nat, r: nat) returns (key: Field)
    requires rule.Valid(n) && rule.Matches(rule.field, n) && v.Valid(n)
    requires r < |v.Chosen(n)| && !KeepsAt(rule.mask, v, n, r)
    ensures key.Valid(n) && rule.Matches(key, n) && !Filed(v.Index(key, n), rule.field, rule.mask, v, n)
  {
    hide One, OnesOf, Filed, Rule.Matches;
    var o := v.Chosen(n)[r];
    OnesOfAre(v.mask, n, v.minBit, v.maxBit + 1);
    assert o in v.Chosen(n);
    key := WithBit(rule.field, n, o, true);
    OtherBitMatches(rule, n, o);
    OneOfWithBit(rule.field, n, o, true, o);
    NotFiled(key, rule.field, rule.mask, v, n, r);
  }

  /** A rule that matches its own field is never missed iff, at each bit of an index, it asks about that
      bit or leaves the listed bit in its place open. */
  lemma NeverMissedIff<P>(rule: Rule<P>, v: Vector, n: nat)
    requires rule.Valid(n) && rule.Matches(rule.field, n) && v.Valid(n)
    ensures NeverMissed(rule, v, n) <==> Keeps(rule.mask, v, n)
  {
    hide KeepsAt, Filed, Rule.Matches;
    if Keeps(rule.mask, v, n) {
      forall key: Field | key.Valid(n) && rule.Matches(key, n)
        ensures Filed(v.Index(key, n), rule.field, rule.mask, v, n)
      {
        MatchesAgrees(rule, key, n);
        FiledWhenKept(key, rule.field, rule.mask, v, n);
      }
    } else {
      var r: nat :| r < |v.Chosen(n)| && !KeepsAt(rule.mask, v, n, r);
      var key := MissedUnlessKept(rule, v, n, r);
    }
  }

  // ----- A table of rules -----

  ghost predicate AllKept<P>(rules: seq<Rule<P>>, v: Vector, n: nat)
  {
    forall k :: 0 <= k < |rules| ==> Keeps(rules[k].mask, v, n)
  }

  ghost predicate AllMatchThemselves<P>(rules: seq<Rule<P>>, n: nat)
    requires AllValid(rules, n)
  {
    forall k :: 0 <= k < |rules| ==> rules[k].Matches(rules[k].field, n)
  }

  /** What the bucket of key yields. */
  ghost function InBucket<P>(rules: seq<Rule<P>>, key: Field, v: Vector, n: nat): seq<Rule<P>>
    requires AllValid(rules, n) && key.Valid(n)
  {
    BucketValid(rules, v.Index(key, n), v, n);
    Matching(Bucket(rules, v.Index(key, n), v, n), key, n)
  }

  lemma KeptReaches<P>(rules: seq<Rule<P>>, key: Field, v: Vector, n: nat)
    requires AllValid(rules, n) && key.Valid(n) && v.Valid(n) && AllKept(rules, v, n)
    ensures InBucket(rules, key, v, n) == Matching(rules, key, n)
  {
    hide Keeps, Filed, Rule.Matches;
    forall k | 0 <= k < |rules| && rules[k].Matches(key, n)
      ensures Filed(v.Index(key, n), rules[k].field, rules[k].mask, v, n)
    {
      MatchesAgrees(rules[k], key, n);
      FiledWhenKept(key, rules[k].field, rules[k].mask, v, n);
    }
    LookupIsMatching(rules, key, v, n);
  }

  /** A bucket yields no more than a scan of all rules, and less if it lacks a rule that matches. */
  lemma {:induction false} BucketYieldsLess<P>(rules: seq<Rule<P>>, key: Field, v: Vector, n: nat)
    requires AllValid(rules, n) && key.Valid(n)
    ensures |InBucket(rules, key, v, n)| <= |Matching(rules, key, n)|
    ensures !Reaches(rules, key, v, n) ==> |InBucket(rules, key, v, n)| < |Matching(rules, key, n)|
  {
    hide Filed, Field.Valid, Rule.Matches;
    if rules != [] {
      var front, last := rules[..|rules| - 1], rules[|rules| - 1];
      var bucket := Bucket(front, v.Index(key, n), v, n);
      BucketYieldsLess(front, key, v, n);
      assert (bucket + [last])[..|bucket|] == bucket;
      assert bucket + [] == bucket;
      assert rules == front + [last];
    }
  }

  /** Looking up yields what a scan of all rules would, for every key, iff every rule is kept. */
  lemma LookupRightIff<P>(rules: seq<Rule<P>>, v: Vector, n: nat)
    requires AllValid(rules, n) && AllMatchThemselves(rules, n) && v.Valid(n)
    ensures (forall key: Field :: key.Valid(n) ==> |InBucket(rules, key, v, n)| == |Matching(rules, key, n)|)
       <==> AllKept(rules, v, n)
  {
    hide Keeps, InBucket, Matching, Rule.Matches;
    if AllKept(rules, v, n) {
      forall key: Field | key.Valid(n)
        ensures |InBucket(rules, key, v, n)| == |Matching(rules, key, n)|
      {
        KeptReaches(rules, key, v, n);
      }
    } else {
      var k :| 0 <= k < |rules| && !Keeps(rules[k].mask, v, n);
      NeverMissedIff(rules[k], v, n);
      var key: Field :| key.Valid(n) && rules[k].Matches(key, n)
        && !Filed(v.Index(key, n), rules[k].field, rules[k].mask, v, n);
      BucketYieldsLess(rules, key, v, n);
    }
  }
}
