/** The first path of the policy: ACLs in, policies of keys out. */
module FirstPath {
  import opened Numbers
  import opened Wrappers
  import opened MatchedFields
  import opened PortLists
  import opened PolicyTable
  import opened AclCompiler
  import opened RuleIndex
  import opened CompiledIndex
  import opened VectorInit

  // ----- Compiling all ACLs -----

  /** An ACL as it is compiled: an end without groups stands for every address. */
  function Grouped<P>(acl: Acl<P>): Acl<P>
  {
    acl.(srcIps := OrAny(acl.srcIps), dstIps := OrAny(acl.dstIps))
  }

  lemma GroupedValid<P>(acl: Acl<P>)
    requires acl.Valid()
    ensures Grouped(acl).Valid()
  {
    NoGroupCountsOnce(4, Zeros(4), 0);
  }

  ghost predicate Overflow<P>(acls: seq<Acl<P>>)
  {
    exists k :: 0 <= k < |acls| && (Overflows(acls[k].srcPorts) || Overflows(acls[k].dstPorts))
  }

  /** How often an end with these networks holds an address: once if it has none. */
  function EndTimes(ips: seq<Network>, n: nat, ip: seq<Byte>, epc: u16): nat
  {
    if ips == [] then 1 else NetworksWith(ips, n, ip, epc)
  }

  /** Compiled with the networks used, an end holds each address as often as with its own. */
  ghost predicate SameEnd(ips: seq<Network>, used: seq<Network>)
  {
    && (ips != [] ==> used == ips)
    && forall n: nat, ip: seq<Byte>, epc: u16 :: (n == 4 || n == 16) && |ip| == n ==>
         NetworksWith(used, n, ip, epc) == EndTimes(ips, n, ip, epc)
  }

  lemma OrAnySame(ips: seq<Network>)
    ensures SameEnd(ips, OrAny(ips))
  {
    forall n: nat, ip: seq<Byte>, epc: u16 | (n == 4 || n == 16) && |ip| == n
      ensures NetworksWith(OrAny(ips), n, ip, epc) == EndTimes(ips, n, ip, epc)
    {
      NoGroupCountsOnce(n, ip, epc);
    }
  }

  /** An ACL is compiled as it is, but for the networks of its ends. */
  ghost predicate SameAcl<P>(acl: Acl<P>, used: Acl<P>)
  {
    && used == acl.(srcIps := used.srcIps, dstIps := used.dstIps)
    && SameEnd(acl.srcIps, used.srcIps) && SameEnd(acl.dstIps, used.dstIps)
  }

  /** The segmented ACLs are those of the list, in order. */
  ghost predicate Compiles<P>(acls: seq<Acl<P>>, segmented: seq<Segmented<P>>)
  {
    && AllSegmented(segmented) && |segmented| == |acls|
    && forall k :: 0 <= k < |acls| ==> SameAcl(acls[k], segmented[k].acl)
  }

  lemma AllRulesStep<P>(segmented: seq<Segmented<P>>, a: Segmented<P>, n: nat)
    requires AllSegmented(segmented) && a.Valid()
    ensures AllSegmented(segmented + [a])
    ensures AllRules(segmented + [a], n) == AllRules(segmented, n) + a.Rules(n, a.acl.srcIps)
  {
    assert (segmented + [a])[..|segmented|] == segmented;
  }

  lemma NoRules<P>(n: nat)
    ensures AllRules<P>([], n) == []
  {
  }

  /** generate_acl_bits: the rules of all ACLs for either version; None where reading a port list overflows. */
  method GenerateAclBits<P>(acls: seq<Acl<P>>)
    returns (ok: bool, rules4: seq<Rule<P>>, rules6: seq<Rule<P>>, ghost segmented: seq<Segmented<P>>)
    requires forall k :: 0 <= k < |acls| ==> acls[k].Valid()
    ensures ok <==> !Overflow(acls)
    ensures ok ==> Compiles(acls, segmented) && rules4 == AllRules(segmented, 4) && rules6 == AllRules(segmented, 16)
  {
    hide Segmented.Valid, Segmented.Rules, Overflows, AllRules, Acl.Valid, OrAny, SameEnd;
    rules4, rules6, segmented := [], [], [];
    NoRules<P>(4);
    NoRules<P>(16);
    for i := 0 to |acls|
      invariant Compiles(acls[..i], segmented) && !Overflow(acls[..i])
      invariant rules4 == AllRules(segmented, 4) && rules6 == AllRules(segmented, 16)
    {
      GroupedValid(acls[i]);
      OrAnySame(acls[i].srcIps);
      OrAnySame(acls[i].dstIps);
      var r := GenerateMatch(Grouped(acls[i]));
      if r.None? { return false, [], [], []; }
      AllRulesStep(segmented, r.value.a, 4);
      AllRulesStep(segmented, r.value.a, 16);
      rules4, rules6 := rules4 + r.value.fields4, rules6 + r.value.fields6;
      segmented := segmented + [r.value.a];
    }
    assert acls[..|acls|] == acls;
    ok := true;
  }

  // ----- The object -----

  /** A vector and a table that hold the rules. */
  ghost predicate Filing<P>(table: seq<seq<Rule<P>>>, v: Vector, segmented: seq<Segmented<P>>, n: nat)
    requires AllSegmented(segmented)
  {
    v.Valid(n) && PolicyTable.Holds(table, AllRules(segmented, n), v, n)
  }

  class FirstPath<P> {
    var vector4: Vector
    var table4: seq<seq<Rule<P>>>
    var vector6: Vector
    var table6: seq<seq<Rule<P>>>
    /** The ACLs that the tables hold. */
    ghost var segmented: seq<Segmented<P>>

    ghost predicate Valid()
      reads this
    {
      AllSegmented(segmented) && Filing(table4, vector4, segmented, 4) && Filing(table6, vector6, segmented, 16)
    }

    constructor ()
      ensures Valid() && segmented == []
    {
      vector4, vector6 := NoVector(4), NoVector(16);
      table4, table6 := seq(65536, _ => []), seq(65536, _ => []);
      segmented := [];
      new;
      NoVectorValid(4);
      NoVectorValid(16);
    }

    /** generate_first_table; false where reading a port list overflows, and then nothing is changed. */
    method GenerateFirstTable(acls: seq<Acl<P>>) returns (ok: bool)
      requires Valid() && forall k :: 0 <= k < |acls| ==> acls[k].Valid()
      modifies this
      ensures Valid() && (ok <==> !Overflow(acls)) && (!ok ==> unchanged(this))
      ensures ok ==> Compiles(acls, segmented)
      ensures ok ==> BuiltOn(vector4, AllRules(segmented, 4), 4) && BuiltOn(vector6, AllRules(segmented, 16), 16)
    {
      hide PolicyTable.Holds, BuiltOn, Compiles;
      var rules4, rules6;
      ghost var all;
      ok, rules4, rules6, all := GenerateAclBits(acls);
      if !ok { return; }
      assert AllSegmented(all) by { CompilesSegmented(acls, all); }
      var v4 := Init(rules4, 4);
      var v6 := Init(rules6, 16);
      BuiltValid(v4, rules4, 4);
      BuiltValid(v6, rules6, 16);
      var t4 := GenerateTable(rules4, v4, 4);
      var t6 := GenerateTable(rules6, v6, 16);
      vector4, table4, vector6, table6, segmented := v4, t4, v6, t6, all;
    }

    /** get_policy_from_table: what the forward and the backward field of a key bring up. */
    method GetPolicyFromTable(key: LookupKey) returns (forward: seq<P>, backward: seq<P>)
      requires Valid() && (key.Valid(4) || key.Valid(16))
      ensures forward == BroughtUp(segmented, |key.srcIp|, key, if key.Valid(4) then vector4 else vector6)
      ensures backward == BroughtUp(segmented, |key.srcIp|, key.Reversed(), if key.Valid(4) then vector4 else vector6)
    {
      hide PolicyTable.Holds, Vector.Valid;
      if key.Valid(4) {
        forward := PoliciesOf(table4, vector4, key, 4, segmented);
        backward := PoliciesOf(table4, vector4, key.Reversed(), 4, segmented);
      } else {
        forward := PoliciesOf(table6, vector6, key, 16, segmented);
        backward := PoliciesOf(table6, vector6, key.Reversed(), 16, segmented);
      }
    }
  }

  /** The vector before any ACL has come. */
  function NoVector(n: nat): Vector { Vector(Field(Zeros(n), Zeros(n), Zeros(OTHERS)), 0, 0, []) }

  lemma NoVectorValid(n: nat)
    ensures NoVector(n).Valid(n)
  {
  }

  lemma CompilesSegmented<P>(acls: seq<Acl<P>>, segmented: seq<Segmented<P>>)
    requires Compiles(acls, segmented)
    ensures AllSegmented(segmented)
  {
  }

  lemma BuiltValid<P>(v: Vector, rules: seq<Rule<P>>, n: nat)
    requires BuiltOn(v, rules, n)
    ensures v.Valid(n)
  {
    ChosenOfBuilt(v, n, VECTOR_SIZE);
  }

  /** The policies of the rules found for one field. */
  method PoliciesOf<P>(table: seq<seq<Rule<P>>>, v: Vector, key: LookupKey, n: nat, ghost segmented: seq<Segmented<P>>)
    returns (policies: seq<P>)
    requires AllSegmented(segmented) && key.Valid(n) && Filing(table, v, segmented, n)
    ensures policies == BroughtUp(segmented, n, key, v)
  {
    hide KeyField, AllRules, Bucket;
    forall index | 0 <= index < |table|
      ensures AllValid(table[index], n)
    {
      BucketValid(AllRules(segmented, n), index, v, n);
    }
    var found := Lookup(table, KeyField(key, n), v, n);
    policies := Policies(found);
  }

  // ----- Whole runs -----

  /** How often an ACL asks for its policy for a key: once for each choice of a network and a range of the port
      list on each side that hold the key's; an end without networks holds every address. */
  function AsksFor<P>(acl: Acl<P>, n: nat, key: LookupKey): nat
  {
    if acl.head.Matches(key)
    then TimesOver(EndTimes(acl.srcIps, n, key.srcIp, key.srcEpc),
                   TimesOver(EndTimes(acl.dstIps, n, key.dstIp, key.dstEpc),
                             TimesOver(PortTimes(acl.srcPorts, key.srcPort), PortTimes(acl.dstPorts, key.dstPort))))
    else 0
  }

  lemma TimesAsAsked<P>(acl: Acl<P>, used: Acl<P>, n: nat, key: LookupKey)
    requires SameAcl(acl, used) && (n == 4 || n == 16) && key.Valid(n)
    ensures Times(used, n, key) == AsksFor(acl, n, key)
  {
    hide TimesOver, EndTimes, NetworksWith, PortTimes;
  }

  /** What the ACLs ask for: the policies of those that admit the key, each as often as it does. */
  function Asked<P>(acls: seq<Acl<P>>, n: nat, key: LookupKey): seq<P>
  {
    if acls == [] then []
    else
      var last := acls[|acls| - 1];
      Asked(acls[..|acls| - 1], n, key) + Copies(last.policy, AsksFor(last, n, key))
  }

  lemma SamePolicy<P>(acl: Acl<P>, used: Acl<P>)
    requires SameAcl(acl, used)
    ensures used.policy == acl.policy
  {
  }

  lemma {:induction false} MeaningIsAsked<P>(acls: seq<Acl<P>>, segmented: seq<Segmented<P>>, n: nat, key: LookupKey)
    requires Compiles(acls, segmented) && (n == 4 || n == 16) && key.Valid(n)
    ensures Meaning(segmented, n, key) == Asked(acls, n, key)
  {
    hide Times, AsksFor, Segmented.Valid, SameAcl, LookupKey.Valid;
    if acls != [] {
      var last := |acls| - 1;
      MeaningIsAsked(acls[..last], segmented[..last], n, key);
      assert SameAcl(acls[last], segmented[last].acl);
      TimesAsAsked(acls[last], segmented[last].acl, n, key);
      assert segmented[last].acl.policy == acls[last].policy by { SamePolicy(acls[last], segmented[last].acl); }
    }
  }

  /** The answers for a key are those the ACLs ask for, in both directions. */
  ghost predicate Right<P>(acls: seq<Acl<P>>, key: LookupKey, forward: seq<P>, backward: seq<P>)
  {
    forward == Asked(acls, |key.srcIp|, key) && backward == Asked(acls, |key.srcIp|, key.Reversed())
  }

  ghost predicate AllRight<P>(acls: seq<Acl<P>>, keys: seq<LookupKey>, answers: seq<(seq<P>, seq<P>)>, n: nat)
  {
    && |answers| <= |keys|
    && forall k :: 0 <= k < |answers| && keys[k].Valid(n) ==> Right(acls, keys[k], answers[k].0, answers[k].1)
  }

  lemma OneMoreRight<P>(acls: seq<Acl<P>>, keys: seq<LookupKey>, answers: seq<(seq<P>, seq<P>)>, n: nat,
                        answer: (seq<P>, seq<P>))
    requires AllRight(acls, keys, answers, n) && |answers| < |keys|
    requires keys[|answers|].Valid(n) ==> Right(acls, keys[|answers|], answer.0, answer.1)
    ensures AllRight(acls, keys, answers + [answer], n)
  {
    hide Right;
  }

  /** All rules of the ACLs for addresses of n bytes are kept. */
  ghost predicate KeepsRules<P>(segmented: seq<Segmented<P>>, v: Vector, n: nat)
    requires AllSegmented(segmented)
  {
    AllKept(AllRules(segmented, n), v, n)
  }

  /** ACLs in, keys looked up: None where reading a port list overflows. Else, if the vector built on the
      rules of a version keeps them all, every key of that version gets what the ACLs ask for. */
  method Run<P>(acls: seq<Acl<P>>, keys: seq<LookupKey>)
    returns (r: Option<seq<(seq<P>, seq<P>)>>, ghost v4: Vector, ghost v6: Vector, ghost segmented: seq<Segmented<P>>)
    requires forall k :: 0 <= k < |acls| ==> acls[k].Valid()
    requires forall k :: 0 <= k < |keys| ==> keys[k].Valid(4) || keys[k].Valid(16)
    ensures r.None? <==> Overflow(acls)
    ensures r.Some? ==> Compiles(acls, segmented) && |r.value| == |keys|
    ensures r.Some? ==> BuiltOn(v4, AllRules(segmented, 4), 4) && BuiltOn(v6, AllRules(segmented, 16), 16)
    ensures r.Some? && KeepsRules(segmented, v4, 4) ==> AllRight(acls, keys, r.value, 4)
    ensures r.Some? && KeepsRules(segmented, v6, 16) ==> AllRight(acls, keys, r.value, 16)
  {
    hide KeepsRules, BuiltOn, AllRight, Right, BroughtUp, Overflow, Segmented.Valid, AllRules;
    var first := new FirstPath<P>();
    var ok := first.GenerateFirstTable(acls);
    v4, v6, segmented := first.vector4, first.vector6, first.segmented;
    if !ok { return None, v4, v6, segmented; }
    var answers: seq<(seq<P>, seq<P>)> := [];
    NoneWrong(acls, keys);
    for i := 0 to |keys|
      invariant first.Valid() && |answers| == i
      invariant first.vector4 == v4 && first.vector6 == v6 && first.segmented == segmented
      invariant KeepsRules(segmented, v4, 4) ==> AllRight(acls, keys, answers, 4)
      invariant KeepsRules(segmented, v6, 16) ==> AllRight(acls, keys, answers, 16)
    {
      var forward, backward := first.GetPolicyFromTable(keys[i]);
      if keys[i].Valid(4) {
        RightWhenKept(acls, segmented, 4, keys[i], v4);
      } else {
        RightWhenKept(acls, segmented, 16, keys[i], v6);
      }
      if KeepsRules(segmented, v4, 4) { OneMoreRight(acls, keys, answers, 4, (forward, backward)); }
      if KeepsRules(segmented, v6, 16) { OneMoreRight(acls, keys, answers, 16, (forward, backward)); }
      answers := answers + [(forward, backward)];
    }
    return Some(answers), v4, v6, segmented;
  }

  lemma NoneWrong<P>(acls: seq<Acl<P>>, keys: seq<LookupKey>)
    ensures AllRight(acls, keys, [], 4) && AllRight(acls, keys, [], 16)
  {
  }

  lemma RightWhenKept<P>(acls: seq<Acl<P>>, segmented: seq<Segmented<P>>, n: nat, key: LookupKey, v: Vector)
    requires Compiles(acls, segmented) && (n == 4 || n == 16) && key.Valid(n) && v.Valid(n)
    ensures KeepsRules(segmented, v, n) ==>
      Right(acls, key, BroughtUp(segmented, n, key, v), BroughtUp(segmented, n, key.Reversed(), v))
  {
    hide BroughtUp, Meaning, Segmented.Valid;
    if KeepsRules(segmented, v, n) {
      BroughtUpWhenKept(segmented, n, key, v);
      BroughtUpWhenKept(segmented, n, key.Reversed(), v);
      MeaningIsAsked(acls, segmented, n, key);
      MeaningIsAsked(acls, segmented, n, key.Reversed());
    }
  }
}
