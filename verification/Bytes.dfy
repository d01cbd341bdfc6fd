/** Numbers as strings of bytes, and what "and" does to them byte by byte. */
module Bytes {
  import opened Numbers
  import opened Powers
  import opened BitSets
  import opened MatchedFields

  /** a shifted left by k, with b in the k bits that come free. */
  function Join(a: nat, b: nat, k: nat): nat
  {
    if k == 0 then a else 2 * Join(a, b / 2, k - 1) + b % 2
  }

  lemma JoinByte(a: nat, b: nat)
    requires b < 256
    ensures Join(a, b, 8) == 256 * a + b
  {
    JoinHalf(a, b);
    JoinHalf(a, b / 16);
    var c := b / 16;
    assert Join(a, b, 8) == 16 * Join(a, c, 4) + b % 16;
    assert Join(a, c, 4) == 16 * a + c by { JoinNibble(a, c); }
  }

  lemma JoinHalf(a: nat, b: nat)
    ensures Join(a, b, 8) == 16 * Join(a, b / 16, 4) + b % 16
  {
    var b1, b2, b3, b4 := b / 2, b / 4, b / 8, b / 16;
    assert b1 / 2 == b2 && b2 / 2 == b3 && b3 / 2 == b4;
    assert Join(a, b, 8) == 2 * Join(a, b1, 7) + b % 2;
    assert Join(a, b1, 7) == 2 * Join(a, b2, 6) + b1 % 2;
    assert Join(a, b2, 6) == 2 * Join(a, b3, 5) + b2 % 2;
    assert Join(a, b3, 5) == 2 * Join(a, b4, 4) + b3 % 2;
  }

  lemma JoinNibble(a: nat, b: nat)
    requires b < 16
    ensures Join(a, b, 4) == 16 * a + b
  {
    assert Join(a, b, 4) == 2 * Join(a, b / 2, 3) + b % 2;
    assert Join(a, b / 2, 3) == 2 * Join(a, b / 2 / 2, 2) + b / 2 % 2;
    assert Join(a, b / 2 / 2, 2) == 2 * Join(a, b / 2 / 2 / 2, 1) + b / 2 / 2 % 2;
    assert Join(a, b / 2 / 2 / 2, 1) == 2 * a + b / 2 / 2 / 2 % 2;
  }

  lemma {:induction false} AndJoin(a: nat, b: nat, c: nat, d: nat, k: nat)
    ensures And(Join(a, b, k), Join(c, d, k)) == Join(And(a, c), And(b, d), k)
    decreases k
  {
    if k > 0 {
      AndJoin(a, b / 2, c, d / 2, k - 1);
      AndStep(Join(a, b, k), Join(c, d, k));
      AndStep(b, d);
      assert Join(a, b, k) / 2 == Join(a, b / 2, k - 1) && Join(c, d, k) / 2 == Join(c, d / 2, k - 1);
      assert And(b, d) / 2 == And(b / 2, d / 2);
    }
  }

  lemma AndAppendByte(a: nat, b: nat, c: nat, d: nat)
    requires b < 256 && d < 256
    ensures And(b, d) < 256 && And(256 * a + b, 256 * c + d) == 256 * And(a, c) + And(b, d)
  {
    JoinByte(a, b);
    JoinByte(c, d);
    AndJoin(a, b, c, d, 8);
    AndBound(b, d);
    JoinByte(And(a, c), And(b, d));
  }

  /** Anding two-byte numbers is anding their bytes. */
  lemma AndTwoBytes(x: nat, m: nat, p: nat)
    ensures And(x, m) == p <==> And(x % 256, m % 256) == p % 256 && And(x / 256, m / 256) == p / 256
  {
    hide And;
    AndAppendByte(x / 256, x % 256, m / 256, m % 256);
    assert x == 256 * (x / 256) + x % 256 && m == 256 * (m / 256) + m % 256;
    SplitByte(And(x / 256, m / 256), And(x % 256, m % 256), p);
  }

  lemma SplitByte(hi: nat, lo: nat, p: nat)
    requires lo < 256
    ensures 256 * hi + lo == p <==> hi == p / 256 && lo == p % 256
  {
  }

  /** The number a string of bytes stands for, most significant first. */
  function Value(bs: seq<Byte>): nat
  {
    if bs == [] then 0 else 256 * Value(bs[..|bs| - 1]) + bs[|bs| - 1]
  }

  lemma {:induction false} ValueBound(bs: seq<Byte>)
    ensures Value(bs) < Pow2(8 * |bs|)
  {
    if bs != [] {
      ValueBound(bs[..|bs| - 1]);
      EightMoreBits(8 * (|bs| - 1));
    }
  }

  lemma EightMoreBits(k: nat)
    ensures Pow2(k + 8) == 256 * Pow2(k)
  {
    assert Pow2(k + 8) == 2 * Pow2(k + 7) && Pow2(k + 7) == 2 * Pow2(k + 6);
    assert Pow2(k + 6) == 2 * Pow2(k + 5) && Pow2(k + 5) == 2 * Pow2(k + 4);
    assert Pow2(k + 4) == 2 * Pow2(k + 3) && Pow2(k + 3) == 2 * Pow2(k + 2);
    assert Pow2(k + 2) == 2 * Pow2(k + 1) && Pow2(k + 1) == 2 * Pow2(k);
  }

  lemma {:induction false} ValueInjective(a: seq<Byte>, b: seq<Byte>)
    requires |a| == |b| && Value(a) == Value(b)
    ensures a == b
  {
    if a != [] {
      ValueInjective(a[..|a| - 1], b[..|b| - 1]);
      assert a == a[..|a| - 1] + [a[|a| - 1]] && b == b[..|b| - 1] + [b[|b| - 1]];
    }
  }

  lemma {:induction false} ValueAnd(a: seq<Byte>, m: seq<Byte>)
    requires |a| == |m|
    ensures Value(AndBytes(a, m)) == And(Value(a), Value(m))
  {
    hide And;
    AndZero(0);
    if a != [] {
      var last := |a| - 1;
      ValueAnd(a[..last], m[..last]);
      var c := AndBytes(a, m);
      assert c[..last] == AndBytes(a[..last], m[..last]) && c[last] == And(a[last], m[last]);
      assert Value(c) == 256 * Value(c[..last]) + c[last];
      AndAppendByte(Value(a[..last]), a[last], Value(m[..last]), m[last]);
    }
  }

  /** Anding byte by byte gives c iff anding the numbers gives the number of c. */
  lemma AndBytesIs(a: seq<Byte>, m: seq<Byte>, c: seq<Byte>)
    requires |a| == |m| == |c|
    ensures AndBytes(a, m) == c <==> And(Value(a), Value(m)) == Value(c)
  {
    ValueAnd(a, m);
    if Value(AndBytes(a, m)) == Value(c) { ValueInjective(AndBytes(a, m), c); }
  }
}
