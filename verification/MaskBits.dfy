/** The bits of netmasks and port masks, and of the bytes they are stored in. */
module MaskBits {
  import opened Numbers
  import opened Powers
  import opened BitSets
  import opened MatchedFields
  import opened Bytes

  lemma {:induction false} BitOfJoin(a: nat, b: nat, k: nat, i: nat)
    ensures Bit(Join(a, b, k), i) <==> if i < k then Bit(b, i) else Bit(a, i - k)
    decreases k
  {
    if k > 0 {
      assert Join(a, b, k) / 2 == Join(a, b / 2, k - 1) && Join(a, b, k) % 2 == b % 2;
      if i > 0 { BitOfJoin(a, b / 2, k - 1, i - 1); }
    }
  }

  lemma BitOfAppended(a: nat, b: nat, i: nat)
    requires b < 256
    ensures Bit(256 * a + b, i) <==> if i < 8 then Bit(b, i) else Bit(a, i - 8)
  {
    JoinByte(a, b);
    BitOfJoin(a, b, 8, i);
  }

  /** Bit i of byte j, the most significant byte being the first. */
  lemma {:induction false} BitOfValue(bs: seq<Byte>, j: nat, i: nat)
    requires j < |bs| && i < 8
    ensures Bit(Value(bs), 8 * (|bs| - 1 - j) + i) <==> Bit(bs[j], i)
  {
    var last := |bs| - 1;
    BitOfAppended(Value(bs[..last]), bs[last], 8 * (last - j) + i);
    if j < last { BitOfValue(bs[..last], j, i); }
  }

  /** 2^w - 2^h has exactly the bits from h on. */
  lemma {:induction false} BitOfPrefix(w: nat, h: nat, i: nat)
    requires h <= w && i < w
    ensures Pow2(h) <= Pow2(w) && (Bit(Pow2(w) - Pow2(h), i) <==> i >= h)
    decreases w
  {
    Pow2Monotonic(h, w);
    var x := Pow2(w) - Pow2(h);
    if h == 0 {
      OnesBit(w, i);
    } else if h == w {
      BitOfZero(i);
    } else {
      assert x / 2 == Pow2(w - 1) - Pow2(h - 1) && x % 2 == 0;
      if i > 0 { BitOfPrefix(w - 1, h - 1, i - 1); }
    }
  }

  /** A netmask of h host bits has a one in byte j at bit i iff that bit is not one of them. */
  lemma NetmaskBit(mask: seq<Byte>, h: nat, j: nat, i: nat)
    requires h <= 8 * |mask| && Value(mask) + Pow2(h) == Pow2(8 * |mask|) && j < |mask| && i < 8
    ensures Bit(mask[j], i) <==> 8 * (|mask| - 1 - j) + i >= h
  {
    BitOfValue(mask, j, i);
    BitOfPrefix(8 * |mask|, h, 8 * (|mask| - 1 - j) + i);
  }

  lemma TwoBytes(x: nat, high: nat, low: nat, i: nat)
    requires low < 256 && x == 256 * high + low && i < 8
    ensures Bit(low, i) == Bit(x, i)
    ensures Bit(high, i) == Bit(x, i + 8)
  {
    BitOfAppended(high, low, i);
    BitOfAppended(high, low, i + 8);
  }

  lemma WordMaskBit(x: nat, high: nat, low: nat, w: nat, k: nat, i: nat)
    requires low < 256 && k <= w && x == 256 * high + low && x + Pow2(k) == Pow2(w) && i < 8 && i + 8 < w
    ensures Bit(low, i) <==> i >= k
    ensures Bit(high, i) <==> i + 8 >= k
  {
    TwoBytes(x, high, low, i);
    BitOfPrefix(w, k, i);
    BitOfPrefix(w, k, i + 8);
  }

  /** The same of a port mask, whose low byte is the first. */
  lemma PortMaskBit(mask: nat, k: nat, i: nat)
    requires k <= 16 && mask + Pow2(k) == 65536 && i < 8
    ensures Bit(mask % 256, i) <==> i >= k
    ensures Bit(mask / 256, i) <==> i + 8 >= k
  {
    SixteenBits();
    WordMaskBit(mask, mask / 256, mask % 256, 16, k, i);
  }

  /** The n bytes of a number. */
  function BytesOf(x: nat, n: nat): (bs: seq<Byte>)
    ensures |bs| == n
  {
    if n == 0 then [] else BytesOf(x / 256, n - 1) + [x % 256]
  }

  lemma {:induction false} ValueOfBytes(x: nat, n: nat)
    requires x < Pow2(8 * n)
    ensures Value(BytesOf(x, n)) == x
    decreases n
  {
    if n > 0 {
      EightMoreBits(8 * (n - 1));
      ValueOfBytes(x / 256, n - 1);
      assert BytesOf(x, n)[..n - 1] == BytesOf(x / 256, n - 1);
    }
  }

  /** Fields with the same bits are the same. */
  lemma SameByte(f: Field, g: Field, n: nat, j: nat)
    requires f.Valid(n) && g.Valid(n) && forall o: nat :: o < BitSize(n) ==> One(f, n, o) == One(g, n, o)
    requires j < 2 * n + OTHERS
    ensures f.ByteAt(n, j) == g.ByteAt(n, j)
  {
    hide Bit, Field.ByteAt;
    assert Pow2(8) == 256;
    forall i: nat | i < 8
      ensures Bit(f.ByteAt(n, j), i) == Bit(g.ByteAt(n, j), i)
    {
      assert One(f, n, 8 * j + i) == One(g, n, 8 * j + i);
      assert (8 * j + i) / 8 == j && (8 * j + i) % 8 == i;
    }
    SameBits(f.ByteAt(n, j), g.ByteAt(n, j), 8);
  }

  lemma SameFields(f: Field, g: Field, n: nat)
    requires f.Valid(n) && g.Valid(n) && forall o: nat :: o < BitSize(n) ==> One(f, n, o) == One(g, n, o)
    ensures f == g
  {
    hide One;
    forall j: nat | j < 2 * n + OTHERS
      ensures f.ByteAt(n, j) == g.ByteAt(n, j)
    {
      SameByte(f, g, n, j);
    }
    SameParts(f, g, n);
  }

  lemma SameParts(f: Field, g: Field, n: nat)
    requires f.Valid(n) && g.Valid(n) && forall j: nat :: j < 2 * n + OTHERS ==> f.ByteAt(n, j) == g.ByteAt(n, j)
    ensures f == g
  {
    forall j | 0 <= j < n
      ensures f.srcIp[j] == g.srcIp[j] && f.dstIp[j] == g.dstIp[j]
    {
      assert f.ByteAt(n, j) == g.ByteAt(n, j);
      assert f.ByteAt(n, n + j) == g.ByteAt(n, n + j);
    }
    forall j | 0 <= j < OTHERS
      ensures f.others[j] == g.others[j]
    {
      assert f.ByteAt(n, 2 * n + j) == g.ByteAt(n, 2 * n + j);
    }
    assert f.srcIp == g.srcIp && f.dstIp == g.dstIp && f.others == g.others;
  }
}
