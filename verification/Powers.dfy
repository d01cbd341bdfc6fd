/** Powers of two, alignment and the bitwise "and" of naturals, all read digit by
    digit so that every step is a halving. */
module Powers {
  function Pow2(n: nat): (p: nat)
    ensures p > 0
  {
    if n == 0 then 1 else 2 * Pow2(n - 1)
  }

  /** x is a multiple of 2^n. */
  predicate Aligned(x: nat, n: nat)
  {
    n == 0 || (x % 2 == 0 && Aligned(x / 2, n - 1))
  }

  /** x modulo 2^n. */
  function Low(x: nat, n: nat): nat
  {
    if n == 0 then 0 else 2 * Low(x / 2, n - 1) + x % 2
  }

  /** x & y on unsigned integers of any width. */
  function And(x: nat, y: nat): nat
  {
    if x == 0 || y == 0 then 0
    else 2 * And(x / 2, y / 2) + (if x % 2 == 1 && y % 2 == 1 then 1 else 0)
  }

  /** Bit i of x is one: (x >> i) & 1. */
  predicate Bit(x: nat, i: nat)
  {
    if i == 0 then x % 2 == 1 else Bit(x / 2, i - 1)
  }

  lemma {:induction false} Pow2Monotonic(m: nat, n: nat)
    requires m <= n
    ensures Pow2(m) <= Pow2(n)
    ensures m < n ==> 2 * Pow2(m) <= Pow2(n)
    decreases n
  {
    if m < n { Pow2Monotonic(m, n - 1); }
  }

  lemma {:induction false} AlignedSum(a: nat, b: nat, n: nat)
    requires Aligned(a, n) && Aligned(b, n)
    ensures Aligned(a + b, n)
    decreases n
  {
    if n > 0 {
      AlignedSum(a / 2, b / 2, n - 1);
      assert (a + b) / 2 == a / 2 + b / 2;
    }
  }

  lemma {:induction false} AlignedPow2(m: nat, n: nat)
    requires n <= m
    ensures Aligned(Pow2(m), n)
    decreases n
  {
    if n > 0 { AlignedPow2(m - 1, n - 1); }
  }

  lemma {:induction false} AlignedZero(n: nat)
    ensures Aligned(0, n)
  {
    if n > 0 { AlignedZero(n - 1); }
  }

  lemma {:induction false} AlignedSmaller(x: nat, m: nat, n: nat)
    requires m <= n && Aligned(x, n)
    ensures Aligned(x, m)
    decreases m
  {
    if m > 0 { AlignedSmaller(x / 2, m - 1, n - 1); }
  }

  /** Two multiples of 2^n that differ are at least 2^n apart. */
  lemma {:induction false} AlignedApart(a: nat, b: nat, n: nat)
    requires Aligned(a, n) && Aligned(b, n) && a < b
    ensures a + Pow2(n) <= b
    decreases n
  {
    if n > 0 { AlignedApart(a / 2, b / 2, n - 1); }
  }

  /** Adding 2^n to an odd multiple of 2^n gives an even multiple. */
  lemma {:induction false} AlignedNext(x: nat, n: nat)
    requires Aligned(x, n) && !Aligned(x, n + 1)
    ensures Aligned(x + Pow2(n), n + 1)
    decreases n
  {
    if n > 0 {
      AlignedNext(x / 2, n - 1);
      assert (x + Pow2(n)) / 2 == x / 2 + Pow2(n - 1);
    }
  }

  lemma {:induction false} AlignedStep(x: nat, n: nat)
    requires Aligned(x, n)
    ensures Aligned(x, n + 1) <==> !Bit(x, n)
    decreases n
  {
    if n > 0 { AlignedStep(x / 2, n - 1); }
  }

  lemma {:induction false} LowBounds(x: nat, n: nat)
    ensures Low(x, n) < Pow2(n) && Low(x, n) <= x && Aligned(x - Low(x, n), n)
    decreases n
  {
    if n > 0 {
      LowBounds(x / 2, n - 1);
      assert (x - Low(x, n)) / 2 == x / 2 - Low(x / 2, n - 1);
    }
  }

  /** x rounds down to the multiple m of 2^n iff it is one of the 2^n values from m on. */
  lemma RoundDown(x: nat, n: nat, m: nat)
    requires Aligned(m, n)
    ensures x - Low(x, n) == m <==> m <= x < m + Pow2(n)
  {
    LowBounds(x, n);
    var d := x - Low(x, n);
    if d < m { AlignedApart(d, m, n); }
    if m < d { AlignedApart(m, d, n); }
  }

  lemma AndStep(x: nat, y: nat)
    ensures And(x, y) == 2 * And(x / 2, y / 2) + (if x % 2 == 1 && y % 2 == 1 then 1 else 0)
  {
  }

  lemma AndZero(y: nat)
    ensures And(0, y) == 0
  {
  }

  lemma {:induction false} AndOnes(x: nat, w: nat)
    requires x < Pow2(w)
    ensures And(x, Pow2(w) - 1) == x
    decreases w
  {
    hide And;
    if w > 0 {
      AndOnes(x / 2, w - 1);
      AndStep(x, Pow2(w) - 1);
      assert (Pow2(w) - 1) / 2 == Pow2(w - 1) - 1;
    } else {
      AndZero(0);
    }
  }

  /** Anding with the netmask 2^w - 2^n clears exactly the low n bits. */
  lemma {:induction false} AndPrefix(x: nat, n: nat, w: nat)
    requires n <= w && x < Pow2(w)
    ensures Pow2(n) <= Pow2(w)
    ensures And(x, Pow2(w) - Pow2(n)) == x - Low(x, n)
    decreases w
  {
    hide And;
    Pow2Monotonic(n, w);
    if n == 0 {
      AndOnes(x, w);
    } else {
      var y := Pow2(w) - Pow2(n);
      AndPrefix(x / 2, n - 1, w - 1);
      AndStep(x, y);
      assert y / 2 == Pow2(w - 1) - Pow2(n - 1) && y % 2 == 0;
    }
  }

  lemma SixteenBits()
    ensures Pow2(16) == 65536
  {
    assert Pow2(8) == 256;
  }
}
