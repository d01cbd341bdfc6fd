/** How init picks the bits of the index from the rules: the sixteen that split them best. */
module VectorInit {
  import opened Numbers
  import opened BitSets
  import opened MatchedFields
  import opened PolicyTable

  const RANKS := 65535
  const PICKED := 16

  /** vector_size: its loop runs over an empty range, so the minimum is always returned. */
  const VECTOR_SIZE := 4

  /** How many rules ask about bit o and have this value there. */
  function Splits<P>(rules: seq<Rule<P>>, n: nat, o: nat, value: bool): nat
  {
    if rules == [] then 0
    else
      var last := rules[|rules| - 1];
      Splits(rules[..|rules| - 1], n, o, value)
      + if One(last.mask, n, o) && One(last.field, n, o) == value then 1 else 0
  }

  lemma {:induction false} SplitsBound<P>(rules: seq<Rule<P>>, n: nat, o: nat)
    ensures Splits(rules, n, o, false) + Splits(rules, n, o, true) <= |rules|
  {
    if rules != [] { SplitsBound(rules[..|rules| - 1], n, o); }
  }

  function CalcIndex(zeros: nat, ones: nat, base: nat): (index: nat)
    requires zeros + ones <= base
    ensures index <= base
  {
    if zeros == 0 && ones == 0 then base
    else (if zeros > ones then zeros - ones else ones - zeros) + (base - (zeros + ones))
  }

  /** Large indices are mapped, many to one, to the second half of the table. */
  function SortTableIndex(zeros: nat, ones: nat, base: nat): nat
    requires zeros + ones <= base
  {
    var index := CalcIndex(zeros, ones, base);
    if index > 32767 then index / (base / 32768 + 1) + 32767 else index
  }

  lemma DivisionBound(index: nat, n: nat)
    requires n > 0 && index < 32768 * n
    ensures index / n <= 32767
  {
  }

  /** The index is always one of the table's. */
  lemma IndexInBounds(zeros: nat, ones: nat, base: nat)
    requires zeros + ones <= base
    ensures SortTableIndex(zeros, ones, base) < RANKS
  {
    DivisionBound(CalcIndex(zeros, ones, base), base / 32768 + 1);
  }

  /** The rank of a bit: the lower, the more evenly the rules divide on it. */
  function Rank<P>(rules: seq<Rule<P>>, n: nat, o: nat): nat
  {
    SplitsBound(rules, n, o);
    SortTableIndex(Splits(rules, n, o, false), Splits(rules, n, o, true), |rules|)
  }

  /** On how many rules a bit has its rarer value. */
  function Minority<P>(rules: seq<Rule<P>>, n: nat, o: nat): nat
  {
    Smaller(Splits(rules, n, o, false), Splits(rules, n, o, true))
  }

  lemma ProductOrder(n: nat, p: nat, q: nat)
    requires p <= q
    ensures n * p <= n * q
  {
  }

  lemma DivisionOrder(x: nat, y: nat, n: nat)
    requires n > 0 && x <= y
    ensures x / n <= y / n
  {
    var p, q := x / n, y / n;
    assert n * p <= x && y < n * (q + 1);
    if p > q { ProductOrder(n, q + 1, p); }
  }

  lemma DivisionStep(x: nat, y: nat, n: nat)
    requires n > 0 && x + n <= y
    ensures x / n < y / n
  {
    var p, q := x / n, y / n;
    assert n * (p + 1) <= y < n * (q + 1);
    if p + 1 > q { ProductOrder(n, q + 1, p + 1); }
  }

  function Smaller(x: nat, y: nat): nat { if x < y then x else y }

  /** The index counts the rules less twice those with the rarer value. */
  lemma CalcIndexIs(zeros: nat, ones: nat, base: nat)
    requires zeros + ones <= base
    ensures CalcIndex(zeros, ones, base) == base - 2 * Smaller(zeros, ones)
  {
  }

  lemma PlacesInOrder(x: nat, y: nat, shared: nat)
    requires shared > 0
    ensures var i, j := if x > 32767 then x / shared + 32767 else x, if y > 32767 then y / shared + 32767 else y;
            (x <= y ==> i <= j) && (x < y <= 32767 || x + shared <= y ==> i < j)
  {
    if x <= y { DivisionOrder(x, y, shared); }
    if x + shared <= y { DivisionStep(x, y, shared); }
  }

  /** A smaller index comes no later in the table, and earlier in its first half or if it is smaller by as many as
      share a place in the second. */
  lemma SortOrder(zeros: nat, ones: nat, zeros': nat, ones': nat, base: nat)
    requires zeros + ones <= base && zeros' + ones' <= base
    ensures CalcIndex(zeros, ones, base) <= CalcIndex(zeros', ones', base) ==>
      SortTableIndex(zeros, ones, base) <= SortTableIndex(zeros', ones', base)
    ensures (|| CalcIndex(zeros, ones, base) < CalcIndex(zeros', ones', base) <= 32767
             || CalcIndex(zeros, ones, base) + base / 32768 + 1 <= CalcIndex(zeros', ones', base)) ==>
      SortTableIndex(zeros, ones, base) < SortTableIndex(zeros', ones', base)
  {
    hide CalcIndex;
    var x, y, shared := CalcIndex(zeros, ones, base), CalcIndex(zeros', ones', base), base / 32768 + 1;
    PlacesInOrder(x, y, shared);
  }

  /** Of two bits, the one with the larger minority ranks no later; and earlier, if few enough rules are left over
      when the other's minority is paired off or if it is larger by enough. */
  lemma RankOrder<P>(rules: seq<Rule<P>>, n: nat, a: nat, b: nat)
    ensures Minority(rules, n, a) >= Minority(rules, n, b) ==> Rank(rules, n, a) <= Rank(rules, n, b)
    ensures Minority(rules, n, a) > Minority(rules, n, b) && |rules| - 2 * Minority(rules, n, b) <= 32767 ==>
      Rank(rules, n, a) < Rank(rules, n, b)
    ensures 2 * Minority(rules, n, a) > 2 * Minority(rules, n, b) + |rules| / 32768 ==>
      Rank(rules, n, a) < Rank(rules, n, b)
  {
    hide Splits, SortTableIndex, CalcIndex;
    SplitsBound(rules, n, a);
    SplitsBound(rules, n, b);
    var zeros, ones, zeros', ones' :=
      Splits(rules, n, a, false), Splits(rules, n, a, true), Splits(rules, n, b, false), Splits(rules, n, b, true);
    CalcIndexIs(zeros, ones, |rules|);
    CalcIndexIs(zeros', ones', |rules|);
    SortOrder(zeros, ones, zeros', ones', |rules|);
    SortOrder(zeros', ones', zeros, ones, |rules|);
  }

  /** The offsets below bound with rank r, in ascending order. */
  function Ranked<P>(rules: seq<Rule<P>>, n: nat, r: nat, bound: nat): seq<nat>
  {
    if bound == 0 then []
    else Ranked(rules, n, r, bound - 1) + if Rank(rules, n, bound - 1) == r then [bound - 1] else []
  }

  lemma {:induction false} RankedAre<P>(rules: seq<Rule<P>>, n: nat, r: nat, bound: nat)
    ensures Increasing(Ranked(rules, n, r, bound))
    ensures forall o: nat :: o in Ranked(rules, n, r, bound) <==> o < bound && Rank(rules, n, o) == r
    decreases bound
  {
    hide Rank;
    if bound > 0 {
      var front := Ranked(rules, n, r, bound - 1);
      RankedAre(rules, n, r, bound - 1);
      IncreasingSnoc(front, bound - 1);
      assert front + [] == front;
    }
  }

  /** The two counting loops of generate_sort_table4 and generate_sort_table6, for one bit. */
  method CountSplits<P>(rules: seq<Rule<P>>, n: nat, o: nat) returns (zeros: nat, ones: nat)
    ensures zeros == Splits(rules, n, o, false) && ones == Splits(rules, n, o, true)
  {
    zeros, ones := 0, 0;
    for k := 0 to |rules|
      invariant zeros == Splits(rules[..k], n, o, false) && ones == Splits(rules[..k], n, o, true)
    {
      assert rules[..k + 1][..k] == rules[..k];
      if !One(rules[k].mask, n, o) {
        continue;
      }
      if !One(rules[k].field, n, o) {
        zeros := zeros + 1;
      } else {
        ones := ones + 1;
      }
    }
    assert rules[..|rules|] == rules;
  }

  /** generate_sort_table: the offsets by their rank. */
  method GenerateSortTable<P>(rules: seq<Rule<P>>, n: nat) returns (table: seq<seq<nat>>)
    ensures |table| == RANKS && forall r :: 0 <= r < RANKS ==> table[r] == Ranked(rules, n, r, BitSize(n))
  {
    var buckets := new seq<nat>[RANKS](_ => []);
    for o := 0 to BitSize(n)
      invariant forall r :: 0 <= r < RANKS ==> buckets[r] == Ranked(rules, n, r, o)
    {
      var zeros, ones := CountSplits(rules, n, o);
      SplitsBound(rules, n, o);
      IndexInBounds(zeros, ones, |rules|);
      var index := SortTableIndex(zeros, ones, |rules|);
      buckets[index] := buckets[index] + [o];
    }
    table := buckets[..];
  }

  // ----- Picking sixteen -----

  /** picked holds the offsets of ranks below r and, of rank r, those among the first j. */
  ghost predicate PickedUpTo<P>(picked: seq<nat>, rules: seq<Rule<P>>, n: nat, r: nat, j: nat)
  {
    && NoRepeats(picked) && j <= |Ranked(rules, n, r, BitSize(n))|
    && forall o: nat :: o in picked <==>
         o < BitSize(n) && (Rank(rules, n, o) < r || o in Ranked(rules, n, r, BitSize(n))[..j])
  }

  lemma PickNext<P>(picked: seq<nat>, rules: seq<Rule<P>>, n: nat, r: nat, j: nat)
    requires PickedUpTo(picked, rules, n, r, j) && j < |Ranked(rules, n, r, BitSize(n))|
    ensures PickedUpTo(picked + [Ranked(rules, n, r, BitSize(n))[j]], rules, n, r, j + 1)
  {
    var row := Ranked(rules, n, r, BitSize(n));
    RankedAre(rules, n, r, BitSize(n));
    assert row[j] in row && row[j] !in row[..j];
    assert row[..j + 1] == row[..j] + [row[j]];
  }

  lemma NextRank<P>(picked: seq<nat>, rules: seq<Rule<P>>, n: nat, r: nat)
    requires PickedUpTo(picked, rules, n, r, |Ranked(rules, n, r, BitSize(n))|)
    ensures PickedUpTo(picked, rules, n, r + 1, 0)
  {
    var row := Ranked(rules, n, r, BitSize(n));
    RankedAre(rules, n, r, BitSize(n));
    assert row[..|row|] == row;
  }

  /** Every offset that is picked comes before every one that is not, by rank and then by offset. */
  ghost predicate LeastRanked<P>(picked: seq<nat>, rules: seq<Rule<P>>, n: nat)
  {
    && (forall o :: o in picked ==> o < BitSize(n))
    && forall a: nat, b: nat :: a in picked && b < BitSize(n) && b !in picked ==> Before(rules, n, a, b)
  }

  predicate Before<P>(rules: seq<Rule<P>>, n: nat, a: nat, b: nat)
  {
    Rank(rules, n, a) < Rank(rules, n, b) || (Rank(rules, n, a) == Rank(rules, n, b) && a < b)
  }

  /** With fewer than 32768 rules, the bits picked are those that split the rules best. */
  lemma PickedSplitBest<P>(picked: seq<nat>, rules: seq<Rule<P>>, n: nat, a: nat, b: nat)
    requires LeastRanked(picked, rules, n) && |rules| < 32768 && a in picked && b < BitSize(n) && b !in picked
    ensures Minority(rules, n, a) > Minority(rules, n, b) || (Minority(rules, n, a) == Minority(rules, n, b) && a < b)
  {
    hide Rank, Minority;
    assert Before(rules, n, a, b);
    RankOrder(rules, n, a, b);
    RankOrder(rules, n, b, a);
  }

  lemma PickedAreLeast<P>(picked: seq<nat>, rules: seq<Rule<P>>, n: nat, r: nat, j: nat)
    requires PickedUpTo(picked, rules, n, r, j)
    ensures LeastRanked(picked, rules, n)
  {
    var row := Ranked(rules, n, r, BitSize(n));
    RankedAre(rules, n, r, BitSize(n));
    forall a: nat, b: nat | a in picked && b < BitSize(n) && b !in picked
      ensures Before(rules, n, a, b)
    {
      if a in row[..j] && Rank(rules, n, b) == r {
        var i :| 0 <= i < j && row[i] == a;
        assert b in row;
        var k :| 0 <= k < |row| && row[k] == b;
        assert k >= j;
      }
    }
  }

  function Upto(m: nat): seq<nat> { if m == 0 then [] else Upto(m - 1) + [m - 1] }

  lemma {:induction false} UptoAre(m: nat)
    ensures Increasing(Upto(m)) && |Upto(m)| == m && forall o: nat :: o in Upto(m) ==> o < m
  {
    if m > 0 {
      UptoAre(m - 1);
      var front := Upto(m - 1);
      assert forall i :: 0 <= i < |front| ==> front[i] in front;
    }
  }

  /** The nested loops of init that collect the best bits. */
  method PickBest<P>(rules: seq<Rule<P>>, n: nat) returns (picked: seq<nat>)
    ensures |picked| == PICKED && NoRepeats(picked) && LeastRanked(picked, rules, n)
  {
    var table := GenerateSortTable(rules, n);
    picked := [];
    for r := 0 to RANKS
      invariant |picked| < PICKED && PickedUpTo(picked, rules, n, r, 0)
    {
      for j := 0 to |table[r]|
        invariant |picked| < PICKED && PickedUpTo(picked, rules, n, r, j)
      {
        PickNext(picked, rules, n, r, j);
        picked := picked + [table[r][j]];
        if |picked| == PICKED {
          PickedAreLeast(picked, rules, n, r, j + 1);
          return;
        }
      }
      NextRank(picked, rules, n, r);
    }
    AllRanked(picked, rules, n);
  }

  /** There are more bits than are picked, so the loops end early. */
  lemma AllRanked<P>(picked: seq<nat>, rules: seq<Rule<P>>, n: nat)
    requires PickedUpTo(picked, rules, n, RANKS, 0)
    ensures |picked| >= PICKED + 1
  {
    var all := Upto(BitSize(n));
    UptoAre(BitSize(n));
    forall o: nat | o in all
      ensures o in picked
    {
      SplitsBound(rules, n, o);
      IndexInBounds(Splits(rules, n, o, false), Splits(rules, n, o, true), |rules|);
    }
    SubsetLength(all, picked);
  }

  // ----- Sorting them -----

  function Insert(s: seq<nat>, x: nat): seq<nat>
  {
    if s == [] || s[|s| - 1] <= x then s + [x] else Insert(s[..|s| - 1], x) + [s[|s| - 1]]
  }

  function Sorted(s: seq<nat>): seq<nat>
  {
    if s == [] then [] else Insert(Sorted(s[..|s| - 1]), s[|s| - 1])
  }

  lemma {:induction false} InsertIncreases(s: seq<nat>, x: nat)
    requires Increasing(s) && x !in s
    ensures Increasing(Insert(s, x)) && |Insert(s, x)| == |s| + 1 && forall o :: o in Insert(s, x) <==> o in s || o == x
  {
    if s != [] && s[|s| - 1] > x {
      var front, last := s[..|s| - 1], s[|s| - 1];
      assert s == front + [last];
      InsertIncreases(front, x);
      var more := Insert(front, x);
      forall i | 0 <= i < |more|
        ensures more[i] < last
      {
        assert more[i] in more;
      }
    }
  }

  lemma {:induction false} SortIncreases(s: seq<nat>)
    requires NoRepeats(s)
    ensures Increasing(Sorted(s)) && |Sorted(s)| == |s| && forall o :: o in Sorted(s) <==> o in s
  {
    if s != [] {
      var front, last := s[..|s| - 1], s[|s| - 1];
      assert s == front + [last];
      SortIncreases(front);
      InsertIncreases(Sorted(front), last);
    }
  }

  /** The vector that init builds on the rules. */
  ghost predicate BuiltOn<P>(v: Vector, rules: seq<Rule<P>>, n: nat)
  {
    Built(v, n, VECTOR_SIZE) && |v.vectorBits| == PICKED && LeastRanked(v.vectorBits, rules, n)
  }

  /** init. */
  method Init<P>(rules: seq<Rule<P>>, n: nat) returns (v: Vector)
    ensures BuiltOn(v, rules, n)
  {
    var picked := PickBest(rules, n);
    var bits := Sorted(picked);
    SortIncreases(picked);
    forall r | 0 <= r < |bits|
      ensures bits[r] < BitSize(n)
    {
      assert bits[r] in bits;
    }
    var mask := SetBits(bits, n);
    v := Vector(mask, bits[0], bits[VECTOR_SIZE - 1], bits);
  }
}
