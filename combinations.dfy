/** Query generation: `generate_keyword_combinations` joins, for every size
    r = 1 .. n-1, each r-element combination of the base keywords (in the
    order `itertools.combinations` emits them) with the query character.
    A combination is modelled as the strictly increasing sequence of the
    indices it picks. */
module Combinations {
  import opened Common
  import opened Text

  predicate Increasing(c: seq<nat>)
  {
    forall i, j :: 0 <= i < j < |c| ==> c[i] < c[j]
  }

  /** Every index lies in [lo, hi). */
  predicate Within(c: seq<nat>, lo: nat, hi: nat)
  {
    forall i :: 0 <= i < |c| ==> lo <= c[i] < hi
  }

  /** `x` put in front of every sequence of `cs`. */
  function Prepend(x: nat, cs: seq<seq<nat>>): seq<seq<nat>>
  {
    seq(|cs|, k requires 0 <= k < |cs| => [x] + cs[k])
  }

  /** The r-element combinations of the indices lo .. n-1, in lexicographic
      order: those starting with `lo` first, then those not using `lo`. */
  function Combos(lo: nat, n: nat, r: nat): (cs: seq<seq<nat>>)
    decreases n - lo, r
    ensures forall k :: 0 <= k < |cs| ==> |cs[k]| == r && Within(cs[k], lo, n)
  {
    if r == 0 then [[]]
    else if lo >= n then []
    else
      var tails := Combos(lo + 1, n, r - 1);
      var rest := Combos(lo + 1, n, r);
      assert forall k :: 0 <= k < |tails| ==> Within([lo] + tails[k], lo, n) by {
        forall k | 0 <= k < |tails| ensures Within([lo] + tails[k], lo, n) {
          var c := [lo] + tails[k];
          assert forall i :: 1 <= i < |c| ==> c[i] == tails[k][i - 1];
        }
      }
      Prepend(lo, tails) + rest
  }

  /** Every enumerated combination lists its indices in increasing order. */
  lemma {:induction false} CombosIncreasing(lo: nat, n: nat, r: nat)
    ensures forall k :: 0 <= k < |Combos(lo, n, r)| ==> Increasing(Combos(lo, n, r)[k])
    decreases n - lo, r
  {
    if r > 0 && lo < n {
      var tails := Combos(lo + 1, n, r - 1);
      CombosIncreasing(lo + 1, n, r - 1);
      CombosIncreasing(lo + 1, n, r);
      forall k | 0 <= k < |tails| ensures Increasing([lo] + tails[k]) {
        var c := [lo] + tails[k];
        assert forall i :: 1 <= i < |c| ==> c[i] == tails[k][i - 1];
      }
      var cs := Combos(lo, n, r);
      assert cs == Prepend(lo, tails) + Combos(lo + 1, n, r);
      forall k | 0 <= k < |cs| ensures Increasing(cs[k]) {
        if k >= |tails| {
          assert cs[k] == Combos(lo + 1, n, r)[k - |tails|];
        }
      }
    }
  }

  /** All combinations of sizes 1 .. r-1 of the indices 0 .. n-1, size by size. */
  function CombosBelow(n: nat, r: nat): (cs: seq<seq<nat>>)
    ensures forall k :: 0 <= k < |cs| ==> 1 <= |cs[k]| < r && Within(cs[k], 0, n)
  {
    if r <= 1 then [] else CombosBelow(n, r - 1) + Combos(0, n, r - 1)
  }

  lemma {:induction false} CombosBelowIncreasing(n: nat, r: nat)
    ensures forall k :: 0 <= k < |CombosBelow(n, r)| ==> Increasing(CombosBelow(n, r)[k])
  {
    if r > 1 {
      CombosBelowIncreasing(n, r - 1);
      CombosIncreasing(0, n, r - 1);
      var below := CombosBelow(n, r - 1);
      var cs := CombosBelow(n, r);
      forall k | 0 <= k < |cs| ensures Increasing(cs[k]) {
        if k >= |below| {
          assert cs[k] == Combos(0, n, r - 1)[k - |below|];
        } else {
          assert cs[k] == below[k];
        }
      }
    }
  }

  /** The index combinations `generate_keyword_combinations` renders:
      sizes 1 .. n-1 (`range(1, len(keywords))`). */
  function AllCombos(n: nat): seq<seq<nat>>
  {
    CombosBelow(n, n)
  }

  /** The keywords a combination picks, in index order. */
  function Pick(keywords: seq<string>, c: seq<nat>): seq<string>
    requires Within(c, 0, |keywords|)
  {
    seq(|c|, k requires 0 <= k < |c| => keywords[c[k]])
  }

  /** `query_char.join(combo)`. */
  function Query(keywords: seq<string>, c: seq<nat>, queryChar: string): string
    requires Within(c, 0, |keywords|)
  {
    Join(Pick(keywords, c), queryChar)
  }

  /** The list `generate_keyword_combinations` returns. */
  function Queries(keywords: seq<string>, queryChar: string): (qs: seq<string>)
    ensures |qs| == |AllCombos(|keywords|)|
  {
    var cs := AllCombos(|keywords|);
    seq(|cs|, i requires 0 <= i < |cs| => Query(keywords, cs[i], queryChar))
  }

  /** `generate_keyword_combinations`: the r loop over sizes 1 .. n-1 and the
      inner loop over the combinations of each size. */
  method GenerateKeywordCombinations(keywords: seq<string>, queryChar: string) returns (list: seq<string>)
    ensures list == Queries(keywords, queryChar)
  {
    var n := |keywords|;
    list := [];
    var r := 1;
    while r < n
      invariant 1 <= r <= n + 1 && (r <= n || n == 0)
      invariant |list| == |CombosBelow(n, r)|
      invariant forall i :: 0 <= i < |list| ==> list[i] == Query(keywords, CombosBelow(n, r)[i], queryChar)
    {
      var combos := Combos(0, n, r);
      ghost var done := CombosBelow(n, r);
      var j := 0;
      while j < |combos|
        invariant 0 <= j <= |combos|
        invariant |list| == |done| + j
        invariant forall i :: 0 <= i < |list| ==> list[i] == Query(keywords, (done + combos)[i], queryChar)
      {
        list := list + [Query(keywords, combos[j], queryChar)];
        j := j + 1;
      }
      r := r + 1;
      assert CombosBelow(n, r) == done + combos;
    }
    assert CombosBelow(n, r) == AllCombos(n);
  }

  // ---------------------------------------------------------------------
  // Counting: sum over r = 1 .. n-1 of C(n, r) = 2^n - 2.

  /** Binomial coefficient by Pascal's rule. */
  function Binom(m: nat, r: nat): nat
  {
    if r == 0 then 1 else if m == 0 then 0 else Binom(m - 1, r - 1) + Binom(m - 1, r)
  }

  /** Sum of Binom(m, r) for r < k. */
  function SumBinom(m: nat, k: nat): nat
  {
    if k == 0 then 0 else SumBinom(m, k - 1) + Binom(m, k - 1)
  }

  /** There are C(n - lo, r) combinations of size r of the indices lo .. n-1. */
  lemma {:induction false} CombosCount(lo: nat, n: nat, r: nat)
    requires lo <= n
    ensures |Combos(lo, n, r)| == Binom(n - lo, r)
    decreases n - lo, r
  {
    if r > 0 && lo < n {
      CombosCount(lo + 1, n, r - 1);
      CombosCount(lo + 1, n, r);
    }
  }

  lemma {:induction false} BinomAbove(m: nat, r: nat)
    requires r > m
    ensures Binom(m, r) == 0
  {
    if m > 0 {
      BinomAbove(m - 1, r - 1);
      BinomAbove(m - 1, r);
    }
  }

  lemma {:induction false} BinomDiagonal(m: nat)
    ensures Binom(m, m) == 1
  {
    if m > 0 {
      BinomDiagonal(m - 1);
      BinomAbove(m - 1, m);
    }
  }

  lemma {:induction false} SumBinomPascal(m: nat, k: nat)
    requires m >= 1 && k >= 1
    ensures SumBinom(m, k) == SumBinom(m - 1, k) + SumBinom(m - 1, k - 1)
  {
    if k > 1 {
      SumBinomPascal(m, k - 1);
    }
  }

  /** The row sum of Pascal's triangle. */
  lemma {:induction false} SumBinomRow(m: nat)
    ensures SumBinom(m, m + 1) == Pow2(m)
  {
    if m > 0 {
      SumBinomRow(m - 1);
      SumBinomPascal(m, m + 1);
      BinomAbove(m - 1, m);
    }
  }

  lemma {:induction false} CombosBelowCount(n: nat, r: nat)
    requires r >= 1
    ensures |CombosBelow(n, r)| + 1 == SumBinom(n, r)
  {
    if r > 1 {
      CombosBelowCount(n, r - 1);
      CombosCount(0, n, r - 1);
    }
  }

  /** For n base keywords the generator produces 2^n - 2 queries
      (none at all when there are no keywords). */
  lemma QueriesCount(keywords: seq<string>, queryChar: string)
    ensures |keywords| >= 1 ==> |Queries(keywords, queryChar)| == Pow2(|keywords|) - 2
    ensures |keywords| < 2 ==> Queries(keywords, queryChar) == []
  {
    var n := |keywords|;
    if n >= 1 {
      CombosBelowCount(n, n);
      SumBinomRow(n);
      BinomDiagonal(n);
    }
  }

  // ---------------------------------------------------------------------
  // Shape of the enumeration.

  /** Every strictly increasing index sequence over lo .. n-1 is enumerated. */
  lemma {:induction false} CombosComplete(lo: nat, n: nat, c: seq<nat>)
    requires Increasing(c) && Within(c, lo, n)
    ensures c in Combos(lo, n, |c|)
    decreases n - lo, |c|
  {
    if |c| > 0 {
      assert lo <= c[0] < n;
      var tail := c[1..];
      assert Increasing(tail);
      if c[0] == lo {
        assert Within(tail, lo + 1, n);
        CombosComplete(lo + 1, n, tail);
        assert [lo] + tail == c;
        CombosHead(lo, n, |c|, tail);
      } else {
        assert Within(c, lo + 1, n);
        CombosComplete(lo + 1, n, c);
        CombosSkip(lo, n, |c|, c);
      }
    }
  }

  /** A combination of lo+1 .. n-1 with `lo` put in front is enumerated. */
  lemma CombosHead(lo: nat, n: nat, r: nat, tail: seq<nat>)
    requires 0 < r && lo < n && tail in Combos(lo + 1, n, r - 1)
    ensures [lo] + tail in Combos(lo, n, r)
  {
    var tails := Combos(lo + 1, n, r - 1);
    var k :| 0 <= k < |tails| && tails[k] == tail;
    assert Prepend(lo, tails)[k] == [lo] + tail;
    assert Combos(lo, n, r) == Prepend(lo, tails) + Combos(lo + 1, n, r);
  }

  /** A combination not using `lo` is enumerated after those that do. */
  lemma CombosSkip(lo: nat, n: nat, r: nat, c: seq<nat>)
    requires 0 < r && lo < n && c in Combos(lo + 1, n, r)
    ensures c in Combos(lo, n, r)
  {
    assert Combos(lo, n, r) == Prepend(lo, Combos(lo + 1, n, r - 1)) + Combos(lo + 1, n, r);
  }

  /** Every non-empty proper subset of the base keywords (as increasing
      indices) is among the generated combinations. */
  lemma AllCombosComplete(n: nat, c: seq<nat>)
    requires Increasing(c) && Within(c, 0, n) && 1 <= |c| < n
    ensures c in AllCombos(n)
  {
    CombosComplete(0, n, c);
    CombosBelowHas(n, n, c);
  }

  lemma {:induction false} CombosBelowHas(n: nat, r: nat, c: seq<nat>)
    requires 1 <= |c| < r
    requires c in Combos(0, n, |c|)
    ensures c in CombosBelow(n, r)
  {
    var below, top := CombosBelow(n, r - 1), Combos(0, n, r - 1);
    assert CombosBelow(n, r) == below + top;
    if |c| < r - 1 {
      CombosBelowHas(n, r - 1, c);
    }
    InAppend(c, below, top);
  }

  lemma InAppend<T>(x: T, a: seq<T>, b: seq<T>)
    ensures (x in a || x in b) ==> x in a + b
  {
    if x in b {
      var k :| 0 <= k < |b| && b[k] == x;
      assert (a + b)[|a| + k] == x;
    }
  }

  /** Smaller combinations come first: sizes never decrease along the list. */
  lemma {:induction false} CombosBelowBySize(n: nat, r: nat, i: nat, j: nat)
    requires i < j < |CombosBelow(n, r)|
    ensures |CombosBelow(n, r)[i]| <= |CombosBelow(n, r)[j]|
  {
    var below := CombosBelow(n, r - 1);
    if j < |below| {
      CombosBelowBySize(n, r - 1, i, j);
    } else {
      var cs := CombosBelow(n, r);
      assert cs == below + Combos(0, n, r - 1);
      assert |cs[j]| == r - 1;
      if i < |below| {
        assert cs[i] == below[i];
      }
    }
  }

  /** Every generated query is the join of a non-empty proper subset of the
      keywords; the full set is never generated. */
  lemma QueriesShape(keywords: seq<string>, queryChar: string, i: nat)
    requires i < |Queries(keywords, queryChar)|
    ensures var c := AllCombos(|keywords|)[i];
      && 1 <= |c| < |keywords| && Increasing(c) && Within(c, 0, |keywords|)
      && Queries(keywords, queryChar)[i] == Join(Pick(keywords, c), queryChar)
  {
    CombosBelowIncreasing(|keywords|, |keywords|);
  }

  lemma CombosOfThreeTop()
    ensures Combos(2, 3, 1) == [[2]]
    ensures Combos(2, 3, 2) == []
  {
    assert Combos(3, 3, 0) == [[]];
    assert Prepend(2, [[]])[0] == [2];
  }

  lemma CombosOfThreeMid()
    ensures Combos(1, 3, 1) == [[1], [2]]
    ensures Combos(1, 3, 2) == [[1, 2]]
  {
    CombosOfThreeTop();
    var p1 := Prepend(1, Combos(2, 3, 0));
    assert Combos(2, 3, 0) == [[]];
    assert |p1| == 1 && p1[0] == [1];
    assert Combos(1, 3, 1) == p1 + Combos(2, 3, 1);
    var p2 := Prepend(1, Combos(2, 3, 1));
    assert |p2| == 1 && p2[0] == [1, 2];
    assert Combos(1, 3, 2) == p2 + Combos(2, 3, 2);
  }

  lemma CombosOfThree()
    ensures Combos(0, 3, 1) == [[0], [1], [2]]
    ensures Combos(0, 3, 2) == [[0, 1], [0, 2], [1, 2]]
  {
    CombosOfThreeMid();
    var p1 := Prepend(0, Combos(1, 3, 0));
    assert Combos(1, 3, 0) == [[]];
    assert p1[0] == [0];
    assert Combos(0, 3, 1) == p1 + Combos(1, 3, 1);
    var p2 := Prepend(0, Combos(1, 3, 1));
    assert p2[0] == [0, 1] && p2[1] == [0, 2];
    assert p2 == [[0, 1], [0, 2]];
    assert Combos(0, 3, 2) == p2 + Combos(1, 3, 2);
  }

  lemma AllCombosOfThree()
    ensures AllCombos(3) == [[0], [1], [2], [0, 1], [0, 2], [1, 2]]
  {
    CombosOfThree();
    var one := Combos(0, 3, 1);
    var two := Combos(0, 3, 2);
    assert CombosBelow(3, 1) == [];
    assert CombosBelow(3, 2) == CombosBelow(3, 1) + one;
    assert CombosBelow(3, 3) == CombosBelow(3, 2) + two;
    assert one + two == [[0], [1], [2], [0, 1], [0, 2], [1, 2]];
  }

  lemma JoinPair(a: string, b: string, sep: string)
    ensures Join([a, b], sep) == a + sep + b
  {
    assert [a, b][1..] == [b];
  }

  lemma SinglesOfThree(a: string, b: string, c: string, q: string)
    ensures Query([a, b, c], [0], q) == a
    ensures Query([a, b, c], [1], q) == b
    ensures Query([a, b, c], [2], q) == c
  {
    var kw := [a, b, c];
    assert Pick(kw, [0]) == [a] && Pick(kw, [1]) == [b] && Pick(kw, [2]) == [c];
  }

  lemma PairsOfThree(a: string, b: string, c: string, q: string)
    ensures Query([a, b, c], [0, 1], q) == a + q + b
    ensures Query([a, b, c], [0, 2], q) == a + q + c
    ensures Query([a, b, c], [1, 2], q) == b + q + c
  {
    var kw := [a, b, c];
    assert Pick(kw, [0, 1]) == [a, b] && Pick(kw, [0, 2]) == [a, c] && Pick(kw, [1, 2]) == [b, c];
    JoinPair(a, b, q);
    JoinPair(a, c, q);
    JoinPair(b, c, q);
  }

  /** Position i of the generated list renders the i-th index combination. */
  lemma QueryAt(keywords: seq<string>, q: string, i: nat)
    requires i < |AllCombos(|keywords|)|
    ensures Queries(keywords, q)[i] == Query(keywords, AllCombos(|keywords|)[i], q)
  {
  }

  /** Three keywords give six queries, the single keywords first, then the
      pairs in `itertools.combinations` order. */
  lemma ThreeKeywords(a: string, b: string, c: string, q: string)
    ensures Queries([a, b, c], q) == [a, b, c, a + q + b, a + q + c, b + q + c]
  {
    var kw := [a, b, c];
    AllCombosOfThree();
    SinglesOfThree(a, b, c, q);
    PairsOfThree(a, b, c, q);
    QueryAt(kw, q, 0);
    QueryAt(kw, q, 1);
    QueryAt(kw, q, 2);
    QueryAt(kw, q, 3);
    QueryAt(kw, q, 4);
    QueryAt(kw, q, 5);
    var qs := Queries(kw, q);
    SixElements(qs, a, b, c, a + q + b, a + q + c, b + q + c);
  }

  lemma SixElements(xs: seq<string>, x0: string, x1: string, x2: string, x3: string, x4: string, x5: string)
    requires |xs| == 6
    requires xs[0] == x0 && xs[1] == x1 && xs[2] == x2 && xs[3] == x3 && xs[4] == x4 && xs[5] == x5
    ensures xs == [x0, x1, x2, x3, x4, x5]
  {
  }
}
