/** Small shared vocabulary: an optional value, powers of two, and facts about
    sequences seen as sets. */
module Common {

  /** Python's `None` or a value. */
  datatype Option<T> = None | Some(value: T)

  function Pow2(k: nat): (p: nat)
    ensures p >= 1
  {
    if k == 0 then 1 else 2 * Pow2(k - 1)
  }

  /** No element occurs twice. */
  predicate Distinct<T(==)>(xs: seq<T>)
  {
    forall i, j :: 0 <= i < j < |xs| ==> xs[i] != xs[j]
  }

  /** Python's `set(xs)`. */
  function ElementsOf<T>(xs: seq<T>): set<T>
  {
    set x | x in xs
  }

  /** A set built from a sequence has at most as many elements as the sequence. */
  lemma {:induction false} ElementsOfBound<T>(xs: seq<T>)
    ensures |ElementsOf(xs)| <= |xs|
  {
    if xs != [] {
      var init := xs[..|xs| - 1];
      ElementsOfBound(init);
      assert xs == init + [xs[|xs| - 1]];
      assert ElementsOf(xs) == ElementsOf(init) + {xs[|xs| - 1]};
    }
  }

  /** ... and exactly as many when the sequence has no repetition. */
  lemma {:induction false} ElementsOfDistinct<T>(xs: seq<T>)
    requires Distinct(xs)
    ensures |ElementsOf(xs)| == |xs|
  {
    if xs != [] {
      var init := xs[..|xs| - 1];
      var x := xs[|xs| - 1];
      ElementsOfDistinct(init);
      assert xs == init + [x];
      assert x !in init;
      assert ElementsOf(xs) == ElementsOf(init) + {x};
    }
  }

  /** A subset has no more elements than its superset. */
  lemma SubsetCard<T>(a: set<T>, b: set<T>)
    requires a <= b
    ensures |a| <= |b|
  {
    assert b == a + (b - a);
  }

  /** `k` is the first position of `x` in `xs`. */
  predicate IsFirstAt<T(==)>(xs: seq<T>, x: T, k: int)
  {
    0 <= k < |xs| && xs[k] == x && x !in xs[..k]
  }

  /** A first position of an element of the prefix lies in the prefix. */
  lemma FirstAtInit<T>(xs: seq<T>, u: T, a: int)
    requires xs != [] && IsFirstAt(xs, u, a) && u in xs[..|xs| - 1]
    ensures a < |xs| - 1 && IsFirstAt(xs[..|xs| - 1], u, a)
  {
    var init := xs[..|xs| - 1];
    assert init[..a] == xs[..a];
  }

  /** A last element first occurring before the end occurs in the prefix. */
  lemma FirstAtLast<T>(xs: seq<T>, b: int)
    requires xs != [] && IsFirstAt(xs, xs[|xs| - 1], b)
    ensures xs[|xs| - 1] in xs[..|xs| - 1] || b == |xs| - 1
  {
    if b < |xs| - 1 {
      assert xs[..|xs| - 1][b] == xs[|xs| - 1];
    }
  }

  /** An element of the prefix first occurs before a last element that is
      new. */
  lemma FirstBeforeLast<T>(xs: seq<T>, u: T, a: int, b: int)
    requires xs != [] && u in xs[..|xs| - 1] && xs[|xs| - 1] !in xs[..|xs| - 1]
    requires IsFirstAt(xs, u, a) && IsFirstAt(xs, xs[|xs| - 1], b)
    ensures a < b
  {
    FirstAtInit(xs, u, a);
    FirstAtLast(xs, b);
  }
}
