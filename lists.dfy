/** List edits used by the filter components: `list.filter(item => item !== id)`,
    the toggle `list.includes(id) ? filter : [...list, id]`, and first-occurrence
    de-duplication (what a `distinct` query yields). */
module Lists {

  /** `xs.filter(item => item !== x)`. */
  function Without<T(==,!new)>(xs: seq<T>, x: T): (r: seq<T>)
    ensures x !in r
    ensures |r| <= |xs|
    ensures forall y :: y != x ==> (y in r <==> y in xs)
    decreases |xs|
  {
    if |xs| == 0 then []
    else if xs[0] == x then Without(xs[1..], x)
    else [xs[0]] + Without(xs[1..], x)
  }

  lemma {:induction false} WithoutAbsent<T(!new)>(xs: seq<T>, x: T)
    requires x !in xs
    ensures Without(xs, x) == xs
    decreases |xs|
  {
    if |xs| > 0 {
      WithoutAbsent(xs[1..], x);
    }
  }

  lemma {:induction false} WithoutAppend<T(!new)>(xs: seq<T>, ys: seq<T>, x: T)
    ensures Without(xs + ys, x) == Without(xs, x) + Without(ys, x)
    decreases |xs|
  {
    if |xs| == 0 {
      assert xs + ys == ys;
    } else {
      assert (xs + ys)[1..] == xs[1..] + ys;
      WithoutAppend(xs[1..], ys, x);
    }
  }

  /** Removing a value twice is removing it once. */
  lemma WithoutIdempotent<T(!new)>(xs: seq<T>, x: T)
    ensures Without(Without(xs, x), x) == Without(xs, x)
  {
    WithoutAbsent(Without(xs, x), x);
  }

  /** Removing one value keeps every other element, in the original order: the result is
      what remains of xs once the occurrences of x are taken out. */
  lemma {:induction false} WithoutKeepsOthers<T(!new)>(xs: seq<T>, x: T)
    ensures multiset(Without(xs, x)) == multiset(xs)[x := 0]
    decreases |xs|
  {
    if |xs| > 0 {
      WithoutKeepsOthers(xs[1..], x);
      assert xs == [xs[0]] + xs[1..];
    }
  }

  /** `list.includes(x) ? list.filter(item => item !== x) : [...list, x]`. */
  function Toggle<T(==,!new)>(xs: seq<T>, x: T): (r: seq<T>)
    ensures x in xs ==> x !in r
    ensures x !in xs ==> r == xs + [x]
  {
    if x in xs then Without(xs, x) else xs + [x]
  }

  /** Toggling an absent value twice gives the list back. */
  lemma ToggleTwiceAbsent<T(!new)>(xs: seq<T>, x: T)
    requires x !in xs
    ensures Toggle(Toggle(xs, x), x) == xs
  {
    WithoutAppend(xs, [x], x);
    WithoutAbsent(xs, x);
    assert Without([x], x) == [];
  }

  /** Toggling a present value twice moves it, once, to the end of the list. */
  lemma ToggleTwicePresent<T(!new)>(xs: seq<T>, x: T)
    requires x in xs
    ensures Toggle(Toggle(xs, x), x) == Without(xs, x) + [x]
  {
  }

  predicate NoDuplicates<T(==)>(xs: seq<T>) {
    forall i, j :: 0 <= i < j < |xs| ==> xs[i] != xs[j]
  }

  /** The values of xs, each once, in the order of their first occurrence. */
  function Distinct<T(==)>(xs: seq<T>): (r: seq<T>)
    decreases |xs|
  {
    if |xs| == 0 then []
    else
      var front := xs[..|xs| - 1];
      if xs[|xs| - 1] in front then Distinct(front) else Distinct(front) + [xs[|xs| - 1]]
  }

  /** Distinct lists every value of xs exactly once and nothing else. */
  lemma {:induction false} DistinctSpec<T>(xs: seq<T>)
    ensures NoDuplicates(Distinct(xs))
    ensures forall y :: y in Distinct(xs) <==> y in xs
    decreases |xs|
  {
    if |xs| > 0 {
      var front := xs[..|xs| - 1];
      DistinctSpec(front);
      assert xs == front + [xs[|xs| - 1]];
    }
  }
}
