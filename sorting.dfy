/** `orderBy: { createdAt: "desc" }`: arranging rows newest first by a timestamp key. The
    store leaves the order of equal timestamps open; this model keeps such rows in table
    order. */
module Sorting {

  /** No row is older than the row after it. */
  predicate NewestFirst<T>(xs: seq<T>, key: T -> int) {
    forall i, j :: 0 <= i < j < |xs| ==> key(xs[i]) >= key(xs[j])
  }

  function Insert<T>(x: T, xs: seq<T>, key: T -> int): (r: seq<T>)
    requires NewestFirst(xs, key)
    ensures NewestFirst(r, key)
    ensures multiset(r) == multiset(xs) + multiset{x}
    decreases |xs|
  {
    if |xs| == 0 || key(x) >= key(xs[0]) then
      [x] + xs
    else
      var rest := Insert(x, xs[1..], key);
      assert xs == [xs[0]] + xs[1..];
      HeadBeforeRest(xs[0], xs[1..], x, rest, key);
      [xs[0]] + rest
  }

  /** A row newer than both x and every later row stays in front of them once x is placed
      among the later rows. */
  lemma HeadBeforeRest<T>(head: T, tail: seq<T>, x: T, rest: seq<T>, key: T -> int)
    requires NewestFirst([head] + tail, key) && key(x) < key(head)
    requires NewestFirst(rest, key) && multiset(rest) == multiset(tail) + multiset{x}
    ensures NewestFirst([head] + rest, key)
  {
    var r := [head] + rest;
    forall i, j | 0 <= i < j < |r| ensures key(r[i]) >= key(r[j]) {
      if i == 0 {
        var y := rest[j - 1];
        assert r[0] == head && r[j] == y;
        assert y in multiset(rest);
        if y != x {
          assert y in multiset(tail);
          var k :| 0 <= k < |tail| && tail[k] == y;
          assert ([head] + tail)[0] == head && ([head] + tail)[k + 1] == y;
        }
      } else {
        assert r[i] == rest[i - 1] && r[j] == rest[j - 1];
      }
    }
  }

  /** The rows of xs, newest first. */
  function SortNewestFirst<T>(xs: seq<T>, key: T -> int): (r: seq<T>)
    ensures NewestFirst(r, key)
    ensures multiset(r) == multiset(xs)
    decreases |xs|
  {
    if |xs| == 0 then []
    else
      assert xs == [xs[0]] + xs[1..];
      Insert(xs[0], SortNewestFirst(xs[1..], key), key)
  }

  /** Sorting neither adds nor drops a row. */
  lemma SortKeepsMembers<T>(xs: seq<T>, key: T -> int)
    ensures forall x :: x in SortNewestFirst(xs, key) <==> x in xs
  {
    var r := SortNewestFirst(xs, key);
    forall x ensures x in r <==> x in xs {
      assert x in r <==> x in multiset(r);
      assert x in xs <==> x in multiset(xs);
    }
  }
}
