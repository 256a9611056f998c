/**
  Stable ordering and truncation, standing in for the database's
  `ORDER BY ... LIMIT n` (`qs.order_by(...)[:n]`) and for Python's stable
  `sorted(..., reverse=True)[:n]` inside `Counter.most_common`.

  `atLeast(x, y)` means "x may be listed before y". Rows that tie keep the
  order they had in the input; the database leaves that order open, and the
  model fixes it to the table order.
 */
module Ranking {

  ghost predicate TotalPreorder<T(!new)>(atLeast: (T, T) -> bool) {
    && (forall x, y :: atLeast(x, y) || atLeast(y, x))
    && (forall x, y, z :: atLeast(x, y) && atLeast(y, z) ==> atLeast(x, z))
  }

  predicate Ranked<T>(s: seq<T>, atLeast: (T, T) -> bool) {
    forall i, j :: 0 <= i < j < |s| ==> atLeast(s[i], s[j])
  }

  predicate Ties<T>(x: T, y: T, atLeast: (T, T) -> bool) {
    atLeast(x, y) && atLeast(y, x)
  }

  /** `s[:n]` */
  function Take<T>(s: seq<T>, n: nat): (r: seq<T>)
    ensures |r| == if n < |s| then n else |s|
    ensures r <= s
  {
    if n < |s| then s[..n] else s
  }

  /** Inserts `x` ahead of the first element it may precede. */
  function Insert<T>(x: T, s: seq<T>, atLeast: (T, T) -> bool): (r: seq<T>)
    ensures multiset(r) == multiset(s) + multiset{x}
  {
    if s == [] || atLeast(x, s[0]) then [x] + s
    else
      assert s == [s[0]] + s[1..];
      [s[0]] + Insert(x, s[1..], atLeast)
  }

  /** Stable insertion sort. */
  function Sort<T>(s: seq<T>, atLeast: (T, T) -> bool): (r: seq<T>)
    ensures multiset(r) == multiset(s)
    ensures |r| == |s|
  {
    if s == [] then []
    else
      assert s == [s[0]] + s[1..];
      Insert(s[0], Sort(s[1..], atLeast), atLeast)
  }

  lemma {:induction false} InsertRanked<T(!new)>(x: T, s: seq<T>, atLeast: (T, T) -> bool)
    requires TotalPreorder(atLeast) && Ranked(s, atLeast)
    ensures Ranked(Insert(x, s, atLeast), atLeast)
  {
    if s != [] && !atLeast(x, s[0]) {
      var tail := Insert(x, s[1..], atLeast);
      InsertRanked(x, s[1..], atLeast);
      assert atLeast(s[0], x);
      forall e | e in tail ensures atLeast(s[0], e) {
        assert e in multiset(tail);
        if e != x {
          assert e in s[1..];
        }
      }
      var r := [s[0]] + tail;
      forall i, j | 0 <= i < j < |r| ensures atLeast(r[i], r[j]) {
        if i > 0 {
          assert r[i] == tail[i - 1] && r[j] == tail[j - 1];
        } else {
          assert r[j] in tail;
        }
      }
    }
  }

  lemma {:induction false} SortRanked<T(!new)>(s: seq<T>, atLeast: (T, T) -> bool)
    requires TotalPreorder(atLeast)
    ensures Ranked(Sort(s, atLeast), atLeast)
  {
    if s != [] {
      SortRanked(s[1..], atLeast);
      InsertRanked(s[0], Sort(s[1..], atLeast), atLeast);
    }
  }

  /** The elements of `s` that tie with `p`, in their order in `s`. */
  function TiesWith<T>(s: seq<T>, p: T, atLeast: (T, T) -> bool): seq<T> {
    if s == [] then []
    else (if Ties(s[0], p, atLeast) then [s[0]] else []) + TiesWith(s[1..], p, atLeast)
  }

  lemma {:induction false} TiesWithAppend<T>(a: seq<T>, b: seq<T>, p: T, atLeast: (T, T) -> bool)
    ensures TiesWith(a + b, p, atLeast) == TiesWith(a, p, atLeast) + TiesWith(b, p, atLeast)
  {
    if a == [] {
      assert a + b == b;
    } else {
      var h := if Ties(a[0], p, atLeast) then [a[0]] else [];
      assert (a + b)[0] == a[0];
      assert (a + b)[1..] == a[1..] + b;
      TiesWithAppend(a[1..], b, p, atLeast);
      assert TiesWith(a + b, p, atLeast) == h + TiesWith(a[1..] + b, p, atLeast);
      assert TiesWith(a, p, atLeast) == h + TiesWith(a[1..], p, atLeast);
    }
  }

  lemma {:induction false} InsertStable<T(!new)>(x: T, s: seq<T>, p: T, atLeast: (T, T) -> bool)
    requires TotalPreorder(atLeast)
    ensures TiesWith(Insert(x, s, atLeast), p, atLeast) == TiesWith([x] + s, p, atLeast)
  {
    if s != [] && !atLeast(x, s[0]) {
      var tail := Insert(x, s[1..], atLeast);
      InsertStable(x, s[1..], p, atLeast);
      NotBothTie(x, s[0], p, atLeast);
      TiesSwap(s[0], x, s[1..], tail, p, atLeast);
      assert Insert(x, s, atLeast) == [s[0]] + tail;
      assert [x] + s == [x] + ([s[0]] + s[1..]);
    }
  }

  /** An element ranked strictly above `x` cannot tie with the same `p` as `x`. */
  lemma NotBothTie<T(!new)>(x: T, y: T, p: T, atLeast: (T, T) -> bool)
    requires TotalPreorder(atLeast) && !atLeast(x, y)
    ensures !(Ties(y, p, atLeast) && Ties(x, p, atLeast))
  {
  }

  /** Moving `x` past `y` leaves the ties of `p` alone when not both of them tie with `p`. */
  lemma TiesSwap<T>(y: T, x: T, rest: seq<T>, tail: seq<T>, p: T, atLeast: (T, T) -> bool)
    requires TiesWith(tail, p, atLeast) == TiesWith([x] + rest, p, atLeast)
    requires !(Ties(y, p, atLeast) && Ties(x, p, atLeast))
    ensures TiesWith([y] + tail, p, atLeast) == TiesWith([x] + ([y] + rest), p, atLeast)
  {
    assert ([y] + tail)[1..] == tail;
    assert ([x] + rest)[1..] == rest;
    assert ([x] + ([y] + rest))[1..] == [y] + rest;
    assert ([y] + rest)[1..] == rest;
  }

  /** Stability: among elements that tie, `Sort` keeps the input order. */
  lemma {:induction false} SortStable<T(!new)>(s: seq<T>, p: T, atLeast: (T, T) -> bool)
    requires TotalPreorder(atLeast)
    ensures TiesWith(Sort(s, atLeast), p, atLeast) == TiesWith(s, p, atLeast)
  {
    if s != [] {
      SortStable(s[1..], p, atLeast);
      InsertStable(s[0], Sort(s[1..], atLeast), p, atLeast);
      assert s == [s[0]] + s[1..];
      assert ([s[0]] + Sort(s[1..], atLeast))[1..] == Sort(s[1..], atLeast);
    }
  }

  /** The first `n` of a sequence keep a prefix of each tie class. */
  lemma TakeTiesPrefix<T>(s: seq<T>, n: nat, p: T, atLeast: (T, T) -> bool)
    ensures TiesWith(Take(s, n), p, atLeast) <= TiesWith(s, p, atLeast)
  {
    if n < |s| {
      assert s == s[..n] + s[n..];
      TiesWithAppend(s[..n], s[n..], p, atLeast);
    }
  }

  /**
    `Take(Sort(s), n)`: the `n` best elements of `s`, best first. It has
    `min(n, |s|)` elements drawn from `s`, and any element of `s` left out is
    ranked no higher than every element kept (so when fewer than `n` are
    kept, nothing is left out).
   */
  lemma {:induction false} TopOf<T(!new)>(s: seq<T>, n: nat, atLeast: (T, T) -> bool)
    requires TotalPreorder(atLeast)
    ensures var r := Take(Sort(s, atLeast), n);
      && |r| == (if n < |s| then n else |s|)
      && Ranked(r, atLeast)
      && multiset(r) <= multiset(s)
      && (forall x :: x in r ==> x in s)
      && forall x :: x in s && x !in r ==> |r| == n && forall y :: y in r ==> atLeast(y, x)
  {
    var sorted := Sort(s, atLeast);
    SortRanked(s, atLeast);
    var r := Take(sorted, n);
    assert multiset(r) <= multiset(sorted) by {
      if n < |sorted| {
        assert sorted == r + sorted[n..];
      }
    }
    forall x | x in r ensures x in s {
      assert x in multiset(r);
    }
    forall x | x in s && x !in r ensures |r| == n && forall y :: y in r ==> atLeast(y, x) {
      assert x in multiset(s);
      assert x in sorted;
      LeftOutOfTake(sorted, n, x, atLeast);
    }
  }

  /** In a ranked sequence, an element cut off by `Take` follows every element kept. */
  lemma LeftOutOfTake<T>(sorted: seq<T>, n: nat, x: T, atLeast: (T, T) -> bool)
    requires Ranked(sorted, atLeast) && x in sorted && x !in Take(sorted, n)
    ensures |Take(sorted, n)| == n && forall y :: y in Take(sorted, n) ==> atLeast(y, x)
  {
    var r := Take(sorted, n);
    var k :| 0 <= k < |sorted| && sorted[k] == x;
    assert k >= |r|;
    forall y | y in r ensures atLeast(y, x) {
      var i :| 0 <= i < |r| && r[i] == y;
      assert sorted[i] == y;
    }
  }
}
