/**
  `collections.Counter` as the recommender uses it: `update` with a list of
  tokens, and `most_common(n)`. A counter is a list of (token, count) entries
  in first-insertion order, as a Python dict keeps them.
 */
module Counting {
  import opened Ranking

  type Counter = seq<(string, nat)>

  function Keys(c: Counter): (ks: seq<string>)
    ensures |ks| == |c|
    ensures forall i :: 0 <= i < |c| ==> ks[i] == c[i].0
  {
    if c == [] then [] else [c[0].0] + Keys(c[1..])
  }

  /** Distinct keys, every stored count at least one. */
  predicate WellFormed(c: Counter) {
    && (forall i, j :: 0 <= i < j < |c| ==> c[i].0 != c[j].0)
    && (forall i :: 0 <= i < |c| ==> c[i].1 >= 1)
  }

  /** `c[t]`: zero for a token never counted. */
  function CountOf(c: Counter, t: string): nat {
    if c == [] then 0 else if c[0].0 == t then c[0].1 else CountOf(c[1..], t)
  }

  lemma {:induction false} CountOfEntry(c: Counter, i: nat)
    requires WellFormed(c) && i < |c|
    ensures CountOf(c, c[i].0) == c[i].1
  {
    if i > 0 {
      CountOfEntry(c[1..], i - 1);
    }
  }

  lemma {:induction false} CountOfAbsent(c: Counter, t: string)
    requires t !in Keys(c)
    ensures CountOf(c, t) == 0
  {
    if c != [] {
      assert Keys(c)[0] == c[0].0;
      assert Keys(c[1..]) == Keys(c)[1..];
      CountOfAbsent(c[1..], t);
    }
  }

  lemma CountedIffKey(c: Counter, t: string)
    requires WellFormed(c)
    ensures CountOf(c, t) >= 1 <==> t in Keys(c)
  {
    if t in Keys(c) {
      var i :| 0 <= i < |c| && Keys(c)[i] == t;
      CountOfEntry(c, i);
    } else {
      CountOfAbsent(c, t);
    }
  }

  /** `c[t] += 1`: a new token goes to the end. */
  function Bump(c: Counter, t: string): (r: Counter)
    ensures forall u :: CountOf(r, u) == CountOf(c, u) + (if u == t then 1 else 0)
    ensures Keys(r) == if t in Keys(c) then Keys(c) else Keys(c) + [t]
  {
    if c == [] then [(t, 1)]
    else if c[0].0 == t then
      assert Keys(c)[0] == t;
      [(t, c[0].1 + 1)] + c[1..]
    else
      var rest := Bump(c[1..], t);
      assert Keys(c) == [c[0].0] + Keys(c[1..]);
      assert t in Keys(c) <==> t in Keys(c[1..]);
      var r := [c[0]] + rest;
      assert Keys(r) == [c[0].0] + Keys(rest);
      r
  }

  /** `c[t] += 1` keeps the keys distinct and every count positive. */
  lemma {:induction false} BumpWellFormed(c: Counter, t: string)
    requires WellFormed(c)
    ensures WellFormed(Bump(c, t))
  {
    if c == [] {
    } else if c[0].0 == t {
      var e := (t, c[0].1 + 1);
      TailWellFormed(c);
      assert Bump(c, t) == [e] + c[1..];
      ConsWellFormed(e, c[1..]);
    } else {
      var rest := Bump(c[1..], t);
      TailWellFormed(c);
      BumpWellFormed(c[1..], t);
      BumpAvoidsHead(c, t);
      assert Bump(c, t) == [c[0]] + rest;
      ConsWellFormed(c[0], rest);
    }
  }

  /** Dropping the first entry keeps a counter well formed, and no later entry has its key. */
  lemma TailWellFormed(c: Counter)
    requires WellFormed(c) && c != []
    ensures WellFormed(c[1..])
    ensures forall j :: 0 <= j < |c[1..]| ==> c[1..][j].0 != c[0].0
  {
    forall j | 0 <= j < |c[1..]| ensures c[1..][j].0 != c[0].0 {
      assert c[1..][j] == c[j + 1];
    }
  }

  /** Counting a token other than the first key never adds that key again. */
  lemma BumpAvoidsHead(c: Counter, t: string)
    requires c != [] && c[0].0 != t
    requires forall j :: 0 <= j < |c[1..]| ==> c[1..][j].0 != c[0].0
    ensures forall j :: 0 <= j < |Bump(c[1..], t)| ==> Bump(c[1..], t)[j].0 != c[0].0
  {
    var rest := Bump(c[1..], t);
    assert c[0].0 !in Keys(c[1..]) by {
      forall k | 0 <= k < |c| - 1 ensures Keys(c[1..])[k] != c[0].0 {
        assert Keys(c[1..])[k] == c[1..][k].0;
      }
    }
    forall j | 0 <= j < |rest| ensures rest[j].0 != c[0].0 {
      assert rest[j].0 == Keys(rest)[j];
      assert Keys(rest)[j] in Keys(c[1..]) + [t];
    }
  }

  lemma ConsWellFormed(e: (string, nat), rest: Counter)
    requires WellFormed(rest) && e.1 >= 1
    requires forall j :: 0 <= j < |rest| ==> rest[j].0 != e.0
    ensures WellFormed([e] + rest)
  {
    var r := [e] + rest;
    forall i, j | 0 <= i < j < |r| ensures r[i].0 != r[j].0 {
      assert r[j] == rest[j - 1];
      if i > 0 {
        assert r[i] == rest[i - 1];
      }
    }
    forall i | 0 <= i < |r| ensures r[i].1 >= 1 {
      if i > 0 {
        assert r[i] == rest[i - 1];
      }
    }
  }

  /** `Counter.update(tokens)`: count every token, left to right. */
  function Update(c: Counter, tokens: seq<string>): (r: Counter)
    ensures WellFormed(c) ==> WellFormed(r)
    decreases tokens
  {
    if tokens == [] then c
    else
      assert WellFormed(c) ==> WellFormed(Bump(c, tokens[0])) by {
        if WellFormed(c) {
          BumpWellFormed(c, tokens[0]);
        }
      }
      Update(Bump(c, tokens[0]), tokens[1..])
  }

  /** After `update`, a token's count has grown by its number of occurrences. */
  lemma {:induction false} UpdateCounts(c: Counter, tokens: seq<string>, u: string)
    ensures CountOf(Update(c, tokens), u) == CountOf(c, u) + multiset(tokens)[u]
    decreases tokens
  {
    if tokens != [] {
      var t := tokens[0];
      UpdateCounts(Bump(c, t), tokens[1..], u);
      assert CountOf(Bump(c, t), u) == CountOf(c, u) + (if u == t then 1 else 0);
      assert tokens == [t] + tokens[1..];
      assert multiset(tokens) == multiset{t} + multiset(tokens[1..]);
      assert multiset{t}[u] == if u == t then 1 else 0;
    }
  }

  /** Ordering of `most_common`: higher count first. */
  predicate MoreCommon(a: (string, nat), b: (string, nat)) {
    a.1 >= b.1
  }

  lemma MoreCommonIsTotal()
    ensures TotalPreorder(MoreCommon)
  {
  }

  /** `c.most_common(n)`: stable sort by descending count, then the first `n`. */
  function MostCommon(c: Counter, n: nat): seq<(string, nat)> {
    Take(Sort(c, MoreCommon), n)
  }

  /** The entries of `s` whose count is `v`, in order. */
  function WithCount(s: seq<(string, nat)>, v: nat): seq<(string, nat)> {
    if s == [] then [] else (if s[0].1 == v then [s[0]] else []) + WithCount(s[1..], v)
  }

  lemma {:induction false} WithCountIsTies(s: seq<(string, nat)>, v: nat, k: string)
    ensures WithCount(s, v) == TiesWith(s, (k, v), MoreCommon)
  {
    if s != [] {
      WithCountIsTies(s[1..], v, k);
    }
  }

  /** Entries drawn from a well-formed counter carry that counter's counts. */
  lemma EntriesCounted(c: Counter, m: seq<(string, nat)>)
    requires WellFormed(c) && multiset(m) <= multiset(c)
    ensures forall e :: e in m ==> CountOf(c, e.0) == e.1 >= 1
  {
    forall e | e in m ensures CountOf(c, e.0) == e.1 >= 1 {
      assert e in multiset(m);
      assert e in c;
      var i :| 0 <= i < |c| && c[i] == e;
      CountOfEntry(c, i);
    }
  }

  /**
    `most_common(n)` keeps `min(n, len(c))` tokens that were counted, highest
    count first, and every counted token it leaves out is counted no more
    often than any token it keeps.
   */
  lemma MostCommonIsTop(c: Counter, n: nat)
    requires WellFormed(c)
    ensures var top := Keys(MostCommon(c, n));
      && |top| == (if n < |c| then n else |c|)
      && (forall k :: k in top ==> CountOf(c, k) >= 1)
      && (forall i, j :: 0 <= i < j < |top| ==> CountOf(c, top[i]) >= CountOf(c, top[j]))
      && (forall k :: CountOf(c, k) >= 1 && k !in top ==>
            |top| == n && forall j :: j in top ==> CountOf(c, j) >= CountOf(c, k))
  {
    var m := MostCommon(c, n);
    var top := Keys(m);
    TopKept(c, n);
    forall k | CountOf(c, k) >= 1 && k !in top
      ensures |top| == n && forall j :: j in top ==> CountOf(c, j) >= CountOf(c, k)
    {
      LeftOutRanksLower(c, n, k);
      TopKept(c, n);
      forall j | j in top ensures CountOf(c, j) >= CountOf(c, k) {
        var x :| 0 <= x < |top| && top[x] == j;
        assert m[x] in m;
      }
    }
  }

  lemma TopKept(c: Counter, n: nat)
    requires WellFormed(c)
    ensures var m := MostCommon(c, n);
      && |m| == (if n < |c| then n else |c|)
      && (forall e :: e in m ==> CountOf(c, e.0) == e.1 >= 1)
      && (forall k :: k in Keys(m) ==> CountOf(c, k) >= 1)
      && (forall i, j :: 0 <= i < j < |m| ==> CountOf(c, Keys(m)[i]) >= CountOf(c, Keys(m)[j]))
  {
    MoreCommonIsTotal();
    var m := MostCommon(c, n);
    var top := Keys(m);
    TopOf(c, n, MoreCommon);
    EntriesCounted(c, m);
    forall k | k in top ensures CountOf(c, k) >= 1 {
      var i :| 0 <= i < |top| && top[i] == k;
      assert m[i] in m;
    }
    forall i, j | 0 <= i < j < |top| ensures CountOf(c, top[i]) >= CountOf(c, top[j]) {
      assert m[i] in m && m[j] in m;
    }
  }

  lemma LeftOutRanksLower(c: Counter, n: nat, k: string)
    requires WellFormed(c) && CountOf(c, k) >= 1 && k !in Keys(MostCommon(c, n))
    ensures |MostCommon(c, n)| == n
    ensures forall e :: e in MostCommon(c, n) ==> e.1 >= CountOf(c, k)
  {
    MoreCommonIsTotal();
    var m := MostCommon(c, n);
    TopOf(c, n, MoreCommon);
    CountedIffKey(c, k);
    var i :| 0 <= i < |c| && Keys(c)[i] == k;
    CountOfEntry(c, i);
    assert c[i] in c;
    assert c[i] !in m;
  }

  /**
    Ties are broken by first appearance: among tokens with the same count,
    `most_common` keeps a prefix of them in the order they were first counted.
   */
  lemma MostCommonTieBreak(c: Counter, n: nat, v: nat)
    ensures WithCount(MostCommon(c, n), v) <= WithCount(c, v)
  {
    MoreCommonIsTotal();
    var p := ("", v);
    WithCountIsTies(MostCommon(c, n), v, "");
    WithCountIsTies(Sort(c, MoreCommon), v, "");
    WithCountIsTies(c, v, "");
    TakeTiesPrefix(Sort(c, MoreCommon), n, p, MoreCommon);
    SortStable(c, p, MoreCommon);
  }
}
