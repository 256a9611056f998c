/**
  The catalog listing of myapp/views.py: `movie_list`'s filters and its
  whitelisted sort key, and `_querystring_without_page`, which rebuilds the
  query string for pagination links.
 */
module Browse {
  import opened Wrappers
  import opened Models
  import opened Text
  import opened Ranking
  import Recommender

  /** The sort keys `movie_list` accepts. */
  const SortKeys: seq<string> := ["-date", "-score", "date", "score"]
  const DefaultSort: string := "-date"

  /**
    `request.GET.get("sort", "-date")` followed by the whitelist: a missing or
    unknown key becomes `-date`, an accepted key is kept.
   */
  function SortKey(sort: Option<string>): (key: string)
    ensures key in SortKeys
    ensures sort.Some? && sort.value in SortKeys ==> key == sort.value
    ensures (sort.None? || sort.value !in SortKeys) ==> key == DefaultSort
  {
    var requested := if sort.Some? then sort.value else DefaultSort;
    if requested in SortKeys then requested else DefaultSort
  }

  /**
    `order_by(key)` for an accepted key: a leading `-` means descending;
    NULL sorts lowest.
   */
  function ListOrder(key: string): (Movie, Movie) -> bool {
    if key == "-score" then (a: Movie, b: Movie) => Recommender.ScoreAtLeast(a.score, b.score)
    else if key == "score" then (a: Movie, b: Movie) => Recommender.ScoreAtLeast(b.score, a.score)
    else if key == "date" then (a: Movie, b: Movie) => Recommender.DateAtLeast(b.date, a.date)
    else (a: Movie, b: Movie) => Recommender.DateAtLeast(a.date, b.date)
  }

  lemma ListOrderIsTotal(key: string)
    ensures TotalPreorder(ListOrder(key))
  {
  }

  /** The keyword, region and type filters of `movie_list`; Python skips a `None` or `""` filter value alike. */
  predicate Matches(m: Movie, keyword: Option<string>, region: Option<string>, mtype: Option<string>) {
    && (Filled(keyword) ==>
          IContains(Some(m.title), keyword.value) || IContains(m.actors, keyword.value)
          || IContains(m.summary, keyword.value))
    && (Filled(region) ==> IContains(m.region, region.value))
    && (Filled(mtype) ==> IContains(m.movieType, mtype.value))
  }

  function Filtered(catalog: seq<Movie>, keyword: Option<string>, region: Option<string>, mtype: Option<string>)
    : (r: seq<Movie>)
    ensures multiset(r) <= multiset(catalog)
    ensures forall m :: m in r <==> m in catalog && Matches(m, keyword, region, mtype)
    ensures forall m :: multiset(r)[m] == if Matches(m, keyword, region, mtype) then multiset(catalog)[m] else 0
  {
    if catalog == [] then []
    else
      var rest := Filtered(catalog[1..], keyword, region, mtype);
      assert catalog == [catalog[0]] + catalog[1..];
      if Matches(catalog[0], keyword, region, mtype) then [catalog[0]] + rest else rest
  }

  /** The ordered queryset `movie_list` paginates, and the sort key it reports. */
  function MovieList(catalog: seq<Movie>, keyword: Option<string>, region: Option<string>,
                     mtype: Option<string>, sort: Option<string>): (seq<Movie>, string) {
    var key := SortKey(sort);
    (Sort(Filtered(catalog, keyword, region, mtype), ListOrder(key)), key)
  }

  /**
    The listing holds exactly the catalog movies that pass every given filter,
    each as often as in the catalog, ordered by the accepted sort key.
   */
  lemma MovieListSpec(catalog: seq<Movie>, keyword: Option<string>, region: Option<string>,
                      mtype: Option<string>, sort: Option<string>)
    ensures var (movies, key) := MovieList(catalog, keyword, region, mtype, sort);
      && key in SortKeys
      && multiset(movies) <= multiset(catalog)
      && (forall m :: m in movies <==> m in catalog && Matches(m, keyword, region, mtype))
      && (forall m :: multiset(movies)[m] == if Matches(m, keyword, region, mtype) then multiset(catalog)[m] else 0)
      && Ranked(movies, ListOrder(key))
  {
    var key := SortKey(sort);
    ListOrderIsTotal(key);
    SortRanked(Filtered(catalog, keyword, region, mtype), ListOrder(key));
    var movies := MovieList(catalog, keyword, region, mtype, sort).0;
    forall m ensures m in movies <==> m in Filtered(catalog, keyword, region, mtype) {
      assert m in movies <==> m in multiset(movies);
    }
  }

  /** `sort=score` sorts ascending; the descending order is `-score`. */
  lemma ScoreSortsAscending(catalog: seq<Movie>, i: nat, j: nat)
    requires var movies := MovieList(catalog, None, None, None, Some("score")).0; i < j < |movies|
    ensures var movies := MovieList(catalog, None, None, None, Some("score")).0;
      Recommender.ScoreAtLeast(movies[j].score, movies[i].score)
  {
    MovieListSpec(catalog, None, None, None, Some("score"));
  }

  // ---------------------------------------------------------------------------
  // `_querystring_without_page`

  /** `request.GET`: each key once, with its values in order. */
  type QueryDict = seq<(string, seq<string>)>

  /** `params.pop("page", None)` */
  function WithoutPage(params: QueryDict): (r: QueryDict)
    ensures forall i :: 0 <= i < |r| ==> r[i].0 != "page"
    ensures forall e :: e in r <==> e in params && e.0 != "page"
  {
    if params == [] then []
    else
      var rest := WithoutPage(params[1..]);
      assert params == [params[0]] + params[1..];
      if params[0].0 == "page" then rest else [params[0]] + rest
  }

  /** Every (key, value) pair, key by key. */
  function Pairs(params: QueryDict): seq<(string, string)> {
    if params == [] then []
    else seq(|params[0].1|, i requires 0 <= i < |params[0].1| => (params[0].0, params[0].1[i])) + Pairs(params[1..])
  }

  /** `k=v` pairs joined by `&`; `quote` is the percent-encoder. */
  function UrlEncode(pairs: seq<(string, string)>, quote: string -> string): string {
    if pairs == [] then []
    else
      var field := quote(pairs[0].0) + "=" + quote(pairs[0].1);
      if |pairs| == 1 then field else field + "&" + UrlEncode(pairs[1..], quote)
  }

  lemma UrlEncodeEmpty(pairs: seq<(string, string)>, quote: string -> string)
    ensures UrlEncode(pairs, quote) == [] <==> pairs == []
  {
  }

  /**
    The query string without its `page` parameter, prefixed by `&` so that it
    can follow `?page=N`; empty when nothing but `page` was given.
   */
  function QuerystringWithoutPage(params: QueryDict, quote: string -> string): (r: string)
    ensures r == [] <==> Pairs(WithoutPage(params)) == []
    ensures r != [] ==> r[0] == '&'
  {
    var qs := UrlEncode(Pairs(WithoutPage(params)), quote);
    UrlEncodeEmpty(Pairs(WithoutPage(params)), quote);
    if qs != [] then "&" + qs else ""
  }

  /** No `page` pair is ever encoded into the result. */
  lemma {:induction false} PageNeverKept(params: QueryDict)
    ensures forall p :: p in Pairs(WithoutPage(params)) ==> p.0 != "page"
  {
    PairsKeys(WithoutPage(params));
  }

  lemma {:induction false} PairsKeys(q: QueryDict)
    ensures forall p :: p in Pairs(q) ==> exists e :: e in q && e.0 == p.0
  {
    if q != [] {
      PairsKeys(q[1..]);
      var head := seq(|q[0].1|, i requires 0 <= i < |q[0].1| => (q[0].0, q[0].1[i]));
      forall p | p in Pairs(q) ensures exists e :: e in q && e.0 == p.0 {
        if p in head {
          assert q[0] in q;
        } else {
          assert p in Pairs(q[1..]);
          var e :| e in q[1..] && e.0 == p.0;
          assert e in q;
        }
      }
    }
  }

  /** Adding or dropping `page` entries does not change the query string. */
  lemma {:induction false} PageIgnored(a: QueryDict, values: seq<string>, b: QueryDict, quote: string -> string)
    ensures QuerystringWithoutPage(a + [("page", values)] + b, quote) == QuerystringWithoutPage(a + b, quote)
  {
    WithoutPageAppend(a, [("page", values)] + b);
    WithoutPageAppend([("page", values)], b);
    WithoutPageAppend(a, b);
    assert a + [("page", values)] + b == a + ([("page", values)] + b);
  }

  lemma {:induction false} WithoutPageAppend(a: QueryDict, b: QueryDict)
    ensures WithoutPage(a + b) == WithoutPage(a) + WithoutPage(b)
  {
    if a == [] {
      assert a + b == b;
    } else {
      assert (a + b)[1..] == a[1..] + b;
      WithoutPageAppend(a[1..], b);
    }
  }
}
