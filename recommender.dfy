/**
  The recommendation part of myapp/views.py: `_personalized_recommendations`,
  `_hot_recommendations` and the fallback choice of `recommend_view` and
  `recommend_api`.

  The database is an explicit catalog (`seq<Movie>`) and action table
  (`seq<UserAction>`). A queryset `order_by(...)[:n]` is `Take(Sort(...), n)`;
  NULL sorts below every value, as in MySQL.
 */
module Recommender {
  import opened Wrappers
  import opened Models
  import opened Text
  import opened Ranking
  import opened Counting

  /** How many recent actions the recommender reads. */
  const HistoryWindow: nat := 200
  /** How many types and how many actors it keeps. */
  const TopCount: nat := 5
  const DefaultLimit: nat := 24
  /** `recommend_view` asks for 18 movies, `recommend_api` for 30. */
  const ViewLimit: nat := 18
  const ApiLimit: nat := 30

  // ---------------------------------------------------------------------------
  // Orderings

  /** `a >= b` on a nullable score, NULL lowest. */
  predicate ScoreAtLeast(a: Option<real>, b: Option<real>) {
    b.None? || (a.Some? && a.value >= b.value)
  }

  predicate DateLe(a: Date, b: Date) {
    a.year < b.year || (a.year == b.year && (a.month < b.month || (a.month == b.month && a.day <= b.day)))
  }

  /** `a >= b` on a nullable date, NULL lowest. */
  predicate DateAtLeast(a: Option<Date>, b: Option<Date>) {
    b.None? || (a.Some? && DateLe(b.value, a.value))
  }

  /** `order_by("-score", "-date")`: higher score first, then later date. */
  predicate HotOrder(a: Movie, b: Movie) {
    (ScoreAtLeast(a.score, b.score) && a.score != b.score)
    || (a.score == b.score && DateAtLeast(a.date, b.date))
  }

  lemma HotOrderIsTotal()
    ensures TotalPreorder(HotOrder)
  {
    forall x: Movie, y: Movie, z: Movie | HotOrder(x, y) && HotOrder(y, z) ensures HotOrder(x, z) {
      if x.score == y.score && y.score == z.score {
        assert DateAtLeast(x.date, z.date);
      }
    }
  }

  /** `order_by("-updated_at")`: most recently saved first. */
  predicate NewerOrSame(a: UserAction, b: UserAction) {
    a.updatedAt >= b.updatedAt
  }

  lemma NewerOrSameIsTotal()
    ensures TotalPreorder(NewerOrSame)
  {
  }

  // ---------------------------------------------------------------------------
  // The user's recent history

  function MovieById(catalog: seq<Movie>, id: MovieId): (r: Option<Movie>)
    ensures r.Some? ==> r.value in catalog && r.value.id == id
    ensures r.None? ==> forall m :: m in catalog ==> m.id != id
  {
    if catalog == [] then None
    else if catalog[0].id == id then Some(catalog[0])
    else MovieById(catalog[1..], id)
  }

  /**
    `UserAction.objects.filter(user=user).select_related("movie")`: the user's
    rows that join with a catalog movie (an inner join).
   */
  function UserActions(rows: seq<UserAction>, catalog: seq<Movie>, user: UserId): (r: seq<UserAction>)
    ensures forall a :: a in r <==> a in rows && a.user == user && MovieById(catalog, a.movie).Some?
  {
    if rows == [] then []
    else
      var rest := UserActions(rows[1..], catalog, user);
      assert rows == [rows[0]] + rows[1..];
      if rows[0].user == user && MovieById(catalog, rows[0].movie).Some? then [rows[0]] + rest else rest
  }

  /** `.order_by("-updated_at")[:200]` */
  function RecentActions(rows: seq<UserAction>, catalog: seq<Movie>, user: UserId): seq<UserAction> {
    Take(Sort(UserActions(rows, catalog, user), NewerOrSame), HistoryWindow)
  }

  /** `action.movie` for each action. */
  function MoviesOf(actions: seq<UserAction>, catalog: seq<Movie>): (ms: seq<Movie>)
    requires forall a :: a in actions ==> MovieById(catalog, a.movie).Some?
    ensures |ms| == |actions|
    ensures forall i :: 0 <= i < |ms| ==> ms[i] == MovieById(catalog, actions[i].movie).value
  {
    if actions == [] then [] else [MovieById(catalog, actions[0].movie).value] + MoviesOf(actions[1..], catalog)
  }

  /** The movies of the user's 200 most recent actions, newest first. */
  function History(rows: seq<UserAction>, catalog: seq<Movie>, user: UserId): seq<Movie> {
    RecentActionsJoin(rows, catalog, user);
    MoviesOf(RecentActions(rows, catalog, user), catalog)
  }

  lemma RecentActionsJoin(rows: seq<UserAction>, catalog: seq<Movie>, user: UserId)
    ensures forall a :: a in RecentActions(rows, catalog, user) ==>
      a in UserActions(rows, catalog, user) && MovieById(catalog, a.movie).Some?
  {
    var mine := UserActions(rows, catalog, user);
    var sorted := Sort(mine, NewerOrSame);
    forall a | a in RecentActions(rows, catalog, user) ensures a in mine {
      assert a in sorted;
      assert a in multiset(sorted);
    }
  }

  /**
    The recent actions are the user's newest ones: at most 200 of them, newest
    first, and any of the user's actions not among them is no newer than every
    one that is.
   */
  lemma RecentActionsAreNewest(rows: seq<UserAction>, catalog: seq<Movie>, user: UserId)
    ensures var recent := RecentActions(rows, catalog, user);
      && |recent| <= HistoryWindow
      && (forall a :: a in recent ==> a in rows && a.user == user)
      && (forall i, j :: 0 <= i < j < |recent| ==> recent[i].updatedAt >= recent[j].updatedAt)
      && forall a :: a in rows && a.user == user && MovieById(catalog, a.movie).Some? && a !in recent ==>
           |recent| == HistoryWindow && forall b :: b in recent ==> b.updatedAt >= a.updatedAt
  {
    NewerOrSameIsTotal();
    var mine := UserActions(rows, catalog, user);
    TopOf(mine, HistoryWindow, NewerOrSame);
    var recent := RecentActions(rows, catalog, user);
    forall a | a in recent ensures a in rows && a.user == user {
      assert a in multiset(recent);
      assert a in mine;
    }
  }

  // ---------------------------------------------------------------------------
  // The tallying loop (lines 44-50), specified left to right

  function Last<T>(s: seq<T>): T
    requires s != []
  {
    s[|s| - 1]
  }

  function Init<T>(s: seq<T>): seq<T>
    requires s != []
  {
    s[..|s| - 1]
  }

  /** `type_counter` after the loop. */
  function TypeCounts(history: seq<Movie>): Counter {
    if history == [] then [] else Update(TypeCounts(Init(history)), SplitTokens(Last(history).movieType))
  }

  /** `actor_counter` after the loop. */
  function ActorCounts(history: seq<Movie>): Counter {
    if history == [] then [] else Update(ActorCounts(Init(history)), SplitTokens(Last(history).actors))
  }

  /** `seen_movie_ids` after the loop. */
  function SeenIds(history: seq<Movie>): set<MovieId> {
    if history == [] then {} else SeenIds(Init(history)) + {Last(history).id}
  }

  /** Every type token of the history, in loop order. */
  function TypeTokens(history: seq<Movie>): seq<string> {
    if history == [] then [] else TypeTokens(Init(history)) + SplitTokens(Last(history).movieType)
  }

  /** Every actor token of the history, in loop order. */
  function ActorTokens(history: seq<Movie>): seq<string> {
    if history == [] then [] else ActorTokens(Init(history)) + SplitTokens(Last(history).actors)
  }

  /**
    The type counter counts each type token exactly as often as it occurs in
    the history, and its entries are distinct and positive.
   */
  lemma {:induction false} TypeCountsCount(history: seq<Movie>, t: string)
    ensures WellFormed(TypeCounts(history))
    ensures CountOf(TypeCounts(history), t) == multiset(TypeTokens(history))[t]
  {
    if history != [] {
      TypeCountsCount(Init(history), t);
      UpdateCounts(TypeCounts(Init(history)), SplitTokens(Last(history).movieType), t);
    }
  }

  /** The same for the actor counter. */
  lemma {:induction false} ActorCountsCount(history: seq<Movie>, t: string)
    ensures WellFormed(ActorCounts(history))
    ensures CountOf(ActorCounts(history), t) == multiset(ActorTokens(history))[t]
  {
    if history != [] {
      ActorCountsCount(Init(history), t);
      UpdateCounts(ActorCounts(Init(history)), SplitTokens(Last(history).actors), t);
    }
  }

  /** The seen set is exactly the ids of the history's movies. */
  lemma {:induction false} SeenIdsAreHistory(history: seq<Movie>)
    ensures forall id :: id in SeenIds(history) <==> exists m :: m in history && m.id == id
  {
    if history != [] {
      SeenIdsAreHistory(Init(history));
      assert history == Init(history) + [Last(history)];
    }
  }

  /** The loop of lines 44-50. */
  method Tally(history: seq<Movie>) returns (types: Counter, actors: Counter, seen: set<MovieId>)
    ensures types == TypeCounts(history)
    ensures actors == ActorCounts(history)
    ensures seen == SeenIds(history)
  {
    types, actors, seen := [], [], {};
    var i := 0;
    while i < |history|
      invariant 0 <= i <= |history|
      invariant types == TypeCounts(history[..i])
      invariant actors == ActorCounts(history[..i])
      invariant seen == SeenIds(history[..i])
    {
      var m := history[i];
      assert Init(history[..i + 1]) == history[..i] && Last(history[..i + 1]) == m;
      seen := seen + {m.id};
      types := Update(types, SplitTokens(m.movieType));
      actors := Update(actors, SplitTokens(m.actors));
      i := i + 1;
    }
    assert history[..i] == history;
  }

  // ---------------------------------------------------------------------------
  // Selection

  /** `[t for t, _ in type_counter.most_common(5)]` */
  function TopTypes(history: seq<Movie>): seq<string> {
    Keys(MostCommon(TypeCounts(history), TopCount))
  }

  /** `[a for a, _ in actor_counter.most_common(5)]` */
  function TopActors(history: seq<Movie>): seq<string> {
    Keys(MostCommon(ActorCounts(history), TopCount))
  }

  /**
    The `Q` filter: the type contains a top type or the actors contain a top
    actor, case-insensitively; an empty `Q()` is no filter at all.
   */
  predicate Qualifies(m: Movie, topTypes: seq<string>, topActors: seq<string>) {
    (topTypes == [] && topActors == [])
    || (exists t :: t in topTypes && IContains(m.movieType, t))
    || (exists a :: a in topActors && IContains(m.actors, a))
  }

  /** `Movie.objects.exclude(id__in=seen).filter(filters)` */
  function Candidates(catalog: seq<Movie>, seen: set<MovieId>, topTypes: seq<string>, topActors: seq<string>): (r: seq<Movie>)
    ensures forall m :: m in r <==> m in catalog && m.id !in seen && Qualifies(m, topTypes, topActors)
  {
    if catalog == [] then []
    else
      var rest := Candidates(catalog[1..], seen, topTypes, topActors);
      assert catalog == [catalog[0]] + catalog[1..];
      if catalog[0].id !in seen && Qualifies(catalog[0], topTypes, topActors) then [catalog[0]] + rest else rest
  }

  /** `_personalized_recommendations(user, limit)`; `None` stands for Python's `None`. */
  function Personalized(rows: seq<UserAction>, catalog: seq<Movie>, user: UserId, limit: nat): Option<seq<Movie>> {
    var history := History(rows, catalog, user);
    if history == [] then None
    else
      var pool := Candidates(catalog, SeenIds(history), TopTypes(history), TopActors(history));
      var picked := Take(Sort(pool, HotOrder), limit);
      if picked == [] then None else Some(picked)
  }

  method PersonalizedRecommendations(rows: seq<UserAction>, catalog: seq<Movie>, user: UserId, limit: nat)
    returns (recs: Option<seq<Movie>>)
    ensures recs == Personalized(rows, catalog, user, limit)
  {
    var history := History(rows, catalog, user);
    if history == [] {
      return None;
    }
    var types, actors, seen := Tally(history);
    var topTypes := Keys(MostCommon(types, TopCount));
    var topActors := Keys(MostCommon(actors, TopCount));
    var picked := Take(Sort(Candidates(catalog, seen, topTypes, topActors), HotOrder), limit);
    recs := if picked == [] then None else Some(picked);
  }

  // ---------------------------------------------------------------------------
  // Properties of the personalised result

  /** A user without actions gets `None`, never an empty list. */
  lemma NoActionsNoRecommendations(rows: seq<UserAction>, catalog: seq<Movie>, user: UserId, limit: nat)
    requires forall a :: a in rows ==> a.user != user
    ensures Personalized(rows, catalog, user, limit) == None
  {
    var mine := UserActions(rows, catalog, user);
    assert forall i :: 0 <= i < |mine| ==> mine[i] in mine;
  }

  /**
    The result is `None` or a non-empty list, and it is `None` exactly when
    the user has no history, the limit is zero, or no movie qualifies.
   */
  lemma NoneWhenNothingQualifies(rows: seq<UserAction>, catalog: seq<Movie>, user: UserId, limit: nat)
    ensures var r := Personalized(rows, catalog, user, limit);
      var history := History(rows, catalog, user);
      && (r.Some? ==> r.value != [])
      && (r.None? <==>
            (|| history == []
             || limit == 0
             || forall m :: m in catalog ==> m.id in SeenIds(history) || !Qualifies(m, TopTypes(history), TopActors(history))))
  {
    var history := History(rows, catalog, user);
    if history != [] {
      var pool := Candidates(catalog, SeenIds(history), TopTypes(history), TopActors(history));
      var picked := Take(Sort(pool, HotOrder), limit);
      assert picked == [] <==> limit == 0 || pool == [];
      if pool != [] {
        assert pool[0] in pool;
      }
    }
  }

  /**
    Every recommended movie is a catalog movie the user has not acted on
    recently, matches a top type or top actor (or no tokens exist at all),
    and the list is at most `limit` long, highest score then latest date first.
   */
  lemma PersonalizedSound(rows: seq<UserAction>, catalog: seq<Movie>, user: UserId, limit: nat)
    ensures var r := Personalized(rows, catalog, user, limit);
      var history := History(rows, catalog, user);
      r.Some? ==>
        && |r.value| <= limit
        && Ranked(r.value, HotOrder)
        && forall m :: m in r.value ==>
             && m in catalog
             && (forall h :: h in history ==> h.id != m.id)
             && Qualifies(m, TopTypes(history), TopActors(history))
  {
    var history := History(rows, catalog, user);
    if history != [] {
      var pool := Candidates(catalog, SeenIds(history), TopTypes(history), TopActors(history));
      HotOrderIsTotal();
      TopOf(pool, limit, HotOrder);
      SeenIdsAreHistory(history);
    }
  }

  /**
    Nothing that qualifies is missed: an unseen qualifying movie is either
    recommended, or the list is full and every movie on it ranks at least as
    high.
   */
  lemma PersonalizedComplete(rows: seq<UserAction>, catalog: seq<Movie>, user: UserId, limit: nat, m: Movie)
    requires History(rows, catalog, user) != [] && limit > 0
    requires m in catalog && m.id !in SeenIds(History(rows, catalog, user))
    requires Qualifies(m, TopTypes(History(rows, catalog, user)), TopActors(History(rows, catalog, user)))
    ensures var r := Personalized(rows, catalog, user, limit);
      r.Some? && (m in r.value || (|r.value| == limit && forall y :: y in r.value ==> HotOrder(y, m)))
  {
    var history := History(rows, catalog, user);
    var pool := Candidates(catalog, SeenIds(history), TopTypes(history), TopActors(history));
    HotOrderIsTotal();
    TopOf(pool, limit, HotOrder);
  }

  /**
    The tokens the filter uses are the five most frequent: each was counted in
    the history, and a type token left out occurs no more often than any kept.
    (The same holds of actors by `ActorCountsCount` and `MostCommonIsTop`.)
   */
  lemma TopTypesAreMostFrequent(history: seq<Movie>, t: string)
    requires t in TypeTokens(history) && t !in TopTypes(history)
    ensures |TopTypes(history)| == TopCount
    ensures forall k :: k in TopTypes(history) ==>
      multiset(TypeTokens(history))[k] >= multiset(TypeTokens(history))[t]
  {
    TypeCountsCount(history, t);
    MostCommonIsTop(TypeCounts(history), TopCount);
    forall k | k in TopTypes(history)
      ensures multiset(TypeTokens(history))[k] >= multiset(TypeTokens(history))[t]
    {
      TypeCountsCount(history, k);
    }
  }

  // ---------------------------------------------------------------------------
  // Hot list and the fallback choice

  /** `_hot_recommendations(limit)` */
  function Hot(catalog: seq<Movie>, limit: nat): seq<Movie> {
    Take(Sort(catalog, HotOrder), limit)
  }

  /** The hot list is the top of the catalog by score, then date. */
  lemma HotIsTop(catalog: seq<Movie>, limit: nat)
    ensures var r := Hot(catalog, limit);
      && |r| == (if limit < |catalog| then limit else |catalog|)
      && Ranked(r, HotOrder)
      && (forall m :: m in r ==> m in catalog)
      && forall m :: m in catalog && m !in r ==> forall y :: y in r ==> HotOrder(y, m)
  {
    HotOrderIsTotal();
    TopOf(catalog, limit, HotOrder);
    var r := Hot(catalog, limit);
    forall m | m in r ensures m in catalog {
      assert m in multiset(r);
    }
  }

  /**
    `recommend_view` / `recommend_api`: personalised recommendations for a
    signed-in user when there are any, the hot list otherwise. `user` is
    `None` for an anonymous visitor.
   */
  method Recommend(rows: seq<UserAction>, catalog: seq<Movie>, user: Option<UserId>, limit: nat)
    returns (recs: seq<Movie>, personalized: bool)
    ensures personalized <==> user.Some? && Personalized(rows, catalog, user.value, limit).Some?
    ensures personalized ==> recs == Personalized(rows, catalog, user.value, limit).value
    ensures !personalized ==> recs == Hot(catalog, limit)
  {
    var p: Option<seq<Movie>> := None;
    personalized := false;
    if user.Some? {
      p := PersonalizedRecommendations(rows, catalog, user.value, limit);
      personalized := p.Some? && |p.value| > 0;
    }
    if p.None? || |p.value| == 0 {
      recs := Hot(catalog, limit);
    } else {
      recs := p.value;
    }
  }

  /** One entry of the `items` list `recommend_api` returns. */
  datatype Item = Item(
    id: MovieId, title: string, score: Option<real>, poster: Option<string>,
    movieType: Option<string>, region: Option<string>, date: Option<Date>)

  function ToItem(m: Movie): Item {
    Item(m.id, m.title, m.score, m.poster, m.movieType, m.region, m.date)
  }

  /** The `items` list: each movie projected to its public fields. */
  function Items(recs: seq<Movie>): (items: seq<Item>)
    ensures |items| == |recs|
    ensures forall i :: 0 <= i < |recs| ==> items[i] == ToItem(recs[i])
  {
    if recs == [] then [] else [ToItem(recs[0])] + Items(recs[1..])
  }

  /** `recommend_api`: at most 30 recommendations, each projected to its public fields. */
  method RecommendApi(rows: seq<UserAction>, catalog: seq<Movie>, user: Option<UserId>)
    returns (personalized: bool, items: seq<Item>)
    ensures personalized <==> user.Some? && Personalized(rows, catalog, user.value, ApiLimit).Some?
    ensures personalized ==> items == Items(Personalized(rows, catalog, user.value, ApiLimit).value)
    ensures !personalized ==> items == Items(Hot(catalog, ApiLimit))
    ensures |items| <= ApiLimit
  {
    var recs;
    recs, personalized := Recommend(rows, catalog, user, ApiLimit);
    if personalized {
      PersonalizedSound(rows, catalog, user.value, ApiLimit);
    }
    items := Items(recs);
  }
}
