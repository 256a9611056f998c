/**
  The action-row handlers of myapp/views.py: `toggle_favorite`,
  `toggle_favorite_api`, `rate_movie` and `rate_movie_api`. Each fetches or
  creates the single row for the (user, movie) pair, changes one field and
  saves it, which also stamps `updated_at`.
 */
module ActionViews {
  import opened Wrappers
  import opened Models

  function Min(a: real, b: real): real { if a <= b then a else b }
  function Max(a: real, b: real): real { if a >= b then a else b }

  /** `max(0, min(10, rating))` */
  function Clamp(rating: real): (r: real)
    ensures 0.0 <= r <= 10.0
    ensures 0.0 <= rating <= 10.0 ==> r == rating
    ensures rating < 0.0 ==> r == 0.0
    ensures rating > 10.0 ==> r == 10.0
  {
    Max(0.0, Min(10.0, rating))
  }

  predicate RatingsInRange(rows: seq<UserAction>) {
    forall i :: 0 <= i < |rows| && rows[i].rating.Some? ==> 0.0 <= rows[i].rating.value <= 10.0
  }

  /** The index of the row for (user, movie), if there is one. */
  function IndexOf(rows: seq<UserAction>, user: UserId, movie: MovieId): (r: Option<nat>)
    ensures r.Some? ==> r.value < |rows| && rows[r.value].user == user && rows[r.value].movie == movie
    ensures r.None? ==> forall i :: 0 <= i < |rows| ==> rows[i].user != user || rows[i].movie != movie
  {
    if rows == [] then None
    else if rows[0].user == user && rows[0].movie == movie then Some(0)
    else
      var r := IndexOf(rows[1..], user, movie);
      if r.Some? then Some(r.value + 1) else None
  }

  /** `UserAction.objects.filter(user=user, movie=movie).first()` */
  function Lookup(rows: seq<UserAction>, user: UserId, movie: MovieId): Option<UserAction> {
    var i := IndexOf(rows, user, movie);
    if i.Some? then Some(rows[i.value]) else None
  }

  lemma LookupUnique(rows: seq<UserAction>, k: nat)
    requires UniquePairs(rows) && k < |rows|
    ensures Lookup(rows, rows[k].user, rows[k].movie) == Some(rows[k])
  {
    var i := IndexOf(rows, rows[k].user, rows[k].movie);
    assert i.Some?;
  }

  /** The row `get_or_create` returns: the stored one, or a new default row. */
  function RowFor(rows: seq<UserAction>, user: UserId, movie: MovieId, now: int): UserAction {
    var found := Lookup(rows, user, movie);
    if found.Some? then found.value else NewAction(user, movie, now)
  }

  /** `get_or_create(user=user, movie=movie)`: the table afterwards and the row's index. */
  function WithRow(rows: seq<UserAction>, user: UserId, movie: MovieId, now: int): (seq<UserAction>, nat) {
    var i := IndexOf(rows, user, movie);
    if i.Some? then (rows, i.value) else (rows + [NewAction(user, movie, now)], |rows|)
  }

  /** The table after saving `row` at the pair's index (creating the row first when absent). */
  function Saved(rows: seq<UserAction>, user: UserId, movie: MovieId, now: int, row: UserAction): seq<UserAction> {
    var (t, i) := WithRow(rows, user, movie, now);
    if i < |t| then t[i := row] else t
  }

  /** `action.is_favorite = not action.is_favorite; action.save()` */
  function Toggled(rows: seq<UserAction>, user: UserId, movie: MovieId, now: int): seq<UserAction> {
    var row := RowFor(rows, user, movie, now);
    Saved(rows, user, movie, now, row.(isFavorite := !row.isFavorite, updatedAt := now))
  }

  /** `action.rating = max(0, min(10, rating)); action.save()` */
  function Rated(rows: seq<UserAction>, user: UserId, movie: MovieId, rating: real, now: int): seq<UserAction> {
    var row := RowFor(rows, user, movie, now);
    Saved(rows, user, movie, now, row.(rating := Some(Clamp(rating)), updatedAt := now))
  }

  /**
    Saving a row for the pair keeps one row per (user, movie), makes that row
    the one stored, and leaves every other pair's row as it was.
   */
  lemma SavedSpec(rows: seq<UserAction>, user: UserId, movie: MovieId, now: int, row: UserAction)
    requires UniquePairs(rows) && row.user == user && row.movie == movie
    ensures var after := Saved(rows, user, movie, now, row);
      && UniquePairs(after)
      && Lookup(after, user, movie) == Some(row)
      && |after| == |rows| + (if Lookup(rows, user, movie).Some? then 0 else 1)
      && forall u, m :: (u, m) != (user, movie) ==> Lookup(after, u, m) == Lookup(rows, u, m)
  {
    var after := Saved(rows, user, movie, now, row);
    var (t, i) := WithRow(rows, user, movie, now);
    assert UniquePairs(after) by {
      forall a, b | 0 <= a < b < |after|
        ensures (after[a].user, after[a].movie) != (after[b].user, after[b].movie)
      {
        assert (after[a].user, after[a].movie) == (t[a].user, t[a].movie);
        assert (after[b].user, after[b].movie) == (t[b].user, t[b].movie);
      }
    }
    LookupUnique(after, i);
    forall u, m | (u, m) != (user, movie) ensures Lookup(after, u, m) == Lookup(rows, u, m) {
      var j := IndexOf(rows, u, m);
      var k := IndexOf(after, u, m);
      if j.Some? {
        LookupUnique(after, j.value);
      }
    }
  }

  /**
    A toggle flips `is_favorite` on the pair's row (a new row starts from
    `false`), stamps `updated_at`, and changes no other field and no other row.
   */
  lemma ToggleFlips(rows: seq<UserAction>, user: UserId, movie: MovieId, now: int)
    requires UniquePairs(rows)
    ensures var before := RowFor(rows, user, movie, now);
      var after := Toggled(rows, user, movie, now);
      && UniquePairs(after)
      && Lookup(after, user, movie) == Some(before.(isFavorite := !before.isFavorite, updatedAt := now))
      && forall u, m :: (u, m) != (user, movie) ==> Lookup(after, u, m) == Lookup(rows, u, m)
  {
    var row := RowFor(rows, user, movie, now);
    SavedSpec(rows, user, movie, now, row.(isFavorite := !row.isFavorite, updatedAt := now));
  }

  /** Two toggles restore the favourite flag and every other field but `updated_at`. */
  lemma ToggleTwice(rows: seq<UserAction>, user: UserId, movie: MovieId, t1: int, t2: int)
    requires UniquePairs(rows)
    ensures var before := RowFor(rows, user, movie, t1);
      Lookup(Toggled(Toggled(rows, user, movie, t1), user, movie, t2), user, movie)
        == Some(before.(updatedAt := t2))
  {
    ToggleFlips(rows, user, movie, t1);
    ToggleFlips(Toggled(rows, user, movie, t1), user, movie, t2);
  }

  /**
    The first toggle on a pair with no row creates the default row (no
    rating, no comment, not a favourite) and flips it to a favourite.
   */
  lemma FirstToggleFavorites(rows: seq<UserAction>, user: UserId, movie: MovieId, now: int)
    requires UniquePairs(rows) && Lookup(rows, user, movie).None?
    ensures Lookup(Toggled(rows, user, movie, now), user, movie)
      == Some(UserAction(user, movie, None, None, true, now, now))
  {
    ToggleFlips(rows, user, movie, now);
  }

  /**
    A rating is stored clamped into [0, 10], an in-range rating unchanged; the
    row's other fields and every other row stay as they were.
   */
  lemma RateClamps(rows: seq<UserAction>, user: UserId, movie: MovieId, rating: real, now: int)
    requires UniquePairs(rows) && RatingsInRange(rows)
    ensures var before := RowFor(rows, user, movie, now);
      var after := Rated(rows, user, movie, rating, now);
      && UniquePairs(after)
      && RatingsInRange(after)
      && Lookup(after, user, movie) == Some(before.(rating := Some(Clamp(rating)), updatedAt := now))
      && (0.0 <= rating <= 10.0 ==> Lookup(after, user, movie).value.rating == Some(rating))
      && forall u, m :: (u, m) != (user, movie) ==> Lookup(after, u, m) == Lookup(rows, u, m)
  {
    var row := RowFor(rows, user, movie, now);
    SavedSpec(rows, user, movie, now, row.(rating := Some(Clamp(rating)), updatedAt := now));
  }

  /** What a handler reports: the redirect message or the JSON body, or the error status. */
  datatype Outcome =
    | Favorited(isFavorite: bool)
    | RatingSaved(rating: real)
    | InvalidRating          // "评分格式不正确" / 400 {"error": "invalid rating"}
    | NotFound               // get_object_or_404
    | MethodNotAllowed       // 405 for a non-POST API call

  /** The action table: at most one row per (user, movie), every rating in [0, 10]. */
  class ActionTable {
    var rows: seq<UserAction>

    ghost predicate Valid()
      reads this
    {
      UniquePairs(rows) && RatingsInRange(rows)
    }

    constructor ()
      ensures Valid() && rows == []
    {
      rows := [];
    }

    /** `UserAction.objects.get_or_create(user=user, movie=movie)` */
    method GetOrCreate(user: UserId, movie: MovieId, now: int) returns (i: nat)
      requires Valid()
      modifies this
      ensures Valid()
      ensures (rows, i) == WithRow(old(rows), user, movie, now)
      ensures i < |rows| && rows[i] == RowFor(old(rows), user, movie, now)
    {
      var found := IndexOf(rows, user, movie);
      if found.Some? {
        i := found.value;
      } else {
        rows := rows + [NewAction(user, movie, now)];
        i := |rows| - 1;
        assert UniquePairs(rows) by {
          forall a, b | 0 <= a < b < |rows| ensures (rows[a].user, rows[a].movie) != (rows[b].user, rows[b].movie) {
            if b == |rows| - 1 {
              assert rows[a] == old(rows)[a];
            } else {
              assert rows[a] == old(rows)[a] && rows[b] == old(rows)[b];
            }
          }
        }
      }
    }

    /** Write `row` back at index `i` (`action.save()`). */
    method Save(i: nat, row: UserAction)
      requires Valid() && i < |rows| && rows[i].user == row.user && rows[i].movie == row.movie
      requires row.rating.Some? ==> 0.0 <= row.rating.value <= 10.0
      modifies this
      ensures Valid()
      ensures rows == old(rows)[i := row]
    {
      rows := rows[i := row];
      assert UniquePairs(rows) by {
        forall a, b | 0 <= a < b < |rows| ensures (rows[a].user, rows[a].movie) != (rows[b].user, rows[b].movie) {
          assert (rows[a].user, rows[a].movie) == (old(rows)[a].user, old(rows)[a].movie);
          assert (rows[b].user, rows[b].movie) == (old(rows)[b].user, old(rows)[b].movie);
        }
      }
    }

    /** `toggle_favorite`: the movie must exist; then flip the flag. */
    method ToggleFavorite(user: UserId, movie: MovieId, catalog: set<MovieId>, now: int) returns (out: Outcome)
      requires Valid()
      modifies this
      ensures Valid()
      ensures movie !in catalog ==> out == NotFound && rows == old(rows)
      ensures movie in catalog ==>
        && rows == Toggled(old(rows), user, movie, now)
        && out == Favorited(!RowFor(old(rows), user, movie, now).isFavorite)
    {
      if movie !in catalog {
        return NotFound;
      }
      var i := GetOrCreate(user, movie, now);
      var action := rows[i];
      action := action.(isFavorite := !action.isFavorite, updatedAt := now);
      Save(i, action);
      out := Favorited(action.isFavorite);
    }

    /** `toggle_favorite_api`: only POST is allowed. */
    method ToggleFavoriteApi(isPost: bool, user: UserId, movie: MovieId, catalog: set<MovieId>, now: int)
      returns (out: Outcome)
      requires Valid()
      modifies this
      ensures Valid()
      ensures !isPost ==> out == MethodNotAllowed && rows == old(rows)
      ensures isPost && movie !in catalog ==> out == NotFound && rows == old(rows)
      ensures isPost && movie in catalog ==>
        && rows == Toggled(old(rows), user, movie, now)
        && out == Favorited(!RowFor(old(rows), user, movie, now).isFavorite)
    {
      if !isPost {
        return MethodNotAllowed;
      }
      out := ToggleFavorite(user, movie, catalog, now);
    }

    /**
      `rate_movie`: the movie must exist and the posted rating must parse as a
      float (`rating` is `None` when `float(...)` raises); an unparsable rating
      leaves the table untouched.
     */
    method RateMovie(user: UserId, movie: MovieId, catalog: set<MovieId>, rating: Option<real>, now: int)
      returns (out: Outcome)
      requires Valid()
      modifies this
      ensures Valid()
      ensures movie !in catalog ==> out == NotFound && rows == old(rows)
      ensures movie in catalog && rating.None? ==> out == InvalidRating && rows == old(rows)
      ensures movie in catalog && rating.Some? ==>
        && rows == Rated(old(rows), user, movie, rating.value, now)
        && out == RatingSaved(Clamp(rating.value))
    {
      if movie !in catalog {
        return NotFound;
      }
      if rating.None? {
        return InvalidRating;
      }
      var i := GetOrCreate(user, movie, now);
      var action := rows[i];
      action := action.(rating := Some(Clamp(rating.value)), updatedAt := now);
      Save(i, action);
      out := RatingSaved(Clamp(rating.value));
    }

    /** `rate_movie_api`: POST only; clamps before fetching the row, to the same effect. */
    method RateMovieApi(isPost: bool, user: UserId, movie: MovieId, catalog: set<MovieId>, rating: Option<real>, now: int)
      returns (out: Outcome)
      requires Valid()
      modifies this
      ensures Valid()
      ensures !isPost ==> out == MethodNotAllowed && rows == old(rows)
      ensures isPost && movie !in catalog ==> out == NotFound && rows == old(rows)
      ensures isPost && movie in catalog && rating.None? ==> out == InvalidRating && rows == old(rows)
      ensures isPost && movie in catalog && rating.Some? ==>
        && rows == Rated(old(rows), user, movie, rating.value, now)
        && out == RatingSaved(Clamp(rating.value))
    {
      if !isPost {
        return MethodNotAllowed;
      }
      if movie !in catalog {
        return NotFound;
      }
      if rating.None? {
        return InvalidRating;
      }
      var clamped := Clamp(rating.value);
      var i := GetOrCreate(user, movie, now);
      var action := rows[i];
      action := action.(rating := Some(clamped), updatedAt := now);
      Save(i, action);
      out := RatingSaved(action.rating.value);
    }
  }
}
