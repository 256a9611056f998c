/**
  The `sync_cover_to_poster` management command
  (myapp/management/commands/sync_cover_to_poster.py): one pass over every
  movie that copies `cover_url` into an empty `poster` and counts the
  movies it updated. The movie table is an array updated in place.
 */
module SyncPoster {
  import opened Wrappers
  import opened Models

  /** `m.cover_url and not m.poster` */
  predicate NeedsSync(m: Movie) {
    Filled(m.coverUrl) && !Filled(m.poster)
  }

  /** One movie after the pass: only `poster` is ever written, and only when the guard holds. */
  function Synced(m: Movie): (r: Movie)
    ensures NeedsSync(m) ==> r == m.(poster := m.coverUrl) && Filled(r.poster)
    ensures !NeedsSync(m) ==> r == m
  {
    if NeedsSync(m) then m.(poster := m.coverUrl) else m
  }

  /** The whole table after the pass. */
  function SyncAll(ms: seq<Movie>): (r: seq<Movie>)
    ensures |r| == |ms| && forall i :: 0 <= i < |ms| ==> r[i] == Synced(ms[i])
  {
    if ms == [] then [] else SyncAll(ms[..|ms| - 1]) + [Synced(ms[|ms| - 1])]
  }

  /** How many movies the guard selects. */
  function CountNeeding(ms: seq<Movie>): (n: nat)
    ensures n <= |ms|
  {
    if ms == [] then 0 else CountNeeding(ms[..|ms| - 1]) + (if NeedsSync(ms[|ms| - 1]) then 1 else 0)
  }

  /** How many positions two equally long tables differ at. */
  function CountChanged(before: seq<Movie>, after: seq<Movie>): nat
    requires |before| == |after|
  {
    if before == [] then 0
    else CountChanged(before[..|before| - 1], after[..|after| - 1])
         + (if before[|before| - 1] != after[|after| - 1] then 1 else 0)
  }

  /** `Command.handle` */
  method SyncCoverToPoster(movies: array<Movie>) returns (updated: nat)
    modifies movies
    ensures movies[..] == SyncAll(old(movies[..]))
    ensures updated == CountNeeding(old(movies[..]))
  {
    updated := 0;
    var i := 0;
    while i < movies.Length
      invariant 0 <= i <= movies.Length
      invariant movies[..i] == SyncAll(old(movies[..i]))
      invariant movies[i..] == old(movies[i..])
      invariant updated == CountNeeding(old(movies[..i]))
    {
      var m := movies[i];
      assert old(movies[..i + 1]) == old(movies[..i]) + [m] by {
        assert old(movies[..i + 1])[i] == old(movies[i..])[0];
      }
      if m.coverUrl.Some? && m.coverUrl.value != [] && !(m.poster.Some? && m.poster.value != []) {
        movies[i] := m.(poster := m.coverUrl);
        updated := updated + 1;
      }
      i := i + 1;
    }
    assert movies[..] == movies[..movies.Length];
    assert old(movies[..]) == old(movies[..movies.Length]);
  }

  /** Afterwards every movie with a cover URL has a poster. */
  lemma CoveredMoviesHavePosters(ms: seq<Movie>)
    ensures forall i :: 0 <= i < |ms| && Filled(ms[i].coverUrl) ==> Filled(SyncAll(ms)[i].poster)
  {
  }

  /** A second pass changes nothing and reports 0. */
  lemma {:induction false} SecondRunIsIdle(ms: seq<Movie>)
    ensures SyncAll(SyncAll(ms)) == SyncAll(ms)
    ensures CountNeeding(SyncAll(ms)) == 0
    decreases |ms|
  {
    if ms != [] {
      var init := ms[..|ms| - 1];
      SecondRunIsIdle(init);
      assert SyncAll(ms)[..|ms| - 1] == SyncAll(init);
    }
  }

  /** The pass never writes a field other than `poster`. */
  lemma OnlyPosterWritten(ms: seq<Movie>)
    ensures forall i :: 0 <= i < |ms| ==> SyncAll(ms)[i] == ms[i].(poster := SyncAll(ms)[i].poster)
  {
  }

  /** The reported count is the number of movies whose poster changed. */
  lemma {:induction false} CountIsChanged(ms: seq<Movie>)
    ensures CountNeeding(ms) == CountChanged(ms, SyncAll(ms))
    decreases |ms|
  {
    if ms != [] {
      var init := ms[..|ms| - 1];
      CountIsChanged(init);
      assert SyncAll(ms)[..|ms| - 1] == SyncAll(init);
      var m := ms[|ms| - 1];
      if NeedsSync(m) {
        assert Synced(m).poster != m.poster;
      }
    }
  }
}
