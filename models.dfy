/**
  The data of myapp/models.py: movies, per-(user, movie) action rows and user
  accounts, as values. Timestamps are integers supplied by the caller (the
  clock is outside the model).
 */
module Models {
  import opened Wrappers

  type MovieId = int
  type UserId = int

  /** A string Python treats as true: present (not `None`) and non-empty. */
  predicate Filled(v: Option<string>) {
    v.Some? && v.value != []
  }

  /** A calendar date; ordered year, then month, then day. */
  datatype Date = Date(year: int, month: int, day: int)

  /**
    A catalog movie. Every attribute the table declares nullable is an
    `Option`. `coverUrl` is not a column of the table; the poster back-fill
    command reads it, so the model carries it as an assumed extra attribute.
   */
  datatype Movie = Movie(
    id: MovieId,
    title: string,
    score: Option<real>,
    date: Option<Date>,
    poster: Option<string>,
    actors: Option<string>,
    region: Option<string>,
    movieType: Option<string>,
    summary: Option<string>,
    coverUrl: Option<string>)

  /** One user's rating, comment and favourite flag for one movie. */
  datatype UserAction = UserAction(
    user: UserId,
    movie: MovieId,
    rating: Option<real>,
    comment: Option<string>,
    isFavorite: bool,
    createdAt: int,
    updatedAt: int)

  /** The row `get_or_create` inserts: not a favourite, no rating, no comment. */
  function NewAction(user: UserId, movie: MovieId, now: int): UserAction {
    UserAction(user, movie, None, None, false, now, now)
  }

  /** `unique_together = ("user", "movie")` */
  predicate UniquePairs(rows: seq<UserAction>) {
    forall i, j :: 0 <= i < j < |rows| ==> (rows[i].user, rows[i].movie) != (rows[j].user, rows[j].movie)
  }

  /** The `sex` choices: 1 (male) and 2 (female); 1 is the default. */
  const SexChoices: set<int> := {1, 2}
  const DefaultSex: int := 1

  /** An account row (`UserInfo`). `password` holds the hashed password. */
  datatype User = User(
    pk: nat,
    username: string,
    email: string,
    password: string,
    nickname: string,
    sex: int,
    age: Option<int>,
    userId: string,
    isActive: bool,
    isStaff: bool,
    isSuperuser: bool)

  /** `username` is declared `unique=True`; `email` is declared `unique=False`. */
  predicate UniqueUsernames(users: seq<User>) {
    forall i, j :: 0 <= i < j < |users| ==> users[i].username != users[j].username
  }

  predicate UniquePks(users: seq<User>) {
    forall i, j :: 0 <= i < j < |users| ==> users[i].pk != users[j].pk
  }
}
