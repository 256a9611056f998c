# Movie site core, modelled in Dafny

This project models the logic of a Django movie-recommendation site and of its bulk-loading script, and proves properties of that model. The Django views, models and forms become Dafny values, functions and classes. The database becomes explicit sequences.

- **Attribute tokeniser** (`Text`, text.dfy). `_split_tokens` turns a `type` or `actors` field into tokens. It treats the five separators `,` `，` `、` `|` `/` alike, strips white space exactly as Python's `str.strip` does, and drops empty pieces. Case-insensitive containment (`__icontains`) is also here.
- **Ranking** (`Ranking`, ranking.dfy). `order_by(...)[:n]` is a stable insertion sort followed by a prefix. `Counter.most_common(n)` (`Counting`, counting.dfy) is a counter kept in insertion order, sorted stably by count.
- **Recommender** (`Recommender`, recommender.dfy). This covers:
  - `_personalized_recommendations`: the 200 newest actions, the type and actor counters, the top five of each, the case-insensitive filter, the exclusion of seen movies, and the score-then-date order;
  - `_hot_recommendations`;
  - the fallback choice of `recommend_view` and `recommend_api`.
- **Catalog listing** (`Browse`, browse.dfy). `movie_list` covers the keyword, region and type filters and the whitelisted sort key. `_querystring_without_page` is also here.
- **Action rows** (`ActionViews`, actions.dfy). This is a class over the `UserAction` table, keyed by (user, movie).
  - `get_or_create`, the favourite toggle and the clamped rating are modelled.
  - The handlers `toggle_favorite`, `toggle_favorite_api`, `rate_movie` and `rate_movie_api` include their 404, 405 and 400 paths.
- **Accounts** (`Accounts`, accounts.dfy). `UserManager._create_user`, `create_user` and `create_superuser` work over a user-table class.
- **Forms** (`Forms`, forms.dfy). This covers `LoginForm.clean`, the registration validators and `save`, and the profile validators.
- **Bulk loader** (`Loader`, loader.dfy). spiders/sql.py covers:
  - `parse_date`;
  - the `load_records` generator, with Python values and `ast.literal_eval` as a parameter;
  - the per-record mapping;
  - the insert loop of `main`.
- **Poster back-fill** (`SyncPoster`, sync_poster.dfy). The `sync_cover_to_poster` command works in place on an array of movies.
- **Admin list cells** (`Admin`, admin.dfy). These are `comment_preview` and `poster_preview`.

Shared data (`Movie`, `UserAction`, `User`, the `sex` choices and the uniqueness predicates) is in models.dfy (`Models`). `Option` and `Result` are in wrappers.dfy (`Wrappers`).

Modelling choices:
- **Database.** Tables are sequences in table order. A sort leaves tied rows in table order. NULL sorts below every value, as MySQL does.
- **Foreign calls.** These are parameters of the model: `authenticate`, the password hasher, `uuid4().hex`, `ast.literal_eval` (returning `None` when it raises) and the database's acceptance of one INSERT.
- **Clock.** Timestamps are integers the caller supplies.
- **`sort=score`.** `sort=score` is ascending, as `order_by("score")` makes it; the descending order is `sort=-score`. `Browse.ScoreSortsAscending` states it.
- **`cover_url`.** The `Movie` model (myapp/models.py:7-15) has no `cover_url` column. The back-fill command reads one, so `Movie.coverUrl` is an assumed extra attribute.

## Model

| member | source | states |
|---|---|---|
| Text.Strip | myapp/views.py:32 | `str.strip()`: the result is the slice of the input left after cutting all-white-space runs off both ends, it neither starts nor ends with white space, and it is empty exactly when the input is all white space |
| Text.StripStripped | myapp/views.py:32 | stripping a string with no white space at either end leaves it unchanged |
| Text.ReplaceChar | myapp/views.py:31 | `str.replace` of one character: same length, each occurrence replaced and every other character kept |
| Text.NormalizeSeparators | myapp/views.py:31 | the four `replace` calls turn each of the five separators into `,` and leave every other character alone |
| Text.SplitOn | myapp/views.py:31 | `str.split(sep)`: at least one piece, and no piece holds the separator |
| Text.JoinSplit | myapp/views.py:31 | splitting loses nothing: joining the pieces with the separator gives the input back |
| Text.SplitJoin | myapp/views.py:31 | separator-free pieces joined and split again give the same pieces |
| Text.SplitAround | myapp/views.py:31 | splitting around one separator splits each side independently |
| Text.SplitTokens | myapp/views.py:28-30 | `_split_tokens` returns the empty list for `None` or an empty string |
| Text.TokensAreClean | myapp/views.py:31-32 | every returned token is non-empty, has no surrounding white space, and contains none of the five separators |
| Text.TokensInOrder | myapp/views.py:31-32 | tokens keep input order: the text before a separator contributes its tokens ahead of the text after it |
| Text.SingleToken | myapp/views.py:28-32 | a non-empty, stripped, separator-free string is exactly one token |
| Text.SeparatedTokensSplit | myapp/views.py:31-32 | any tokens written with any of the five separators between them split back into exactly those tokens, in order |
| Text.CommaJoinRoundTrip | myapp/views.py:28-32 | round trip: tokens joined with `,` split back into the same tokens |
| Text.CleanTokensUnchanged | myapp/views.py:32 | the strip-and-drop-empty comprehension leaves a list of tokens unchanged |
| Text.Lower | myapp/views.py:57 | lower-casing for `icontains` keeps the length and maps each character |
| Text.ContainsAt | myapp/views.py:57 | a substring found at any offset is contained |
| Text.ContainsFound | myapp/views.py:57 | conversely, containment holds only when the needle occurs at some offset, so `icontains` is exactly substring search |
| Ranking.Take | myapp/views.py:64 | a slice `[:n]` is a prefix of length `min(n, len)` |
| Ranking.Sort | myapp/views.py:64 | `order_by` is a permutation of its input |
| Ranking.SortRanked | myapp/views.py:64 | for a total preorder, the sorted sequence is ordered by it |
| Ranking.InsertRanked | myapp/views.py:64 | inserting into an ordered sequence keeps it ordered |
| Ranking.SortStable | myapp/views.py:64 | rows that tie under the order keep their table order |
| Ranking.InsertStable | myapp/views.py:64 | one insertion keeps tied rows in their original order |
| Ranking.TakeTiesPrefix | myapp/views.py:52 | the tied rows of a prefix are a prefix of the tied rows of the whole |
| Ranking.TopOf | myapp/views.py:64 | `order_by(...)[:n]` has length `min(n, len)`, is ordered, keeps only input rows, and any row left out is ranked no higher than every kept one, with the slice then full |
| Counting.Keys | myapp/views.py:52-53 | `[t for t, _ in ...]` lists each entry's key, in order |
| Counting.CountOfEntry | myapp/views.py:49-50 | in a well-formed counter, looking up an entry's key gives that entry's count |
| Counting.CountOfAbsent | myapp/views.py:49-50 | a token never counted has count zero |
| Counting.CountedIffKey | myapp/views.py:49-50 | a token has a positive count exactly when it is a key |
| Counting.Bump | myapp/views.py:49-50 | `c[t] += 1`: only `t`'s count grows, by one; a new token is appended at the end of the keys |
| Counting.BumpWellFormed | myapp/views.py:49-50 | one increment keeps the keys distinct and every count positive |
| Counting.Update | myapp/views.py:49-50 | `Counter.update` keeps a counter well formed |
| Counting.UpdateCounts | myapp/views.py:49-50 | after `update(tokens)` each token's count has grown by its number of occurrences |
| Counting.MoreCommonIsTotal | myapp/views.py:52-53 | the by-count order of `most_common` is a total preorder |
| Counting.EntriesCounted | myapp/views.py:52-53 | every entry `most_common` returns carries its token's true, positive count |
| Counting.MostCommonIsTop | myapp/views.py:52-53 | `most_common(n)` keys: `min(n, len)` of them, all counted, in non-increasing count order; a counted token left out occurs no more often than any kept one, with the list then full |
| Counting.TopKept | myapp/views.py:52-53 | the `(token, count)` entries of `most_common(n)`: `min(n, len)` of them, each with its token's true, positive count, in non-increasing count order |
| Counting.LeftOutRanksLower | myapp/views.py:52-53 | a counted token missing from `most_common(n)` means the list is full and every kept count is at least its count |
| Counting.WithCountIsTies | myapp/views.py:52-53 | the entries with a given count are exactly the entries that tie with it |
| Counting.MostCommonTieBreak | myapp/views.py:52-53 | among equal counts, `most_common` keeps first-encountered order |
| Recommender.HotOrderIsTotal | myapp/views.py:64 | `-score, -date` with NULL lowest is a total preorder |
| Recommender.NewerOrSameIsTotal | myapp/views.py:39 | `-updated_at` is a total preorder |
| Recommender.MovieById | myapp/views.py:47 | `action.movie`: the movie found has that id, and none is found only when no movie has it |
| Recommender.UserActions | myapp/views.py:37 | `filter(user=user)` keeps exactly that user's actions on existing movies |
| Recommender.MoviesOf | myapp/views.py:47 | one movie per action, in action order |
| Recommender.RecentActionsJoin | myapp/views.py:36-40 | the recent actions are the user's, and each has its movie |
| Recommender.RecentActionsAreNewest | myapp/views.py:36-40 | at most 200 actions, all the user's, newest first; an action left out is no newer than every kept one, with the window then full |
| Recommender.TypeCountsCount | myapp/views.py:49 | the type counter is well formed and counts each token exactly as often as it occurs in the history |
| Recommender.ActorCountsCount | myapp/views.py:50 | the same for the actor counter |
| Recommender.SeenIdsAreHistory | myapp/views.py:45-48 | `seen_movie_ids` holds exactly the ids of the history's movies |
| Recommender.Tally | myapp/views.py:44-50 | the loop yields the type counter, the actor counter and the seen set of the history |
| Recommender.Candidates | myapp/views.py:55-63 | a movie is a candidate exactly when it is in the catalog, unseen, and matches a top type or top actor case-insensitively (every unseen movie when no token exists) |
| Recommender.PersonalizedRecommendations | myapp/views.py:35-65 | the imperative recommender returns the reference function `Personalized` |
| Recommender.NoActionsNoRecommendations | myapp/views.py:41-42 | a user with no actions gets `None` |
| Recommender.NoneWhenNothingQualifies | myapp/views.py:41-65 | the result is `None` exactly when there is no history, the limit is 0, or no unseen movie qualifies; a returned list is never empty |
| Recommender.PersonalizedSound | myapp/views.py:45-64 | every recommended movie is in the catalog, not among the recent history, and qualifies; the list is at most `limit` long, best score then latest date first |
| Recommender.PersonalizedComplete | myapp/views.py:61-64 | an unseen qualifying movie is either recommended, or the list is full and every movie on it ranks at least as high |
| Recommender.TopTypesAreMostFrequent | myapp/views.py:52 | a type token left out of the top five occurs no more often than each kept one, and five were kept |
| Recommender.HotIsTop | myapp/views.py:68-69 | the hot list is the top `limit` of the catalog by score then date, ordered, with nothing left out ranking higher |
| Recommender.Recommend | myapp/views.py:199-206 | personalized exactly when a user is logged in and the recommender returned movies; otherwise the hot list |
| Recommender.Items | myapp/views.py:325-336 | one item per movie, each carrying the movie's public fields |
| Recommender.RecommendApi | myapp/views.py:317-337 | the same choice with limit 30, as items; never more than 30 items |
| Browse.SortKey | myapp/views.py:149-159 | the sort key is always one of `-date`, `-score`, `date`, `score`; an accepted key is kept, a missing or unknown one becomes `-date` |
| Browse.ListOrderIsTotal | myapp/views.py:160 | every accepted sort key orders movies by a total preorder |
| Browse.Filtered | myapp/views.py:151-157 | the filters keep exactly the movies matching every given filter (keyword in title, actors or summary; region; type), each as often as in the catalog |
| Browse.MovieListSpec | myapp/views.py:145-160 | the listing holds exactly the matching movies, each as often as in the catalog, ordered by an accepted sort key |
| Browse.ScoreSortsAscending | myapp/views.py:158-160 | `sort=score` lists lower scores first, NULL first |
| Browse.WithoutPage | myapp/views.py:22-23 | `pop("page")` removes exactly the `page` entries and keeps every other one |
| Browse.UrlEncodeEmpty | myapp/views.py:24 | the encoded query string is empty exactly when there are no pairs |
| Browse.QuerystringWithoutPage | myapp/views.py:21-25 | the result is empty when nothing but `page` was given, and otherwise starts with `&` |
| Browse.PageNeverKept | myapp/views.py:23 | no `page` pair survives |
| Browse.PairsKeys | myapp/views.py:24 | every encoded pair comes from a parameter with that key |
| Browse.PageIgnored | myapp/views.py:21-25 | adding a `page` parameter anywhere does not change the result |
| Browse.WithoutPageAppend | myapp/views.py:23 | removing `page` works parameter by parameter |
| ActionViews.Clamp | myapp/views.py:284-310 | `max(0, min(10, rating))` lies in [0, 10], keeps an in-range rating, sends a low one to 0 and a high one to 10 |
| ActionViews.IndexOf | myapp/views.py:268 | the row found belongs to the pair; none is found only when no row does |
| ActionViews.LookupUnique | myapp/models.py:35-36 | with one row per pair, every row is the one looked up for its own pair |
| ActionViews.SavedSpec | myapp/views.py:268-270 | saving the fetched-or-created row keeps one row per pair, stores that row, adds a row only when none existed, and leaves every other pair unchanged |
| ActionViews.ToggleFlips | myapp/views.py:268-297 | a toggle flips `is_favorite` on the pair's row (created first if absent) and stamps `updated_at`; nothing else changes |
| ActionViews.ToggleTwice | myapp/views.py:268-270 | two toggles restore the row except for its `updated_at` |
| ActionViews.FirstToggleFavorites | myapp/models.py:29-31 | a new row has no rating, no comment and `is_favorite` false, so the first toggle stores exactly that row as a favourite |
| ActionViews.RateClamps | myapp/views.py:283-313 | a rating is stored clamped (unchanged when in range); every stored rating stays in [0, 10]; the row's other fields and every other pair are unchanged |
| ActionViews.ActionTable.GetOrCreate | myapp/views.py:268 | returns the pair's row, appending a default row when there is none |
| ActionViews.ActionTable.Save | myapp/views.py:270 | writes back one row and keeps the table's invariants |
| ActionViews.ActionTable.ToggleFavorite | myapp/views.py:265-272 | unknown movie: 404 and nothing changes; otherwise the toggled table and the new flag |
| ActionViews.ActionTable.ToggleFavoriteApi | myapp/views.py:290-298 | non-POST: 405 and nothing changes; unknown movie: 404; otherwise toggled, reporting the new flag |
| ActionViews.ActionTable.RateMovie | myapp/views.py:275-287 | unknown movie: 404; unparsable rating: error and the table untouched; otherwise the clamped rating is stored and reported |
| ActionViews.ActionTable.RateMovieApi | myapp/views.py:301-314 | non-POST: 405; unknown movie: 404; unparsable rating: 400 with the table untouched; otherwise the clamped rating is stored and reported |
| Accounts.MissingField | myapp/models.py:43-48 | rejects an empty username first, then an empty email, then an empty password; passes only when all three are present |
| Accounts.BuildUser | myapp/models.py:49-72 | the account carries the given username, email and hashed password; `sex` defaults to 1, the staff and superuser flags to false, active to true |
| Accounts.CreateResult | myapp/models.py:42-65 | `_create_user` succeeds exactly when all three values are present and the username is new; errors come in guard order; usernames stay unique |
| Accounts.CreateUserResult | myapp/models.py:54-56 | `create_user` succeeds exactly when `_create_user` would, with `is_superuser` forced false whatever the caller passed |
| Accounts.CreateSuperuserResult | myapp/models.py:58-61 | `create_superuser` forces both `is_superuser` and `is_staff` true |
| Accounts.UserTable.Insert | myapp/models.py:51 | saving appends the account and keeps usernames unique |
| Accounts.UserTable.CreateUserWith | myapp/models.py:42-52 | the table grows by the created account exactly on success, and is unchanged on error |
| Accounts.UserTable.CreateUser | myapp/models.py:54-56 | the same, through `create_user` |
| Accounts.UserTable.CreateSuperuser | myapp/models.py:58-61 | the same, through `create_superuser` |
| Forms.LoginClean | myapp/forms.py:18-27 | authentication runs only when both fields are filled; a failure is an error, a success stores the user |
| Forms.CleanPassword2 | myapp/forms.py:53-58 | a mismatch error exactly when both passwords are non-empty and differ; otherwise `password2` is returned |
| Forms.RegistrationCleanUsername | myapp/forms.py:60-64 | an error exactly when the username is already in the table |
| Forms.RegistrationCleanEmail | myapp/forms.py:66-70 | an error exactly when the email is already in the table |
| Forms.FirstOther | myapp/forms.py:103-112 | `filter(...).exclude(pk=...).first()` finds a matching account other than the excluded one, or proves there is none |
| Forms.OtherErrors | myapp/models.py:67-73 | the remaining required fields and the `sex` choice |
| Forms.RegistrationErrors | myapp/forms.py:53-70 | the form is valid exactly when every field is filled, the username and email are new, `sex` is 1 or 2, and the passwords match; each validator's error appears exactly when its condition holds |
| Forms.RegisteredAccountValid | myapp/forms.py:72-78 | a valid form saves an account with a new username, a valid `sex`, the hash of the confirmed password, and no staff or superuser rights |
| Forms.Save | myapp/forms.py:72-78 | `save` appends exactly that account to the table |
| Forms.ProfileCleanUsername | myapp/forms.py:99-106 | an empty value skips the check; otherwise an error exactly when another account holds the username |
| Forms.ProfileCleanEmail | myapp/forms.py:108-115 | the same for the email |
| Forms.ProfileKeepsOwnUsername | myapp/forms.py:103-105 | an account may keep its own username |
| Forms.ProfileRejectsOthersUsername | myapp/forms.py:62-105 | a username held by another account is rejected both on profile edit and at registration |
| Forms.SharedEmailBlocksProfile | myapp/models.py:74 | because `email` is not unique, two accounts sharing an email each fail profile validation on their own email |
| Admin.CommentPreview | myapp/admin.py:93-98 | a dash exactly for a missing or empty comment; otherwise the whole comment when at most 50 characters, else its first 50 followed by `...` |
| Admin.PreviewBounded | myapp/admin.py:96 | a preview is never longer than 53 characters and starts with the comment's first (up to) 50 characters |
| Admin.PosterPreview | myapp/admin.py:27-31 | a dash exactly when the poster is empty; otherwise an image of the poster URL |
| SyncPoster.Synced | myapp/management/commands/sync_cover_to_poster.py:12-13 | a movie's poster is set to its `cover_url` exactly when `cover_url` is non-empty and the poster empty; otherwise the movie is unchanged |
| SyncPoster.SyncAll | myapp/management/commands/sync_cover_to_poster.py:11-14 | the pass maps each movie, position by position, to its synced form |
| SyncPoster.SyncCoverToPoster | myapp/management/commands/sync_cover_to_poster.py:9-16 | the array afterwards is the synced catalog, and the count is the number of movies that needed syncing |
| SyncPoster.CoveredMoviesHavePosters | myapp/management/commands/sync_cover_to_poster.py:12-13 | afterwards every movie with a non-empty `cover_url` has a non-empty poster |
| SyncPoster.SecondRunIsIdle | myapp/management/commands/sync_cover_to_poster.py:11-15 | a second run changes nothing and reports 0 |
| SyncPoster.OnlyPosterWritten | myapp/management/commands/sync_cover_to_poster.py:13-14 | only the `poster` field is ever written |
| SyncPoster.CountIsChanged | myapp/management/commands/sync_cover_to_poster.py:10-15 | the count equals the number of movies whose poster changed |
| Loader.Get | spiders/sql.py:63 | `dict.get`: absent exactly when no entry has the key; otherwise the value of an entry with that key |
| Loader.Score | spiders/sql.py:64 | `score` when truthy, else the first element of a non-empty `rating` list, else `None` |
| Loader.Strings | spiders/sql.py:67-69 | the joined items are strings, one per item |
| Loader.JoinField | spiders/sql.py:67-69 | a missing list gives "", a list of strings is joined with one space, and `None` raises |
| Loader.JoinFieldSplitsBack | spiders/sql.py:67-69 | the space-joined field splits back on spaces into the original names |
| Loader.IsoDate | spiders/sql.py:18 | `fromisoformat` succeeds only on a `YYYY-MM-DD` shape that names a real calendar date |
| Loader.ParseDate | spiders/sql.py:8-20 | `None` for empty input; any calendar date returned is valid |
| Loader.ParseStripsFirst | spiders/sql.py:10-12 | white space around a value never changes what `parse_date` returns |
| Loader.SlashesAreDashes | spiders/sql.py:12 | replacing `/` with `-` beforehand changes nothing, since `parse_date` does so first |
| Loader.StripReplace | spiders/sql.py:12 | stripping and replacing one non-space character commute |
| Loader.FourCharactersAreAYear | spiders/sql.py:15-16 | a 4-character value `v` yields `v + "-01-01"` with no digit check |
| Loader.ParseFromPrefix | spiders/sql.py:17-18 | a longer value is parsed from its first 10 characters only |
| Loader.ParseDateRoundTrip | spiders/sql.py:17-18 | a valid date written as `YYYY-MM-DD`, with any trailing text, parses back to itself |
| Loader.ShortValuesFail | spiders/sql.py:15-20 | a value that strips to under 10 characters, and not to 4, yields `None` |
| Loader.InvalidDatesFail | spiders/sql.py:18-20 | a well-shaped but impossible date (month 13, 30 February) yields `None` |
| Loader.IsoDateRender | spiders/sql.py:18 | a rendered `YYYY-MM-DD` parses exactly when the date is valid |
| Loader.ReleaseDate | spiders/sql.py:65 | a missing or falsy value gives `None`, a string is parsed, and a truthy non-string raises |
| Loader.DictsOfMembers | spiders/sql.py:38-40 | a list yields exactly its dict items |
| Loader.RecordsOfAppend | spiders/sql.py:27-43 | lines are read independently: the records of two runs of lines concatenate |
| Loader.BadLineSkipped | spiders/sql.py:28-43 | a blank line, or one that fails to parse, is skipped without stopping the lines around it |
| Loader.LineRecords | spiders/sql.py:31-40 | one line: a dict gives one record, a list gives its dicts, anything else gives none |
| Loader.LoadRecords | spiders/sql.py:23-43 | the generator yields the records of every line, in order |
| Loader.MapRecord | spiders/sql.py:63-70 | the mapping succeeds exactly when the score, date and three joins do; title, summary and poster default to "" |
| Loader.FirstCrashPrefix | spiders/sql.py:62-70 | the first mapping exception in a prefix is the first of the whole run |
| Loader.InsertAsWritten | spiders/sql.py:62-90 | the insert loop as written: it stops at the first mapping exception with nothing committed, and otherwise commits every accepted row |
| Loader.RunAsWritten | spiders/sql.py:46-92 | `main` as written: the records of every line, then that loop |
| Loader.OneBadRecordLosesTheBatch | spiders/sql.py:67-90 | a good record followed by one whose `actors` is `None` commits nothing as written, while skipping the bad record would commit the good one |
| Loader.Run | spiders/sql.py:62-90 | the corrected `main` commits exactly the rows of the records that map and that the database accepts, in order |
| Loader.RowsAppend | spiders/sql.py:62-90 | in the corrected loop, the rows of two batches concatenate, so no record affects another |
| Loader.LoadedGenresAreOneToken | spiders/sql.py:67-69 | a list of two or more genres joined with a space is one token to `_split_tokens` (myapp/views.py:31 never splits on spaces) |

## Left out

- I/O, the HTTP scrapers and the proxy validator are not modelled. This covers spiders/get.py and spiders/wasted/get4.py, file reading, `print`, `pymysql` connections, and the management command's output text. The file's lines and the database's acceptance of each INSERT are parameters.
- Django plumbing is not modelled: sessions, `login_required`, `messages`, redirects, templates, pagination (12 per page) and the listing's region and type menus. The 404 of `get_object_or_404` is a catalog-membership test.
- Foreign functions are not modelled: `authenticate`, `set_password` hashing, `uuid.uuid4()`, `ast.literal_eval` and `format_html` escaping. Each is a parameter, or the returned cell records only the chosen markup and its text.
- `urls.py` routes views that are not part of this model: `submit_comment`, `ai_recommend_api` and `user_stats`.
- Floating point is not modelled: ratings and scores are reals. A `float()` parse failure is `None`. `nan` and `inf` passing through the clamp are not represented.
- NULL ordering follows MySQL (NULL lowest). Another database orders NULLs differently.
- Rows that tie in `order_by` are modelled in table order (a stable sort). The database leaves their order unspecified.
- `icontains` case folding is ASCII-only, and database collation is not modelled.
- `datetime.fromisoformat` is modelled only for the `YYYY-MM-DD` form it accepts on 10 characters. Python 3.11's extra forms, such as `YYYYMMDD` and week dates, are not modelled.
- Python values are modelled without bytes or complex numbers. A dict with a repeated key is modelled by its last value. Iteration order over a `set` is taken as given.
- The generator's laziness is not modelled: `LoadRecords` yields all records before the inserts begin. With no side effects between them, the rows committed are the same.
- The race between two concurrent `get_or_create` calls for the same pair is a database concurrency concern and is not modelled.
- Django's field cleaning is modelled only as required-field checks, the `sex` choice and the `clean_` methods. Length limits, email syntax and integer parsing are not modelled.
- Username and email are plain strings, and a missing value is the empty string.
- `Movie.coverUrl` is an assumption: the table declares no `cover_url` column, yet the back-fill command reads one.
- `_personalized_recommendations`'s `limit` default of 24 is kept as a constant but no view uses it.
- Recommender.Recommend: `recommend_view` passes limit 18. The method takes the limit as a parameter, and the rendering of the page is not modelled.

## Findings

| source | as written | input that shows it | evidently intended | confidence | as-written member | corrected member |
|---|---|---|---|---|---|---|
| spiders/sql.py:67-90 | the field mapping (`" ".join(...)`, `parse_date`) runs outside the `try`, so one record that raises ends `main` before `conn.commit()` and every row inserted so far is lost | two records: `{}` and `{"actors": None}`; joining `None` raises `TypeError` | skip the record that cannot be mapped, as an INSERT failure is skipped, and commit the rest | not executed | Loader.OneBadRecordLosesTheBatch | Loader.Run |
