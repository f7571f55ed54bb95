# Popular Movies sync pass, modelled in Dafny

The Popular Movies app keeps a local cache of movies from The Movie Database
(TMDB). Its sync adapter, `MovieSyncAdapter`, runs one reconciliation pass:

1. It maps the stored sort preference to the `sort_by` key of the discover request.
2. It fetches the listing.
3. It sets `position = -1` on every cached movie row.
4. It walks the listing in order and skips entries without a poster. Each other
   entry is inserted with `position = i`, and the trailers and reviews fetched for
   it are bulk-inserted under the movie key that the insert's URI returned.
5. It reads the TMDB ids of the stale rows (`favorite = 0 AND position = -1`).
6. It deletes the stale rows.
7. For each id it read, it deletes the trailer and review rows with that movie key.

The project has five modules:

- `Tmdb` (`tmdb.dfy`) holds the records the catalog answers with. The catalog
  itself is a `Catalog` of three total functions: discover, trailers and reviews.
- `MovieStore` (`movie_store.dfy`) holds the row types and an abstract `Store`
  value. Its functions give each provider operation the pass uses. The class
  `ContentStore` holds the movie map and the two child sequences as fields. Each
  mutating method updates those fields and is proved to leave the state its
  function gives; the stale query only reads them. The class invariant keeps the
  movie map keyed by TMDB id and the provider's row ids distinct and below the
  next row id it hands out.
- `SyncSpec` (`sync_spec.dfy`) holds the pass as functions on `Store`.
  `ProcessResult` is one iteration of the insert loop. `InsertPrefix` is the loop
  over a prefix of the listing. `Reconcile` is the whole pass once the listing is
  known. The sort key and the sync constants are here too.
- `SyncProperties` (`sync_properties.dfy`) proves what a pass does to the movie
  table, to positions, to favorites and to the child tables.
- `MovieSyncAdapter` (`sync_adapter.dfy`) holds `OnPerformSync`,
  `InsertMovieFromDiscovery`, `GetMoviesTrailers` and `GetMoviesReviews` as
  methods over a `ContentStore`, with the same loops as the Java. Each method
  ensures that the new store state is the matching `SyncSpec` function of the
  old state. So every lemma in `SyncProperties` holds for the methods.

The provider behind the content resolver is not part of this model, and neither
is `MovieContract`. The model assumes the following about them:

- An insert into the movie table is an upsert keyed by TMDB id. An existing row
  keeps its row id and its favorite flag. A new row gets a fresh row id and
  favorite 0. No other row changes. The movie table therefore stays keyed by TMDB
  id (`WellKeyed`), and the lemmas about a pass require that of the store they
  start from.
- Which number `getIdFromUri` returns is not known. It is the store's
  `KeyScheme`: either the TMDB id (`TmdbIdUri`) or the provider's row id
  (`RowIdUri`). The trailers and reviews are written under that number. The
  cascade deletes by TMDB id.
  - `ReconcileNoOrphans` proves that with `TmdbIdUri` no child row is left
    dangling.
  - `OrphanWithRowIdUris` gives a concrete store where, with `RowIdUri`, a pass
    leaves a trailer pointing at a deleted movie.

One might expect a pass to replace a listed movie's trailers and reviews and to
be idempotent. The code only appends: `bulkInsert` never clears the rows a
surviving movie already has. The model follows the code.
`RepeatedPassAppendsTrailers` proves that a second pass over the same listing
adds the fetched trailers again, and `SecondPassFindsNoStale` proves that such a
pass deletes nothing.

## Model

| member | source | states |
|---|---|---|
| SyncSpec.SyncSchedule | app/src/main/java/com/nanodegree/bpham/popularmovies/sync/MovieSyncAdapter.java:37-39 | the sync interval is 14400 seconds and the flex time 3600 seconds, which is positive and shorter than the interval |
| SyncSpec.SortKey | app/src/main/java/com/nanodegree/bpham/popularmovies/sync/MovieSyncAdapter.java:126-131 | the popularity preference gives "popularity.desc"; otherwise the rating preference gives "vote_average.desc"; the key is empty exactly when the preference matches neither label |
| MovieStore.ResetPositions | app/src/main/java/com/nanodegree/bpham/popularmovies/sync/MovieSyncAdapter.java:134-139 | the same movies remain, each row equal to its old row with position -1; favorites and all other columns, the child tables and the key invariant are unchanged |
| MovieStore.ContentStore.UpdatePositions | app/src/main/java/com/nanodegree/bpham/popularmovies/sync/MovieSyncAdapter.java:134-139 | the store's new state is `ResetPositions` of the old one |
| MovieStore.Stored | app/src/main/java/com/nanodegree/bpham/popularmovies/sync/MovieSyncAdapter.java:171-178 | the written row holds exactly the inserted columns, with the given row id and favorite flag |
| MovieStore.Upsert | app/src/main/java/com/nanodegree/bpham/popularmovies/sync/MovieSyncAdapter.java:179-181 | a movie insert leaves the key scheme and both child tables unchanged |
| MovieStore.UpsertRow | app/src/main/java/com/nanodegree/bpham/popularmovies/sync/MovieSyncAdapter.java:171-181 | the insert adds the TMDB id and writes every inserted column; an existing row keeps its row id and favorite; a new row gets the next row id and favorite 0; other rows are unchanged; the returned id is the one the row's URI carries; the key invariant is kept |
| MovieStore.ContentStore.InsertMovie | app/src/main/java/com/nanodegree/bpham/popularmovies/sync/MovieSyncAdapter.java:179-181 | the new state and the returned id are `Upsert` of the old state |
| MovieStore.ContentStore.BulkInsertTrailers | app/src/main/java/com/nanodegree/bpham/popularmovies/sync/MovieSyncAdapter.java:201-204 | the given rows are appended to the trailer table; nothing else changes |
| MovieStore.ContentStore.BulkInsertReviews | app/src/main/java/com/nanodegree/bpham/popularmovies/sync/MovieSyncAdapter.java:219-222 | the given rows are appended to the review table; nothing else changes |
| MovieStore.StaleIds | app/src/main/java/com/nanodegree/bpham/popularmovies/sync/MovieSyncAdapter.java:143-151 | on a table keyed by TMDB id, an id is selected exactly when its row has favorite 0 and position -1 |
| MovieStore.ContentStore.QueryStale | app/src/main/java/com/nanodegree/bpham/popularmovies/sync/MovieSyncAdapter.java:143-151 | returns exactly the TMDB ids of the stale rows, without changing the store |
| MovieStore.WithoutStale | app/src/main/java/com/nanodegree/bpham/popularmovies/sync/MovieSyncAdapter.java:153-155 | a movie remains exactly when its row is not stale, and a remaining row is unchanged |
| MovieStore.ContentStore.DeleteStale | app/src/main/java/com/nanodegree/bpham/popularmovies/sync/MovieSyncAdapter.java:153-155 | the movie table becomes `WithoutStale` of the old one; the child tables are unchanged |
| MovieStore.KeepRows | app/src/main/java/com/nanodegree/bpham/popularmovies/sync/MovieSyncAdapter.java:156-163 | a child row remains exactly when it was present and its movie key is not deleted; the table never grows |
| MovieStore.KeepRowsCounts | app/src/main/java/com/nanodegree/bpham/popularmovies/sync/MovieSyncAdapter.java:156-163 | every copy of a row whose movie key is not deleted is kept, and no copy of a row whose key is deleted |
| MovieStore.KeepRowsNone | app/src/main/java/com/nanodegree/bpham/popularmovies/sync/MovieSyncAdapter.java:156-163 | deleting by no key leaves a child table as it was |
| MovieStore.KeepRowsAgain | app/src/main/java/com/nanodegree/bpham/popularmovies/sync/MovieSyncAdapter.java:156-163 | deleting by one more key after a set of keys equals deleting by the larger set, so the cursor loop's order does not matter |
| MovieStore.ContentStore.DeleteTrailersOf | app/src/main/java/com/nanodegree/bpham/popularmovies/sync/MovieSyncAdapter.java:157-159 | the trailer rows with the given movie key are removed; nothing else changes |
| MovieStore.ContentStore.DeleteReviewsOf | app/src/main/java/com/nanodegree/bpham/popularmovies/sync/MovieSyncAdapter.java:160-162 | the review rows with the given movie key are removed; nothing else changes |
| SyncSpec.WithTrailers | app/src/main/java/com/nanodegree/bpham/popularmovies/sync/MovieSyncAdapter.java:187-205 | fetching and inserting trailers only appends to the trailer table; movies and reviews are unchanged |
| SyncSpec.WithReviews | app/src/main/java/com/nanodegree/bpham/popularmovies/sync/MovieSyncAdapter.java:207-223 | fetching and inserting reviews only appends to the review table; movies and trailers are unchanged |
| SyncSpec.ProcessResult | app/src/main/java/com/nanodegree/bpham/popularmovies/sync/MovieSyncAdapter.java:168-183 | one iteration of the insert loop keeps the key scheme |
| SyncSpec.ProcessResultMovie | app/src/main/java/com/nanodegree/bpham/popularmovies/sync/MovieSyncAdapter.java:168-181 | an entry with a null poster changes nothing; otherwise the entry's id is added with its columns and position i, its favorite flag and row id are kept (favorite 0 if new), no other movie changes, and the key invariant is kept |
| SyncSpec.ProcessResultChildren | app/src/main/java/com/nanodegree/bpham/popularmovies/sync/MovieSyncAdapter.java:181-183 | the child tables only grow; for an entry with a poster, as many trailer and review rows are appended as were fetched, in fetched order, each with the columns of its fetched item and the movie key the insert returned |
| SyncSpec.InsertPrefix | app/src/main/java/com/nanodegree/bpham/popularmovies/sync/MovieSyncAdapter.java:166-185 | the insert loop over a prefix of the listing keeps the key scheme |
| SyncSpec.InsertPrefixInvariants | app/src/main/java/com/nanodegree/bpham/popularmovies/sync/MovieSyncAdapter.java:166-185 | the insert loop keeps the movie table keyed by TMDB id and only appends to the child tables |
| SyncSpec.LastPosterIndex | app/src/main/java/com/nanodegree/bpham/popularmovies/sync/MovieSyncAdapter.java:167-178 | for an id listed with a poster, returns the last entry with that id and a poster, the one whose columns and index the row ends up holding |
| SyncSpec.Reconcile | app/src/main/java/com/nanodegree/bpham/popularmovies/sync/MovieSyncAdapter.java:134-163 | after a pass no movie row has favorite 0 and position -1 |
| SyncProperties.InsertPrefixKeys | app/src/main/java/com/nanodegree/bpham/popularmovies/sync/MovieSyncAdapter.java:166-185 | the insert loop adds exactly the ids of the entries with a poster, and leaves every other movie row unchanged |
| SyncProperties.InsertPrefixFavorites | app/src/main/java/com/nanodegree/bpham/popularmovies/sync/MovieSyncAdapter.java:171-181 | the insert loop keeps every existing movie and its favorite flag, and new movies have favorite 0 |
| SyncProperties.InsertPrefixRanks | app/src/main/java/com/nanodegree/bpham/popularmovies/sync/MovieSyncAdapter.java:167-178 | after the insert loop, each listed id's row holds the columns of its last entry with a poster, and that entry's index (skipped entries included) as its position |
| SyncProperties.ProcessResultKeys | app/src/main/java/com/nanodegree/bpham/popularmovies/sync/MovieSyncAdapter.java:179-181 | an insert removes no valid movie key and the key it returns is valid |
| SyncProperties.ProcessResultKeepsReferences | app/src/main/java/com/nanodegree/bpham/popularmovies/sync/MovieSyncAdapter.java:179-183 | one iteration leaves no child row pointing at a missing movie, if none did before |
| SyncProperties.InsertPrefixKeepsReferences | app/src/main/java/com/nanodegree/bpham/popularmovies/sync/MovieSyncAdapter.java:166-185 | the insert loop leaves no child row pointing at a missing movie, if none did before |
| SyncProperties.InsertPrefixAppendsFetched | app/src/main/java/com/nanodegree/bpham/popularmovies/sync/MovieSyncAdapter.java:166-205 | with TMDB ids in the URIs, the insert loop appends at least as many trailer rows as were fetched for any entry with a poster |
| SyncProperties.InsertPhaseMovies | app/src/main/java/com/nanodegree/bpham/popularmovies/sync/MovieSyncAdapter.java:134-185 | reset then insert: the table gains exactly the poster ids, each with its last entry's columns and index; every other row is its old row with position -1; no favorite flag changes |
| SyncProperties.InsertPhaseStale | app/src/main/java/com/nanodegree/bpham/popularmovies/sync/MovieSyncAdapter.java:134-151 | the stale query after the insert phase finds exactly the non-favorite movies that were not listed with a poster |
| SyncProperties.ReconcileMovies | app/src/main/java/com/nanodegree/bpham/popularmovies/sync/MovieSyncAdapter.java:134-155 | after a pass the table holds exactly the old favorites and the movies listed with a poster; listed movies hold their last entry's columns and index; an unlisted favorite is unchanged except for position -1; no favorite is deleted or altered; every position other than -1 is the index of an entry with that id |
| SyncProperties.ReconcilePositionsDistinct | app/src/main/java/com/nanodegree/bpham/popularmovies/sync/MovieSyncAdapter.java:167-178 | after a pass no two movies share a position other than -1 |
| SyncProperties.ReconcileCascade | app/src/main/java/com/nanodegree/bpham/popularmovies/sync/MovieSyncAdapter.java:143-163 | each child table after the pass is the insert phase's table with the rows removed whose movie key is the TMDB id of a non-favorite movie not listed with a poster; every other row remains with all its copies, in order |
| SyncProperties.ReconcileNoOrphans | app/src/main/java/com/nanodegree/bpham/popularmovies/sync/MovieSyncAdapter.java:143-163 | with TMDB ids in the URIs, a pass leaves no child row pointing at a missing movie, if none did before |
| SyncProperties.OrphanWithRowIdUris | app/src/main/java/com/nanodegree/bpham/popularmovies/sync/MovieSyncAdapter.java:145-163 | with row ids in the URIs, a concrete store with no dangling rows is left with a trailer pointing at a deleted movie |
| SyncProperties.SecondPassFindsNoStale | app/src/main/java/com/nanodegree/bpham/popularmovies/sync/MovieSyncAdapter.java:134-155 | a second pass over the same listing finds no stale movie, so it deletes nothing |
| SyncProperties.RepeatedPassAppendsTrailers | app/src/main/java/com/nanodegree/bpham/popularmovies/sync/MovieSyncAdapter.java:201-204 | a second pass over the same listing appends the fetched trailers again, so the pass does not replace trailers and is not idempotent |
| MovieSyncAdapter.GetMoviesTrailers | app/src/main/java/com/nanodegree/bpham/popularmovies/sync/MovieSyncAdapter.java:187-205 | the loop builds one row per fetched trailer under the given movie key; the new state is `WithTrailers` of the old one |
| MovieSyncAdapter.GetMoviesReviews | app/src/main/java/com/nanodegree/bpham/popularmovies/sync/MovieSyncAdapter.java:207-223 | the loop builds one row per fetched review under the given movie key; the new state is `WithReviews` of the old one |
| MovieSyncAdapter.InsertMovieFromDiscovery | app/src/main/java/com/nanodegree/bpham/popularmovies/sync/MovieSyncAdapter.java:166-185 | the loop, with its skip of entries without a poster, leaves the state `InsertPrefix` gives for the whole listing |
| MovieSyncAdapter.OnPerformSync | app/src/main/java/com/nanodegree/bpham/popularmovies/sync/MovieSyncAdapter.java:115-164 | the whole pass, cursor loop included, leaves the state `Reconcile` gives for the listing fetched with `SortKey` |

## Left out

- Account creation and sync scheduling (`getSyncAccount`, `configurePeriodicSync`, `syncImmediately`, `onAccountCreated`, `initializeSyncAdapter`): platform plumbing. Only the interval and flex constants are modelled.
- The Retrofit adapter, the base URL, the API key and the HTTP requests: the three requests are the total functions of a `Catalog` value. Network failures and the exceptions they raise are not modelled; the code does not catch them.
- Reading the sort preference and the preference labels from resources: they are parameters of `OnPerformSync`.
- The content provider, `MovieContract` and `getIdFromUri` are not part of this model. Their behaviour is the stated upsert assumption and the `KeyScheme` choice.
- The cursor of stale ids is a snapshot set, and the loop takes its ids in an arbitrary order. `KeepRowsAgain` shows that the order does not change the result. Ids are compared as integers, not as the strings the selection arguments carry.
- `Discovery.java` and `Reviews.java` are not part of this model. Their `Result` fields are taken from what the pass reads. `Trailers.java` gives the fields of `TrailerResult`; its other fields (`iso_639_1`, `size`, `type`) are not copied by the pass and are left out.
- The vote average is a Java `double`. It is carried as its 64-bit pattern and never interpreted.
- Ids and positions are unbounded integers. The Java `int` range is not modelled, because the pass only copies them and compares them for equality.
- Null titles, overviews and other null fields besides the poster path are not modelled. The pass only tests the poster path for null.
- MovieStore.Upsert: its own contract states only what an insert leaves unchanged. What it writes is stated by the lemma `UpsertRow`.
- SyncSpec.ProcessResult, SyncSpec.InsertPrefix: their own contracts state only that the key scheme is kept. What they do is stated by the lemmas about them (`ProcessResultMovie`, `ProcessResultChildren`, `InsertPrefixInvariants`, `InsertPrefixKeys`, `InsertPrefixFavorites`, `InsertPrefixRanks`).
