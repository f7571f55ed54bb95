/** What one reconciliation pass of the movie sync adapter does to the store, as
    functions on `Store` values, and the properties of a pass proved about them. */
module SyncSpec {
  import opened Tmdb
  import opened MovieStore

  /** Periodic sync schedule: every four hours, with a one-hour flex window. */
  const SyncHours: int := 4
  const SyncInterval: int := 60 * 60 * SyncHours
  const SyncFlexTime: int := SyncInterval / SyncHours

  lemma SyncSchedule()
    ensures SyncInterval == 14400 && SyncFlexTime == 3600
    ensures 0 < SyncFlexTime < SyncInterval
  {
  }

  /** The sort parameter sent with the discover request, given the stored preference
      and the two preference labels. An unrecognised preference sends no ordering. */
  function SortKey(sortPref: string, popularityLabel: string, ratingLabel: string): (sortBy: string)
    ensures sortPref == popularityLabel ==> sortBy == "popularity.desc"
    ensures sortPref != popularityLabel && sortPref == ratingLabel ==> sortBy == "vote_average.desc"
    ensures sortBy == "" <==> sortPref != popularityLabel && sortPref != ratingLabel
  {
    if sortPref == popularityLabel then "popularity.desc"
    else if sortPref == ratingLabel then "vote_average.desc"
    else ""
  }

  /** The columns written for a listing entry at index `i`. */
  function MovieValuesOf(r: DiscoveryResult, i: int): MovieValues
    requires r.posterPath.Some?
  {
    MovieValues(r.id, r.title, r.posterPath.value, r.overview, r.voteAverage, r.releaseDate, i)
  }

  function TrailerColumnsOf(t: TrailerResult): TrailerColumns {
    TrailerColumns(t.id, t.key, t.name, t.site)
  }

  function ReviewColumnsOf(r: ReviewResult): ReviewColumns {
    ReviewColumns(r.id, r.author, r.content)
  }

  /** The trailer rows built for `movieId` from the fetched trailers, in fetched order. */
  function TrailerRows(fetched: seq<TrailerResult>, movieId: int): seq<TrailerRow> {
    seq(|fetched|, j requires 0 <= j < |fetched| => ChildRow(movieId, TrailerColumnsOf(fetched[j])))
  }

  /** The review rows built for `movieId` from the fetched reviews, in fetched order. */
  function ReviewRows(fetched: seq<ReviewResult>, movieId: int): seq<ReviewRow> {
    seq(|fetched|, j requires 0 <= j < |fetched| => ChildRow(movieId, ReviewColumnsOf(fetched[j])))
  }

  /** Trailers fetched with `movieId`, bulk-inserted under that movie key; nothing
      else changes. */
  function WithTrailers(s: Store, c: Catalog, movieId: int): (out: Store)
    ensures out.scheme == s.scheme && out.movies == s.movies && out.reviews == s.reviews
    ensures s.trailers <= out.trailers
  {
    s.(trailers := s.trailers + TrailerRows(c.getTrailers(movieId), movieId))
  }

  /** Reviews fetched with `movieId`, bulk-inserted under that movie key; nothing
      else changes. */
  function WithReviews(s: Store, c: Catalog, movieId: int): (out: Store)
    ensures out.scheme == s.scheme && out.movies == s.movies && out.trailers == s.trailers
    ensures s.reviews <= out.reviews
  {
    s.(reviews := s.reviews + ReviewRows(c.getReviews(movieId), movieId))
  }

  /** One iteration of the insert loop: a listing entry without a poster changes
      nothing; any other entry is upserted with position `i`, and the trailers and
      reviews fetched with the id the insert returned are appended under that id. */
  function ProcessResult(s: Store, c: Catalog, r: DiscoveryResult, i: int): (out: Store)
    ensures out.scheme == s.scheme
  {
    if r.posterPath.None? then s
    else
      var inserted := Upsert(s, MovieValuesOf(r, i));
      WithReviews(WithTrailers(inserted.store, c, inserted.uriId), c, inserted.uriId)
  }

  /** An entry without a poster changes nothing. An entry with a poster is upserted
      with position `i`: the table gains its id, the row holds its columns, its
      favorite flag is kept (0 for a new row), and no other movie row changes. */
  lemma ProcessResultMovie(s: Store, c: Catalog, r: DiscoveryResult, i: int)
    ensures var out := ProcessResult(s, c, r, i);
      && (r.posterPath.None? ==> out == s)
      && (WellKeyed(s) ==> WellKeyed(out))
      && (r.posterPath.Some? ==>
            && out.movies.Keys == s.movies.Keys + {r.id}
            && Columns(out.movies[r.id]) == MovieValuesOf(r, i)
            && out.movies[r.id].favorite == (if r.id in s.movies then s.movies[r.id].favorite else 0)
            && (r.id in s.movies ==> out.movies[r.id].rowId == s.movies[r.id].rowId)
            && (forall id :: id in s.movies && id != r.id ==> out.movies[id] == s.movies[id]))
  {
    if r.posterPath.Some? {
      UpsertRow(s, MovieValuesOf(r, i));
    }
  }

  /** The trailer and review tables only grow. For an entry with a poster, as many
      trailer rows are appended as trailers were fetched, in fetched order, each
      carrying the movie key the insert returned; the same holds for reviews. */
  lemma ProcessResultChildren(s: Store, c: Catalog, r: DiscoveryResult, i: int)
    ensures var out := ProcessResult(s, c, r, i);
      && s.trailers <= out.trailers
      && s.reviews <= out.reviews
      && (r.posterPath.Some? ==>
            var key := UriId(s.scheme, out.movies[r.id]);
            && |out.trailers| == |s.trailers| + |c.getTrailers(key)|
            && (forall k :: |s.trailers| <= k < |out.trailers| ==> out.trailers[k].movieKey == key)
            && (forall j :: 0 <= j < |c.getTrailers(key)| ==>
                  out.trailers[|s.trailers| + j] == ChildRow(key, TrailerColumnsOf(c.getTrailers(key)[j])))
            && |out.reviews| == |s.reviews| + |c.getReviews(key)|
            && (forall k :: |s.reviews| <= k < |out.reviews| ==> out.reviews[k].movieKey == key)
            && (forall j :: 0 <= j < |c.getReviews(key)| ==>
                  out.reviews[|s.reviews| + j] == ChildRow(key, ReviewColumnsOf(c.getReviews(key)[j]))))
  {
    if r.posterPath.Some? {
      UpsertRow(s, MovieValuesOf(r, i));
    }
  }

  /** The insert loop run over the first `n` listing entries. */
  function InsertPrefix(s: Store, c: Catalog, results: seq<DiscoveryResult>, n: nat): (out: Store)
    requires n <= |results|
    ensures out.scheme == s.scheme
    decreases n
  {
    if n == 0 then s
    else ProcessResult(InsertPrefix(s, c, results, n - 1), c, results[n - 1], n - 1)
  }

  /** The insert loop keeps the movie table keyed by TMDB id, and only ever appends
      to the trailer and review tables. */
  lemma {:induction false} InsertPrefixInvariants(s: Store, c: Catalog, results: seq<DiscoveryResult>, n: nat)
    requires n <= |results|
    ensures var out := InsertPrefix(s, c, results, n);
      && (WellKeyed(s) ==> WellKeyed(out))
      && s.trailers <= out.trailers
      && s.reviews <= out.reviews
  {
    if n > 0 {
      InsertPrefixInvariants(s, c, results, n - 1);
      var p := InsertPrefix(s, c, results, n - 1);
      ProcessResultMovie(p, c, results[n - 1], n - 1);
      ProcessResultChildren(p, c, results[n - 1], n - 1);
    }
  }

  /** The TMDB ids of the first `n` listing entries that have a poster. */
  function PosterIds(results: seq<DiscoveryResult>, n: nat): set<int>
    requires n <= |results|
  {
    set j | 0 <= j < n && results[j].posterPath.Some? :: results[j].id
  }

  /** Entry `j` has a poster and is the last entry among the first `n` with its id
      and a poster: the one whose columns the movie row ends up holding. */
  ghost predicate LastPoster(results: seq<DiscoveryResult>, n: nat, j: int) {
    && 0 <= j < n <= |results|
    && results[j].posterPath.Some?
    && forall m :: j < m < n && results[m].id == results[j].id ==> results[m].posterPath.None?
  }

  /** The index of the entry a poster id's row is written from. */
  function LastPosterIndex(results: seq<DiscoveryResult>, n: nat, id: int): (j: int)
    requires n <= |results|
    requires id in PosterIds(results, n)
    ensures LastPoster(results, n, j) && results[j].id == id
    decreases n
  {
    if results[n - 1].posterPath.Some? && results[n - 1].id == id then n - 1
    else
      assert id in PosterIds(results, n - 1) by {
        var k :| 0 <= k < n && results[k].posterPath.Some? && results[k].id == id;
        assert k != n - 1;
      }
      LastPosterIndex(results, n - 1, id)
  }

  /** The ids of the movie rows whose favorite flag is set. */
  function FavoriteIds(s: Store): set<int> {
    set id | id in s.movies && s.movies[id].favorite != 0
  }

  /** The whole insert phase: every row's position reset to -1, then the insert loop
      over the entire listing. */
  function InsertPhase(s: Store, c: Catalog, results: seq<DiscoveryResult>): Store {
    InsertPrefix(ResetPositions(s), c, results, |results|)
  }

  /** One reconciliation pass once the listing has been fetched: the insert phase,
      then the stale movie rows deleted and, for each TMDB id the stale query found,
      the trailer and review rows with that movie key deleted. */
  function Reconcile(s: Store, c: Catalog, results: seq<DiscoveryResult>): (out: Store)
    ensures forall id :: id in out.movies ==> !IsStale(out.movies[id])
  {
    var inserted := InsertPhase(s, c, results);
    var gone := StaleIds(inserted);
    inserted.(movies := WithoutStale(inserted.movies),
              trailers := KeepRows(inserted.trailers, gone),
              reviews := KeepRows(inserted.reviews, gone))
  }
}
