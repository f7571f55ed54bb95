/** The local content store: a movie table keyed by TMDB id and two child tables
    (trailers, reviews) whose rows point at their movie through a movie key.

    The content provider that implements these tables is not part of this model.
    Its operations are given here as functions on an abstract `Store` value, and the
    class `ContentStore` holds the three tables as fields that its methods update,
    each method proved to agree with its function. */
module MovieStore {
  import opened Tmdb

  /** Which number the URI returned by an insert carries, and so which number
      `getIdFromUri` hands back: the movie's TMDB id or the provider's own row id. */
  datatype KeyScheme = TmdbIdUri | RowIdUri

  /** A row of the movie table. `position` is the rank in the latest listing, -1 when
      the movie was absent from it; `favorite` is the integer column the user sets. */
  datatype MovieRow = MovieRow(
    rowId: int,
    tmdbId: int,
    title: string,
    poster: string,
    synopsis: string,
    voteAverage: Double,
    releaseDate: string,
    position: int,
    favorite: int)

  /** The columns the sync pass writes when it inserts a movie. */
  datatype MovieValues = MovieValues(
    tmdbId: int,
    title: string,
    poster: string,
    synopsis: string,
    voteAverage: Double,
    releaseDate: string,
    position: int)

  /** A row of a child table: the key of the movie it belongs to, and its own columns. */
  datatype ChildRow<C> = ChildRow(movieKey: int, columns: C)

  datatype TrailerColumns = TrailerColumns(tmdbId: string, key: string, name: string, site: string)
  datatype ReviewColumns = ReviewColumns(tmdbId: string, author: string, content: string)

  type TrailerRow = ChildRow<TrailerColumns>
  type ReviewRow = ChildRow<ReviewColumns>

  /** The whole store as a value. */
  datatype Store = Store(
    scheme: KeyScheme,
    movies: map<int, MovieRow>,
    trailers: seq<TrailerRow>,
    reviews: seq<ReviewRow>,
    nextRowId: int)

  /** The movie table is keyed by the TMDB id column (its unique key). */
  ghost predicate WellKeyed(s: Store) {
    forall id :: id in s.movies ==> s.movies[id].tmdbId == id
  }

  /** The columns of a movie row that an insert writes. */
  function Columns(row: MovieRow): MovieValues {
    MovieValues(row.tmdbId, row.title, row.poster, row.synopsis, row.voteAverage, row.releaseDate, row.position)
  }

  /** A movie row holding `v`, with the given row id and favorite flag. */
  function Stored(rowId: int, favorite: int, v: MovieValues): (row: MovieRow)
    ensures Columns(row) == v && row.rowId == rowId && row.favorite == favorite
  {
    MovieRow(rowId, v.tmdbId, v.title, v.poster, v.synopsis, v.voteAverage, v.releaseDate, v.position, favorite)
  }

  /** The number an insert's URI carries for `row`. */
  function UriId(scheme: KeyScheme, row: MovieRow): int {
    match scheme
    case TmdbIdUri => row.tmdbId
    case RowIdUri => row.rowId
  }

  /** Every movie key a child row can legitimately point at. */
  function MovieKeys(s: Store): set<int> {
    set id | id in s.movies :: UriId(s.scheme, s.movies[id])
  }

  /** The provider's row ids: distinct, and all below the next one it hands out. */
  ghost predicate RowIdsFresh(s: Store) {
    && (forall id :: id in s.movies ==> s.movies[id].rowId < s.nextRowId)
    && (forall a, b :: a in s.movies && b in s.movies && a != b ==> s.movies[a].rowId != s.movies[b].rowId)
  }

  /** Referential integrity: every trailer and review row points at an existing movie. */
  ghost predicate NoOrphans(s: Store) {
    && (forall row :: row in s.trailers ==> row.movieKey in MovieKeys(s))
    && (forall row :: row in s.reviews ==> row.movieKey in MovieKeys(s))
  }

  /** The selection `favorite = 0 AND position = -1`. */
  predicate IsStale(row: MovieRow) {
    row.favorite == 0 && row.position == -1
  }

  /** Bulk update with no selection: position -1 on every movie row, nothing else. */
  function ResetPositions(s: Store): (r: Store)
    ensures r.movies.Keys == s.movies.Keys
    ensures forall id :: id in r.movies ==> r.movies[id] == s.movies[id].(position := -1)
    ensures r.scheme == s.scheme && r.trailers == s.trailers && r.reviews == s.reviews
    ensures r.nextRowId == s.nextRowId
    ensures WellKeyed(s) ==> WellKeyed(r)
  {
    s.(movies := map id | id in s.movies :: s.movies[id].(position := -1))
  }

  datatype InsertOutcome = InsertOutcome(store: Store, uriId: int)

  /** Insert of a movie row, as an upsert keyed by TMDB id. The outcome carries the
      id the returned URI holds. */
  function Upsert(s: Store, v: MovieValues): (r: InsertOutcome)
    ensures r.store.scheme == s.scheme && r.store.trailers == s.trailers && r.store.reviews == s.reviews
  {
    if v.tmdbId in s.movies then
      var row := Stored(s.movies[v.tmdbId].rowId, s.movies[v.tmdbId].favorite, v);
      InsertOutcome(s.(movies := s.movies[v.tmdbId := row]), UriId(s.scheme, row))
    else
      var row := Stored(s.nextRowId, 0, v);
      InsertOutcome(s.(movies := s.movies[v.tmdbId := row], nextRowId := s.nextRowId + 1), UriId(s.scheme, row))
  }

  /** An upsert adds `v`'s TMDB id to the table and writes every column of `v` into
      its row. An existing row keeps its row id and favorite flag; a new row gets a
      fresh row id and favorite 0. No other row changes, and the returned id is the
      one the written row's URI carries. */
  lemma UpsertRow(s: Store, v: MovieValues)
    ensures var r := Upsert(s, v);
      && r.store.movies.Keys == s.movies.Keys + {v.tmdbId}
      && Columns(r.store.movies[v.tmdbId]) == v
      && (v.tmdbId in s.movies ==>
            && r.store.movies[v.tmdbId].favorite == s.movies[v.tmdbId].favorite
            && r.store.movies[v.tmdbId].rowId == s.movies[v.tmdbId].rowId)
      && (v.tmdbId !in s.movies ==>
            && r.store.movies[v.tmdbId].favorite == 0
            && r.store.movies[v.tmdbId].rowId == s.nextRowId
            && r.store.nextRowId == s.nextRowId + 1)
      && (forall id :: id in s.movies && id != v.tmdbId ==> r.store.movies[id] == s.movies[id])
      && r.uriId == UriId(s.scheme, r.store.movies[v.tmdbId])
      && (WellKeyed(s) ==> WellKeyed(r.store))
  {
  }

  /** Query of the TMDB id column under the stale selection. */
  function StaleIds(s: Store): (ids: set<int>)
    ensures WellKeyed(s) ==> forall id :: id in ids <==> id in s.movies && IsStale(s.movies[id])
  {
    set id | id in s.movies && IsStale(s.movies[id]) :: s.movies[id].tmdbId
  }

  /** Delete of the movie rows under the stale selection. */
  function WithoutStale(m: map<int, MovieRow>): (r: map<int, MovieRow>)
    ensures forall id :: id in r <==> id in m && !IsStale(m[id])
    ensures forall id :: id in r ==> r[id] == m[id]
  {
    map id | id in m && !IsStale(m[id]) :: m[id]
  }

  /** Delete of the child rows whose movie key is in `gone`; the others keep their order. */
  function KeepRows<C(!new)>(rows: seq<ChildRow<C>>, gone: set<int>): (r: seq<ChildRow<C>>)
    ensures |r| <= |rows|
    ensures forall row :: row in r <==> row in rows && row.movieKey !in gone
  {
    if rows == [] then []
    else if rows[0].movieKey in gone then KeepRows(rows[1..], gone)
    else [rows[0]] + KeepRows(rows[1..], gone)
  }

  /** Every copy of a surviving row is kept, and no copy of a deleted one. */
  lemma {:induction false} KeepRowsCounts<C(!new)>(rows: seq<ChildRow<C>>, gone: set<int>)
    ensures forall row ::
              multiset(KeepRows(rows, gone))[row] == if row.movieKey in gone then 0 else multiset(rows)[row]
  {
    if rows != [] {
      KeepRowsCounts(rows[1..], gone);
      assert rows == [rows[0]] + rows[1..];
    }
  }

  /** Deleting nothing leaves the child table as it was. */
  lemma {:induction false} KeepRowsNone<C(!new)>(rows: seq<ChildRow<C>>)
    ensures KeepRows(rows, {}) == rows
  {
    if rows != [] {
      KeepRowsNone(rows[1..]);
      assert rows == [rows[0]] + rows[1..];
    }
  }

  /** Deleting by one more key after a set of keys is deleting by the larger set. */
  lemma {:induction false} KeepRowsAgain<C(!new)>(rows: seq<ChildRow<C>>, gone: set<int>, key: int)
    ensures KeepRows(KeepRows(rows, gone), {key}) == KeepRows(rows, gone + {key})
  {
    if rows != [] {
      KeepRowsAgain(rows[1..], gone, key);
      if rows[0].movieKey !in gone {
        assert KeepRows(rows, gone) == [rows[0]] + KeepRows(rows[1..], gone);
        assert ([rows[0]] + KeepRows(rows[1..], gone))[1..] == KeepRows(rows[1..], gone);
      }
    }
  }

  /** The provider behind the content resolver: three tables updated in place. */
  class ContentStore {
    const scheme: KeyScheme
    var movies: map<int, MovieRow>
    var trailers: seq<TrailerRow>
    var reviews: seq<ReviewRow>
    var nextRowId: int

    ghost function State(): Store
      reads this
    {
      Store(scheme, movies, trailers, reviews, nextRowId)
    }

    ghost predicate Valid()
      reads this
    {
      WellKeyed(State()) && RowIdsFresh(State())
    }

    constructor (scheme: KeyScheme)
      ensures Valid()
      ensures State() == Store(scheme, map[], [], [], 1)
    {
      this.scheme := scheme;
      movies := map[];
      trailers := [];
      reviews := [];
      nextRowId := 1;
    }

    /** `update(CONTENT_URI, {position: -1}, null, null)`. */
    method UpdatePositions()
      requires Valid()
      modifies this
      ensures Valid()
      ensures State() == ResetPositions(old(State()))
    {
      movies := map id | id in movies :: movies[id].(position := -1);
    }

    /** `insert(CONTENT_URI, values)` followed by `getIdFromUri` on the returned URI. */
    method InsertMovie(v: MovieValues) returns (uriId: int)
      requires Valid()
      modifies this
      ensures Valid()
      ensures InsertOutcome(State(), uriId) == Upsert(old(State()), v)
    {
      var row: MovieRow;
      if v.tmdbId in movies {
        row := Stored(movies[v.tmdbId].rowId, movies[v.tmdbId].favorite, v);
      } else {
        row := Stored(nextRowId, 0, v);
        nextRowId := nextRowId + 1;
      }
      movies := movies[v.tmdbId := row];
      uriId := UriId(scheme, row);
    }

    /** `bulkInsert(TrailerEntry.CONTENT_URI, values)`: appends, never replaces. */
    method BulkInsertTrailers(values: seq<TrailerRow>)
      requires Valid()
      modifies this
      ensures Valid()
      ensures State() == old(State()).(trailers := old(trailers) + values)
    {
      trailers := trailers + values;
    }

    /** `bulkInsert(ReviewEntry.CONTENT_URI, values)`: appends, never replaces. */
    method BulkInsertReviews(values: seq<ReviewRow>)
      requires Valid()
      modifies this
      ensures Valid()
      ensures State() == old(State()).(reviews := old(reviews) + values)
    {
      reviews := reviews + values;
    }

    /** `query` of the TMDB id column under `favorite=0 AND position=-1`, read as a
        snapshot: the ids of exactly the stale movie rows. */
    method QueryStale() returns (ids: set<int>)
      requires Valid()
      ensures forall id :: id in ids <==> id in movies && IsStale(movies[id])
      ensures ids == StaleIds(State())
    {
      ids := set id | id in movies && IsStale(movies[id]) :: movies[id].tmdbId;
    }

    /** `delete(CONTENT_URI, "favorite=0 AND position=-1")`. */
    method DeleteStale()
      requires Valid()
      modifies this
      ensures Valid()
      ensures State() == old(State()).(movies := WithoutStale(old(movies)))
    {
      movies := map id | id in movies && !IsStale(movies[id]) :: movies[id];
    }

    /** `delete(TrailerEntry.CONTENT_URI, "movie_key=?", [key])`. */
    method DeleteTrailersOf(key: int)
      requires Valid()
      modifies this
      ensures Valid()
      ensures State() == old(State()).(trailers := KeepRows(old(trailers), {key}))
    {
      trailers := KeepRows(trailers, {key});
    }

    /** `delete(ReviewEntry.CONTENT_URI, "movie_key=?", [key])`. */
    method DeleteReviewsOf(key: int)
      requires Valid()
      modifies this
      ensures Valid()
      ensures State() == old(State()).(reviews := KeepRows(old(reviews), {key}))
    {
      reviews := KeepRows(reviews, {key});
    }
  }
}
