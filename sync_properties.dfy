/** Properties of the reconciliation pass: ranks, favorites, the cascade delete, and
    what the pass does and does not promise about trailer and review rows. */
module SyncProperties {
  import opened Tmdb
  import opened MovieStore
  import opened SyncSpec

  /** The poster ids of one more entry: those of the shorter prefix, plus the new
      entry's id when it has a poster. */
  lemma PosterIdsStep(results: seq<DiscoveryResult>, n: nat)
    requires 0 < n <= |results|
    ensures PosterIds(results, n) ==
              PosterIds(results, n - 1) + (if results[n - 1].posterPath.Some? then {results[n - 1].id} else {})
  {
    var extra := if results[n - 1].posterPath.Some? then {results[n - 1].id} else {};
    forall id | id in PosterIds(results, n) ensures id in PosterIds(results, n - 1) + extra {
      var k :| 0 <= k < n && results[k].posterPath.Some? && results[k].id == id;
      if k < n - 1 { assert id in PosterIds(results, n - 1); }
    }
    if results[n - 1].posterPath.Some? {
      assert results[n - 1].id in PosterIds(results, n);
    }
  }

  /** The insert loop over the first `n` entries adds exactly the ids of the entries
      that have a poster to the movie table, and leaves the rows of every other id as
      they were. */
  lemma {:induction false} InsertPrefixKeys(s: Store, c: Catalog, results: seq<DiscoveryResult>, n: nat)
    requires n <= |results|
    ensures var out := InsertPrefix(s, c, results, n);
      && out.movies.Keys == s.movies.Keys + PosterIds(results, n)
      && (forall id :: id in s.movies && id !in PosterIds(results, n) ==> out.movies[id] == s.movies[id])
  {
    if n > 0 {
      InsertPrefixKeys(s, c, results, n - 1);
      PosterIdsStep(results, n);
      var p := InsertPrefix(s, c, results, n - 1);
      var r := results[n - 1];
      var out := InsertPrefix(s, c, results, n);
      assert out == ProcessResult(p, c, r, n - 1);
      if r.posterPath.Some? {
        ProcessResultMovie(p, c, r, n - 1);
        assert PosterIds(results, n) == PosterIds(results, n - 1) + {r.id};
        forall id | id in s.movies && id !in PosterIds(results, n) ensures out.movies[id] == s.movies[id] {
          assert id != r.id && id !in PosterIds(results, n - 1);
        }
      }
    }
  }

  /** The insert loop writes no favorite flag: rows already present keep theirs, and
      rows it creates are not favorites. */
  lemma {:induction false} InsertPrefixFavorites(s: Store, c: Catalog, results: seq<DiscoveryResult>, n: nat)
    requires n <= |results|
    ensures var out := InsertPrefix(s, c, results, n);
      && (forall id :: id in s.movies ==> id in out.movies && out.movies[id].favorite == s.movies[id].favorite)
      && (forall id :: id in out.movies && id !in s.movies ==> out.movies[id].favorite == 0)
  {
    if n > 0 {
      InsertPrefixFavorites(s, c, results, n - 1);
      var p := InsertPrefix(s, c, results, n - 1);
      if results[n - 1].posterPath.Some? {
        ProcessResultMovie(p, c, results[n - 1], n - 1);
      }
    }
  }

  /** Each movie row the insert loop writes holds the columns of the last entry with
      its id and a poster, and that entry's index in the full listing (entries without
      a poster counted) as its position. */
  lemma {:induction false} InsertPrefixRanks(s: Store, c: Catalog, results: seq<DiscoveryResult>, n: nat)
    requires n <= |results|
    ensures var out := InsertPrefix(s, c, results, n);
      forall j :: LastPoster(results, n, j) ==>
        results[j].id in out.movies && Columns(out.movies[results[j].id]) == MovieValuesOf(results[j], j)
  {
    if n > 0 {
      InsertPrefixRanks(s, c, results, n - 1);
      var p := InsertPrefix(s, c, results, n - 1);
      var r := results[n - 1];
      var out := InsertPrefix(s, c, results, n);
      if r.posterPath.Some? {
        ProcessResultMovie(p, c, r, n - 1);
      }
      forall j | LastPoster(results, n, j)
        ensures results[j].id in out.movies && Columns(out.movies[results[j].id]) == MovieValuesOf(results[j], j)
      {
        if j < n - 1 && !(r.posterPath.Some? && r.id == results[j].id) {
          assert LastPoster(results, n - 1, j);
        }
      }
    }
  }

  /** Appending rows that all carry one existing movie key keeps a child table free
      of dangling keys. */
  lemma AppendKeepsReferences<C(!new)>(before: seq<ChildRow<C>>, after: seq<ChildRow<C>>, key: int, keys: set<int>)
    requires before <= after
    requires forall row :: row in before ==> row.movieKey in keys
    requires forall i :: |before| <= i < |after| ==> after[i].movieKey == key
    requires key in keys
    ensures forall row :: row in after ==> row.movieKey in keys
  {
    forall row | row in after ensures row.movieKey in keys {
      var i :| 0 <= i < |after| && after[i] == row;
      if i < |before| {
        assert row == before[i];
      }
    }
  }

  /** Upserting a listing entry keeps every movie key valid and makes the returned
      key a valid one. */
  lemma ProcessResultKeys(p: Store, c: Catalog, r: DiscoveryResult, i: int)
    requires WellKeyed(p) && r.posterPath.Some?
    ensures var out := ProcessResult(p, c, r, i);
      && MovieKeys(p) <= MovieKeys(out)
      && UriId(p.scheme, out.movies[r.id]) in MovieKeys(out)
  {
    var out := ProcessResult(p, c, r, i);
    ProcessResultMovie(p, c, r, i);
    forall k | k in MovieKeys(p) ensures k in MovieKeys(out) {
      var id :| id in p.movies && UriId(p.scheme, p.movies[id]) == k;
      assert UriId(out.scheme, out.movies[id]) == k;
    }
  }

  /** One iteration keeps every trailer and review row pointing at an existing movie:
      the rows it adds point at the movie just inserted, and no movie key vanishes. */
  lemma ProcessResultKeepsReferences(p: Store, c: Catalog, r: DiscoveryResult, i: int)
    requires WellKeyed(p) && NoOrphans(p)
    ensures NoOrphans(ProcessResult(p, c, r, i))
  {
    ProcessResultMovie(p, c, r, i);
    if r.posterPath.Some? {
      var out := ProcessResult(p, c, r, i);
      ProcessResultKeys(p, c, r, i);
      ProcessResultChildren(p, c, r, i);
      var key := UriId(p.scheme, out.movies[r.id]);
      AppendKeepsReferences(p.trailers, out.trailers, key, MovieKeys(out));
      AppendKeepsReferences(p.reviews, out.reviews, key, MovieKeys(out));
    }
  }

  /** The insert loop keeps every trailer and review row pointing at an existing movie. */
  lemma {:induction false} InsertPrefixKeepsReferences(s: Store, c: Catalog, results: seq<DiscoveryResult>, n: nat)
    requires n <= |results|
    requires WellKeyed(s) && NoOrphans(s)
    ensures NoOrphans(InsertPrefix(s, c, results, n))
  {
    if n > 0 {
      InsertPrefixKeepsReferences(s, c, results, n - 1);
      InsertPrefixInvariants(s, c, results, n - 1);
      var p := InsertPrefix(s, c, results, n - 1);
      ProcessResultKeepsReferences(p, c, results[n - 1], n - 1);
    }
  }

  /** With TMDB ids in the URIs, the insert loop appends at least the trailers fetched
      for every entry with a poster. */
  lemma {:induction false} InsertPrefixAppendsFetched(s: Store, c: Catalog, results: seq<DiscoveryResult>, n: nat, j: nat)
    requires j < n <= |results| && results[j].posterPath.Some?
    requires s.scheme == TmdbIdUri && WellKeyed(s)
    ensures |InsertPrefix(s, c, results, n).trailers| >= |s.trailers| + |c.getTrailers(results[j].id)|
  {
    var p := InsertPrefix(s, c, results, n - 1);
    ProcessResultChildren(p, c, results[n - 1], n - 1);
    if j < n - 1 {
      InsertPrefixAppendsFetched(s, c, results, n - 1, j);
    } else {
      InsertPrefixInvariants(s, c, results, n - 1);
      var out := ProcessResult(p, c, results[j], j);
      ProcessResultMovie(p, c, results[j], j);
      ProcessResultChildren(p, c, results[j], j);
      assert out.movies[results[j].id].tmdbId == results[j].id;
    }
  }

  /** The insert phase (reset, then the insert loop) on a table keyed by TMDB id: the
      table gains exactly the poster ids; each of them holds the columns of its last
      entry with a poster, and that entry's index as position; every other row is as
      before with position -1; no favorite flag is written. */
  lemma InsertPhaseMovies(s: Store, c: Catalog, results: seq<DiscoveryResult>)
    requires WellKeyed(s)
    ensures var inserted := InsertPhase(s, c, results);
      var posters := PosterIds(results, |results|);
      && WellKeyed(inserted)
      && inserted.movies.Keys == s.movies.Keys + posters
      && (forall j :: LastPoster(results, |results|, j) ==>
            Columns(inserted.movies[results[j].id]) == MovieValuesOf(results[j], j))
      && (forall id :: id in posters ==> inserted.movies[id].position == LastPosterIndex(results, |results|, id))
      && (forall id :: id in s.movies && id !in posters ==> inserted.movies[id] == s.movies[id].(position := -1))
      && (forall id :: id in s.movies ==> inserted.movies[id].favorite == s.movies[id].favorite)
  {
    var reset := ResetPositions(s);
    var inserted := InsertPhase(s, c, results);
    InsertPrefixInvariants(reset, c, results, |results|);
    InsertPrefixKeys(reset, c, results, |results|);
    InsertPrefixFavorites(reset, c, results, |results|);
    InsertPrefixRanks(reset, c, results, |results|);
    forall id | id in PosterIds(results, |results|)
      ensures inserted.movies[id].position == LastPosterIndex(results, |results|, id)
    {
      var j := LastPosterIndex(results, |results|, id);
      assert Columns(inserted.movies[id]) == MovieValuesOf(results[j], j);
    }
  }

  /** The stale query after the insert phase finds exactly the non-favorite movies
      that are absent from the listing (or listed only without a poster). */
  lemma InsertPhaseStale(s: Store, c: Catalog, results: seq<DiscoveryResult>)
    requires WellKeyed(s)
    ensures StaleIds(InsertPhase(s, c, results)) == s.movies.Keys - FavoriteIds(s) - PosterIds(results, |results|)
  {
    var inserted := InsertPhase(s, c, results);
    var posters := PosterIds(results, |results|);
    InsertPhaseMovies(s, c, results);
    forall id | id in posters ensures !IsStale(inserted.movies[id]) {
      assert inserted.movies[id].position == LastPosterIndex(results, |results|, id);
    }
    forall id | id in s.movies && id !in posters
      ensures IsStale(inserted.movies[id]) <==> s.movies[id].favorite == 0
    {
      assert inserted.movies[id] == s.movies[id].(position := -1);
    }
  }

  /** After a pass, the movie table holds exactly the favorites it held before and the
      movies of the listing that have a poster. Each listed movie holds the columns of
      its last entry with a poster and that entry's index as its position; a favorite
      absent from the listing is unchanged except for position -1; no favorite flag
      is changed. Every position other than -1 is the index of an entry with that id,
      so two movies never share a position. */
  lemma ReconcileMovies(s: Store, c: Catalog, results: seq<DiscoveryResult>)
    requires WellKeyed(s)
    ensures var out := Reconcile(s, c, results);
      && WellKeyed(out)
      && out.movies.Keys == FavoriteIds(s) + PosterIds(results, |results|)
      && (forall j :: LastPoster(results, |results|, j) ==> Columns(out.movies[results[j].id]) == MovieValuesOf(results[j], j))
      && (forall id :: id in out.movies && id !in PosterIds(results, |results|) ==>
            out.movies[id] == s.movies[id].(position := -1))
      && (forall id :: id in s.movies && id in out.movies ==> out.movies[id].favorite == s.movies[id].favorite)
      && (forall id :: id in out.movies && out.movies[id].position != -1 ==>
            LastPoster(results, |results|, out.movies[id].position) && results[out.movies[id].position].id == id)
  {
    var inserted := InsertPhase(s, c, results);
    var out := Reconcile(s, c, results);
    var posters := PosterIds(results, |results|);
    InsertPhaseMovies(s, c, results);
    InsertPhaseStale(s, c, results);
    assert out.movies == WithoutStale(inserted.movies);
    forall id | id in posters ensures id in out.movies {
      assert inserted.movies[id].position == LastPosterIndex(results, |results|, id);
    }
    forall id | id in s.movies && id !in posters
      ensures id in out.movies <==> s.movies[id].favorite != 0
    {
      assert inserted.movies[id] == s.movies[id].(position := -1);
    }
  }

  /** After a pass, no two movies share a position other than -1: a position names
      the one listing entry the row was written from. */
  lemma ReconcilePositionsDistinct(s: Store, c: Catalog, results: seq<DiscoveryResult>)
    requires WellKeyed(s)
    ensures var out := Reconcile(s, c, results);
      forall a, b :: a in out.movies && b in out.movies && a != b && out.movies[a].position != -1 ==>
        out.movies[a].position != out.movies[b].position
  {
    ReconcileMovies(s, c, results);
  }

  /** The cascade: the trailer and review rows a pass removes are exactly those whose
      movie key is the TMDB id of a non-favorite movie absent from the listing; every
      other row of the insert phase remains, with all its copies, in its order. */
  lemma ReconcileCascade(s: Store, c: Catalog, results: seq<DiscoveryResult>)
    requires WellKeyed(s)
    ensures var inserted := InsertPhase(s, c, results);
      var dropped := s.movies.Keys - FavoriteIds(s) - PosterIds(results, |results|);
      var out := Reconcile(s, c, results);
      && out.trailers == KeepRows(inserted.trailers, dropped)
      && out.reviews == KeepRows(inserted.reviews, dropped)
      && (forall row :: row in out.trailers <==> row in inserted.trailers && row.movieKey !in dropped)
      && (forall row :: row in out.reviews <==> row in inserted.reviews && row.movieKey !in dropped)
      && (forall row :: multiset(out.trailers)[row] ==
            if row.movieKey in dropped then 0 else multiset(inserted.trailers)[row])
      && (forall row :: multiset(out.reviews)[row] ==
            if row.movieKey in dropped then 0 else multiset(inserted.reviews)[row])
  {
    var inserted := InsertPhase(s, c, results);
    var dropped := s.movies.Keys - FavoriteIds(s) - PosterIds(results, |results|);
    InsertPhaseStale(s, c, results);
    KeepRowsCounts(inserted.trailers, dropped);
    KeepRowsCounts(inserted.reviews, dropped);
  }

  lemma TmdbKeysAreIds(s: Store)
    requires s.scheme == TmdbIdUri && WellKeyed(s)
    ensures MovieKeys(s) == s.movies.Keys
  {
    forall id | id in s.movies ensures id in MovieKeys(s) {
      assert UriId(s.scheme, s.movies[id]) == id;
    }
  }

  /** With TMDB ids in the URIs, a pass leaves no trailer or review row pointing at a
      movie that is not in the table, provided none did before. */
  lemma ReconcileNoOrphans(s: Store, c: Catalog, results: seq<DiscoveryResult>)
    requires s.scheme == TmdbIdUri && WellKeyed(s) && NoOrphans(s)
    ensures NoOrphans(Reconcile(s, c, results))
  {
    var reset := ResetPositions(s);
    var inserted := InsertPhase(s, c, results);
    var out := Reconcile(s, c, results);
    TmdbKeysAreIds(s);
    TmdbKeysAreIds(reset);
    InsertPrefixKeepsReferences(reset, c, results, |results|);
    InsertPrefixInvariants(reset, c, results, |results|);
    TmdbKeysAreIds(inserted);
    assert WellKeyed(out);
    TmdbKeysAreIds(out);
  }

  /** With row ids in the URIs the cascade misses: a stale movie whose row id differs
      from its TMDB id is deleted, while its trailer, keyed by the row id, stays. */
  lemma OrphanWithRowIdUris()
    ensures var movie := MovieRow(7, 550, "Fight Club", "/poster.jpg", "", Double(0), "1999-10-15", 3, 0);
      var s := Store(RowIdUri, map[550 := movie], [ChildRow(7, TrailerColumns("t1", "k1", "Trailer", "YouTube"))], [], 8);
      var c := Catalog(_ => [], _ => [], _ => []);
      && WellKeyed(s) && NoOrphans(s)
      && !NoOrphans(Reconcile(s, c, []))
  {
    var movie := MovieRow(7, 550, "Fight Club", "/poster.jpg", "", Double(0), "1999-10-15", 3, 0);
    var trailer := ChildRow(7, TrailerColumns("t1", "k1", "Trailer", "YouTube"));
    var s := Store(RowIdUri, map[550 := movie], [trailer], [], 8);
    var c := Catalog(_ => [], _ => [], _ => []);
    assert UriId(s.scheme, s.movies[550]) == 7;
    assert MovieKeys(s) == {7};
    var inserted := InsertPhase(s, c, []);
    assert inserted == ResetPositions(s);
    assert StaleIds(inserted) == {550};
    var out := Reconcile(s, c, []);
    assert out.movies == map[];
    assert trailer in out.trailers;
  }

  /** A second pass over the same listing finds nothing stale: every movie the first
      pass kept is a favorite or is listed with a poster. */
  lemma SecondPassFindsNoStale(s: Store, c: Catalog, results: seq<DiscoveryResult>)
    requires WellKeyed(s)
    ensures var once := Reconcile(s, c, results);
      && WellKeyed(once)
      && StaleIds(InsertPhase(once, c, results)) == {}
  {
    var once := Reconcile(s, c, results);
    var posters := PosterIds(results, |results|);
    ReconcileMovies(s, c, results);
    InsertPhaseStale(once, c, results);
    forall id | id in once.movies ensures id in FavoriteIds(once) + posters {
      if id !in posters {
        assert id in FavoriteIds(s);
      }
    }
  }

  /** A second pass over the same listing appends the fetched trailers again: the
      trailer table grows, so the pass is not idempotent and does not replace a
      movie's trailers. */
  lemma RepeatedPassAppendsTrailers(s: Store, c: Catalog, results: seq<DiscoveryResult>, j: nat)
    requires s.scheme == TmdbIdUri && WellKeyed(s)
    requires j < |results| && results[j].posterPath.Some?
    ensures var once := Reconcile(s, c, results);
      |Reconcile(once, c, results).trailers| >= |once.trailers| + |c.getTrailers(results[j].id)|
  {
    var once := Reconcile(s, c, results);
    SecondPassFindsNoStale(s, c, results);
    var inserted := InsertPhase(once, c, results);
    KeepRowsNone(inserted.trailers);
    InsertPrefixAppendsFetched(ResetPositions(once), c, results, |results|, j);
  }
}
