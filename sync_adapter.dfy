/** The sync adapter's pass as it runs against the provider: each step a call that
    updates the `ContentStore` in place, each method proved to leave the store in
    the state the matching `SyncSpec` function describes. */
module MovieSyncAdapter {
  import opened Tmdb
  import opened MovieStore
  import opened SyncSpec

  /** Fetches the trailers of `movieId`, builds one row per trailer under that movie
      key, and bulk-inserts them. */
  method GetMoviesTrailers(store: ContentStore, catalog: Catalog, movieId: int)
    requires store.Valid()
    modifies store
    ensures store.Valid()
    ensures store.State() == WithTrailers(old(store.State()), catalog, movieId)
  {
    var trailers := catalog.getTrailers(movieId);
    var valuesVector: seq<TrailerRow> := [];
    for i := 0 to |trailers|
      invariant valuesVector == TrailerRows(trailers[..i], movieId)
    {
      valuesVector := valuesVector + [ChildRow(movieId, TrailerColumnsOf(trailers[i]))];
    }
    assert trailers[..|trailers|] == trailers;
    store.BulkInsertTrailers(valuesVector);
  }

  /** Fetches the reviews of `movieId`, builds one row per review under that movie
      key, and bulk-inserts them. */
  method GetMoviesReviews(store: ContentStore, catalog: Catalog, movieId: int)
    requires store.Valid()
    modifies store
    ensures store.Valid()
    ensures store.State() == WithReviews(old(store.State()), catalog, movieId)
  {
    var reviews := catalog.getReviews(movieId);
    var valuesVector: seq<ReviewRow> := [];
    for i := 0 to |reviews|
      invariant valuesVector == ReviewRows(reviews[..i], movieId)
    {
      valuesVector := valuesVector + [ChildRow(movieId, ReviewColumnsOf(reviews[i]))];
    }
    assert reviews[..|reviews|] == reviews;
    store.BulkInsertReviews(valuesVector);
  }

  /** The insert loop: every listing entry with a poster is inserted with its index as
      position, then its trailers and reviews are fetched with the id the insert
      returned; entries without a poster are skipped. */
  method InsertMovieFromDiscovery(store: ContentStore, catalog: Catalog, results: seq<DiscoveryResult>)
    requires store.Valid()
    modifies store
    ensures store.Valid()
    ensures store.State() == InsertPrefix(old(store.State()), catalog, results, |results|)
  {
    for i := 0 to |results|
      invariant store.Valid()
      invariant store.State() == InsertPrefix(old(store.State()), catalog, results, i)
    {
      var result := results[i];
      if result.posterPath.None? {
        continue;
      }
      var id := store.InsertMovie(MovieValuesOf(result, i));
      GetMoviesTrailers(store, catalog, id);
      GetMoviesReviews(store, catalog, id);
    }
  }

  /** One sync pass: fetch the listing in the preferred order, reset every position,
      insert the listing, then delete the stale movies and, for each TMDB id the stale
      query returned, the trailer and review rows with that movie key. */
  method OnPerformSync(store: ContentStore, catalog: Catalog, sortPref: string, popularityLabel: string, ratingLabel: string)
    requires store.Valid()
    modifies store
    ensures store.Valid()
    ensures store.State() ==
      Reconcile(old(store.State()), catalog, catalog.discoverMovies(SortKey(sortPref, popularityLabel, ratingLabel)))
  {
    var sortBy := SortKey(sortPref, popularityLabel, ratingLabel);
    var discovery := catalog.discoverMovies(sortBy);
    store.UpdatePositions();
    InsertMovieFromDiscovery(store, catalog, discovery);

    var moviesToDelete := store.QueryStale();
    store.DeleteStale();
    ghost var afterDelete := store.State();
    KeepRowsNone(afterDelete.trailers);
    KeepRowsNone(afterDelete.reviews);

    var cursor := moviesToDelete;
    ghost var visited: set<int> := {};
    while cursor != {}
      invariant store.Valid()
      invariant cursor !! visited && cursor + visited == moviesToDelete
      invariant store.State() == afterDelete.(trailers := KeepRows(afterDelete.trailers, visited),
                                              reviews := KeepRows(afterDelete.reviews, visited))
      decreases cursor
    {
      var tmdbId :| tmdbId in cursor;
      store.DeleteTrailersOf(tmdbId);
      store.DeleteReviewsOf(tmdbId);
      KeepRowsAgain(afterDelete.trailers, visited, tmdbId);
      KeepRowsAgain(afterDelete.reviews, visited, tmdbId);
      cursor := cursor - {tmdbId};
      visited := visited + {tmdbId};
    }
  }
}
