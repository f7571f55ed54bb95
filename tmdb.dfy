/** Records the remote movie catalog (TMDB) answers with, and the catalog itself.

    The three HTTP requests the sync pass issues (discover, trailers, reviews) are
    modelled as total functions from their arguments to the result lists they
    return; the API key, the base URL and the JSON mapping are left out. */
module Tmdb {

  datatype Option<T> = None | Some(value: T)

  /** A Java `double`, carried as its IEEE-754 bit pattern. The sync pass only copies
      it into a column, so the model never interprets it. */
  datatype Double = Double(bits: bv64)

  /** One entry of the discover listing. A `null` poster path is `None`. */
  datatype DiscoveryResult = DiscoveryResult(
    id: int,
    title: string,
    posterPath: Option<string>,
    overview: string,
    voteAverage: Double,
    releaseDate: string)

  /** One entry of the trailers listing of a movie (the fields the pass copies). */
  datatype TrailerResult = TrailerResult(id: string, key: string, name: string, site: string)

  /** One entry of the reviews listing of a movie (the fields the pass copies). */
  datatype ReviewResult = ReviewResult(id: string, author: string, content: string)

  /** The remote catalog as seen by one pass: what each request returns. */
  datatype Catalog = Catalog(
    discoverMovies: string -> seq<DiscoveryResult>,
    getTrailers: int -> seq<TrailerResult>,
    getReviews: int -> seq<ReviewResult>)
}
