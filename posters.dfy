/** The URL-building part of `fetch_poster`. The HTTP request and JSON decoding are outside
    the model: what reaches this module is the `poster_path` field of the decoded response. */
module Posters {
  import opened Wrappers

  /** The movie database's identifier of a movie. */
  type MovieId = int

  /** The fixed prefix of every poster URL. */
  const ImageBase: string := "http://image.tmdb.org/t/p/w500/"

  /** What `data['poster_path']` finds in a decoded response: no such key, JSON `null`,
      or a string. */
  datatype PosterField = Absent | Null | Path(path: string)

  /** `data['poster_path']` on a response without that key raises a `KeyError`. */
  datatype PosterError = PosterPathMissing(movieId: MovieId)

  /** `fetch_poster(movie_id)` given the `poster_path` field of the provider's response:
      a non-empty path is appended to the fixed prefix, a `null` or empty path gives `None`,
      and a response without the field is an error naming the movie. */
  function FetchPoster(movieId: MovieId, field: PosterField): (r: Result<Option<string>, PosterError>)
    ensures r.Failure? <==> field.Absent?
    ensures r.Failure? ==> r.error == PosterPathMissing(movieId)
    ensures r.Success? ==> (r.value.Some? <==> field.Path? && field.path != [])
    ensures r.Success? && r.value.Some? ==>
              |r.value.value| == |ImageBase| + |field.path| &&
              r.value.value[..|ImageBase|] == ImageBase &&
              r.value.value[|ImageBase|..] == field.path
  {
    match field
    case Absent => Failure(PosterPathMissing(movieId))
    case Null => Success(None)
    case Path(p) => if p != [] then Success(Some(ImageBase + p)) else Success(None)
  }

  /** Everything after the fixed prefix of a URL. `fetch_poster` has no such step; this
      function exists only to state that the URL it builds is injective in the path. */
  function PathOf(url: string): (p: Option<string>)
    ensures p.Some? <==> |url| > |ImageBase| && url[..|ImageBase|] == ImageBase
  {
    if |url| > |ImageBase| && url[..|ImageBase|] == ImageBase then Some(url[|ImageBase|..]) else None
  }

  /** The URL `fetch_poster` builds is injective in the path: stripping the prefix gives
      back the path, so different paths never share a URL. */
  lemma PosterUrlRoundTrip(movieId: MovieId, path: string)
    requires path != []
    ensures var r := FetchPoster(movieId, Path(path));
            r.Success? && r.value.Some? && PathOf(r.value.value) == Some(path)
  {
  }
}
