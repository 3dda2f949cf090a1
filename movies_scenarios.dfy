/** The OMDb replies of the search service's unit tests, classified. */
module MoviesScenarios {
  import opened Wrappers
  import opened Movies

  /** `Response: "True"` with a Search list yields that list. */
  lemma FoundReplyYieldsSearch(movies: seq<Movie>)
    ensures SearchMovies(Received(OmdbReply(Some("True"), None, Some(movies)))) == Success(movies)
  {
  }

  /** "Movie not found!" is not an invalid-key complaint, so the answer is an empty list. */
  lemma NotFoundReplyIsEmpty()
    ensures SearchMovies(Received(OmdbReply(Some("False"), Some("Movie not found!"), None))) == Success([])
  {
    var text := "Movie not found!";
    assert text[..|INVALID_KEY_PHRASE|] != INVALID_KEY_PHRASE by { assert text[0] != INVALID_KEY_PHRASE[0]; }
    assert text[1..][..|INVALID_KEY_PHRASE|] != INVALID_KEY_PHRASE by { assert text[1] != INVALID_KEY_PHRASE[0]; }
    assert !Includes(text[2..], INVALID_KEY_PHRASE);
    assert !Includes(text, INVALID_KEY_PHRASE);
  }

  /** "Invalid API key!" is rejected with the invalid-key 500. */
  lemma InvalidKeyReplyFails()
    ensures SearchMovies(Received(OmdbReply(Some("False"), Some("Invalid API key!"), None)))
         == Failure(HttpException(INVALID_KEY_MESSAGE, INTERNAL_SERVER_ERROR))
  {
  }

  /** A network error becomes the generic 500. */
  lemma NetworkErrorFails()
    ensures SearchMovies(Rejected("Network error")) == Failure(HttpException(FETCH_FAILED_MESSAGE, INTERNAL_SERVER_ERROR))
  {
  }
}
