/**
 * The movie record and the classification of an OMDb search reply
 * (backend/src/movies/movies.service.ts). The HTTP request itself is not
 * modelled: what it delivered is the input `Fetch`.
 */
module Movies {
  import opened Wrappers

  /** One catalog entry, keyed elsewhere by `imdbID`. */
  datatype Movie = Movie(imdbID: string, Title: string, Year: string, Poster: string)

  /** NestJS `HttpStatus.INTERNAL_SERVER_ERROR`. */
  const INTERNAL_SERVER_ERROR: int := 500

  /** NestJS `HttpException`: a response message and a status code. */
  datatype HttpException = HttpException(message: string, status: int)

  /** The phrase whose presence in OMDb's `Error` text marks a rejected API key. */
  const INVALID_KEY_PHRASE: string := "Invalid API key"

  const INVALID_KEY_MESSAGE: string :=
    "Invalid OMDb API key. Please check your .env file and get a valid key from https://www.omdbapi.com/apikey.aspx"

  const FETCH_FAILED_MESSAGE: string := "Failed to fetch movies from OMDb"

  /** The body of an OMDb reply; each of its fields may be absent. */
  datatype OmdbReply = OmdbReply(response: Option<string>, error: Option<string>, search: Option<seq<Movie>>)

  /**
   * What the upstream request delivered: a reply body, or a rejection by the
   * HTTP client (network failure and the like), which is never an HttpException.
   */
  datatype Fetch = Received(reply: OmdbReply) | Rejected(reason: string)

  /** What the try block can throw. */
  datatype Thrown = Http(exception: HttpException) | Other(message: string)

  /** How the try block ends: with a returned list or a thrown value. */
  datatype Completion = Returned(movies: seq<Movie>) | Threw(thrown: Thrown)

  // ---------------------------------------------------------------------------
  // Substring search (JavaScript's String.prototype.includes)
  // ---------------------------------------------------------------------------

  /** `phrase` occurs in `text` starting at offset `i`. */
  ghost predicate OccursAt(text: string, phrase: string, i: int) {
    0 <= i && i + |phrase| <= |text| && text[i..i + |phrase|] == phrase
  }

  /** `phrase` occurs somewhere in `text`. */
  ghost predicate Mentions(text: string, phrase: string) {
    exists i :: OccursAt(text, phrase, i)
  }

  /** Occurrences in `text[1..]` are the occurrences in `text` shifted by one, when none starts at 0. */
  lemma MentionsTail(text: string, phrase: string)
    requires |text| > 0 && !OccursAt(text, phrase, 0)
    ensures Mentions(text[1..], phrase) <==> Mentions(text, phrase)
  {
    if Mentions(text[1..], phrase) {
      var i :| OccursAt(text[1..], phrase, i);
      assert text[1..][i..i + |phrase|] == text[i + 1..i + 1 + |phrase|];
      assert OccursAt(text, phrase, i + 1);
    }
    if Mentions(text, phrase) {
      var i :| OccursAt(text, phrase, i);
      assert i != 0;
      assert text[1..][i - 1..i - 1 + |phrase|] == text[i..i + |phrase|];
      assert OccursAt(text[1..], phrase, i - 1);
    }
  }

  /** `text.includes(phrase)`: true exactly when `phrase` occurs in `text`. */
  function Includes(text: string, phrase: string): (b: bool)
    ensures b <==> Mentions(text, phrase)
    decreases |text|
  {
    if |phrase| > |text| then
      false
    else if text[..|phrase|] == phrase then
      assert OccursAt(text, phrase, 0);
      true
    else
      MentionsTail(text, phrase);
      Includes(text[1..], phrase)
  }

  // ---------------------------------------------------------------------------
  // searchMovies: the try block, the catch block, and their composition
  // ---------------------------------------------------------------------------

  /** OMDb answered `Response: "False"` with an `Error` text naming an invalid API key. */
  ghost predicate ReportsInvalidKey(reply: OmdbReply) {
    reply.response == Some("False") && reply.error.Some? && Mentions(reply.error.value, INVALID_KEY_PHRASE)
  }

  /** The body of the `try` in searchMovies, after the request has settled. */
  function TryBlock(f: Fetch): (c: Completion)
    ensures f.Rejected? ==> c == Threw(Other(f.reason))
    ensures f.Received? && ReportsInvalidKey(f.reply) ==>
              c == Threw(Http(HttpException(INVALID_KEY_MESSAGE, INTERNAL_SERVER_ERROR)))
    ensures f.Received? && !ReportsInvalidKey(f.reply) ==> c.Returned?
  {
    match f
    case Rejected(reason) => Threw(Other(reason))
    case Received(reply) =>
      if reply.response == Some("False") then
        if reply.error.Some? && Includes(reply.error.value, INVALID_KEY_PHRASE) then
          Threw(Http(HttpException(INVALID_KEY_MESSAGE, INTERNAL_SERVER_ERROR)))
        else
          Returned([])
      else
        Returned(reply.search.GetOr([]))
  }

  /** The `catch`: an HttpException is rethrown as it is; anything else becomes a generic 500. */
  function CatchBlock(c: Completion): (r: Result<seq<Movie>, HttpException>)
    ensures c.Returned? <==> r.Success?
    ensures c.Returned? ==> r.value == c.movies
    ensures c.Threw? && c.thrown.Http? ==> r.error == c.thrown.exception
    ensures c.Threw? && c.thrown.Other? ==> r.error == HttpException(FETCH_FAILED_MESSAGE, INTERNAL_SERVER_ERROR)
  {
    match c
    case Returned(movies) => Success(movies)
    case Threw(Http(e)) => Failure(e)
    case Threw(Other(_)) => Failure(HttpException(FETCH_FAILED_MESSAGE, INTERNAL_SERVER_ERROR))
  }

  /** searchMovies once the request has settled: a movie list, or the HttpException it rejects with. */
  function SearchMovies(f: Fetch): (r: Result<seq<Movie>, HttpException>)
    // every failure is a 500
    ensures r.Failure? ==> r.error.status == INTERNAL_SERVER_ERROR
    // only a transport failure or a rejected key is an error
    ensures r.Failure? <==> f.Rejected? || ReportsInvalidKey(f.reply)
    ensures f.Rejected? ==> r.error.message == FETCH_FAILED_MESSAGE
    // the invalid-key exception leaves the catch block with its own message
    ensures f.Received? && ReportsInvalidKey(f.reply) ==> r.error.message == INVALID_KEY_MESSAGE
    // "not found" and every other upstream complaint is an empty list
    ensures f.Received? && f.reply.response == Some("False") && !ReportsInvalidKey(f.reply) ==> r == Success([])
    // otherwise the Search list, untouched, or the empty list when it is absent
    ensures f.Received? && f.reply.response != Some("False") ==>
              r == Success(if f.reply.search.Some? then f.reply.search.value else [])
  {
    CatchBlock(TryBlock(f))
  }

  /** The two 500s are told apart by their messages: the invalid-key one is not rewrapped. */
  lemma InvalidKeyNotRewrapped(f: Fetch)
    requires f.Received? && ReportsInvalidKey(f.reply)
    ensures SearchMovies(f).Failure?
    ensures SearchMovies(f).error != HttpException(FETCH_FAILED_MESSAGE, INTERNAL_SERVER_ERROR)
  {
  }
}
