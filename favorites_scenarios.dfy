/**
 * Client methods that run the favorites service and controller through the
 * scenarios of their unit tests, proved from the contracts alone.
 */
module FavoritesScenarios {
  import opened Movies
  import opened Favorites
  import opened FavoritesRoutes

  /** A listing of a one-entry table is that entry alone. */
  lemma EnumeratesSingleton(list: seq<Movie>, movie: Movie)
    requires Enumerates(list, map[movie.imdbID := movie])
    ensures list == [movie]
  {
  }

  /** A new service lists nothing. */
  method FreshServiceListsNothing() returns (listed: seq<Movie>)
    ensures listed == []
  {
    var service := new FavoritesService();
    listed := service.GetAllFavorites();
  }

  /** A new service knows no id. */
  method FreshServiceKnowsNoId(imdbID: string) returns (known: bool)
    ensures !known
  {
    var service := new FavoritesService();
    known := service.IsFavorite(imdbID);
  }

  /** Adding a movie makes it listed and known under its id. */
  method AddThenQuery(movie: Movie) returns (listed: seq<Movie>, known: bool)
    ensures movie in listed && known
  {
    var service := new FavoritesService();
    service.AddFavorite(movie);
    listed := service.GetAllFavorites();
    known := service.IsFavorite(movie.imdbID);
  }

  /** Two movies with the same id leave one entry: the second. */
  method OverwriteKeepsOne(first: Movie, second: Movie) returns (listed: seq<Movie>)
    requires first.imdbID == second.imdbID
    ensures listed == [second]
  {
    var service := new FavoritesService();
    service.AddFavorite(first);
    service.AddFavorite(second);
    listed := service.GetAllFavorites();
    EnumeratesSingleton(listed, second);
  }

  /** Adding two movies with different ids lists both. */
  method AddTwo(first: Movie, second: Movie) returns (listed: seq<Movie>)
    requires first.imdbID != second.imdbID
    ensures |listed| == 2 && first in listed && second in listed
  {
    var service := new FavoritesService();
    service.AddFavorite(first);
    service.AddFavorite(second);
    listed := service.GetAllFavorites();
    PutCount(map[first.imdbID := first], second);
  }

  /** Remove after add succeeds once, empties the table, and fails the second time. */
  method AddRemoveRemove(movie: Movie) returns (removed: bool, listed: seq<Movie>, known: bool, removedAgain: bool)
    ensures removed && listed == [] && !known && !removedAgain
  {
    var service := new FavoritesService();
    service.AddFavorite(movie);
    removed := service.RemoveFavorite(movie.imdbID);
    listed := service.GetAllFavorites();
    known := service.IsFavorite(movie.imdbID);
    removedAgain := service.RemoveFavorite(movie.imdbID);
  }

  /**
   * Through the controller over a real service: adding answers success,
   * deleting an id never added answers `{success: false}` and the stored movie stays.
   */
  method ControllerDeleteUnknown(movie: Movie, imdbID: string) returns (added: SuccessReply, deleted: SuccessReply, reply: FavoritesReply)
    requires movie.imdbID != imdbID
    ensures added == SuccessReply(true)
    ensures deleted == SuccessReply(false)
    ensures reply == FavoritesReply([movie])
  {
    var service := new FavoritesService();
    var controller := new FavoritesController(service);
    added := controller.AddFavorite(movie);
    deleted := controller.RemoveFavorite(imdbID);
    reply := controller.GetAllFavorites();
    EnumeratesSingleton(reply.favorites, movie);
  }
}
