/**
 * The HTTP handlers over the favorites service
 * (backend/src/favorites/favorites.controller.ts): each calls the injected
 * service and wraps its answer in a response record.
 */
module FavoritesRoutes {
  import opened Movies
  import opened Favorites

  /** The body of `GET /favorites`. */
  datatype FavoritesReply = FavoritesReply(favorites: seq<Movie>)

  /** The body of `POST /favorites` and `DELETE /favorites/:imdbID`. */
  datatype SuccessReply = SuccessReply(success: bool)

  class FavoritesController {
    const favoritesService: FavoritesService

    /** The service is injected once and never replaced. */
    constructor(favoritesService: FavoritesService)
      ensures this.favoritesService == favoritesService
    {
      this.favoritesService := favoritesService;
    }

    /** GET: `{favorites: list}`, where `list` is the service's listing of its table. */
    method GetAllFavorites() returns (r: FavoritesReply)
      requires favoritesService.Valid()
      ensures Enumerates(r.favorites, favoritesService.favorites)
    {
      var list := favoritesService.GetAllFavorites();
      r := FavoritesReply(list);
    }

    /** POST: one insert of `movie` into the service, then always `{success: true}`. */
    method AddFavorite(movie: Movie) returns (r: SuccessReply)
      requires favoritesService.Valid()
      modifies favoritesService
      ensures r == SuccessReply(true)
      ensures favoritesService.Valid()
      ensures favoritesService.favorites == Put(old(favoritesService.favorites), movie)
    {
      favoritesService.AddFavorite(movie);
      r := SuccessReply(true);
    }

    /** DELETE: `{success: removed}`; an id that was never stored gives false and no change. */
    method RemoveFavorite(imdbID: string) returns (r: SuccessReply)
      requires favoritesService.Valid()
      modifies favoritesService
      ensures favoritesService.Valid()
      ensures r.success <==> imdbID in old(favoritesService.favorites)
      ensures favoritesService.favorites == Delete(old(favoritesService.favorites), imdbID)
      ensures imdbID !in old(favoritesService.favorites) ==>
                r == SuccessReply(false) && favoritesService.favorites == old(favoritesService.favorites)
    {
      var removed := favoritesService.RemoveFavorite(imdbID);
      r := SuccessReply(removed);
    }
  }
}
