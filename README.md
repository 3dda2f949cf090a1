# Favorites table and OMDb search classification

This project models the backend of a small movie-search application written with NestJS:

- **`FavoritesService`** holds the user's favorite movies in one in-memory map from IMDb id to movie. It can add (insert or overwrite), remove (reporting whether anything was removed), list, and test membership.
- **`FavoritesController`** answers the `/favorites` routes. It calls the service and wraps the result as `{favorites: list}` or `{success: b}`.
- **`MoviesService.searchMovies`** turns an OMDb reply, or a failed request, into either a list of movies or an `HttpException`.

Modules:

- `Wrappers` (`wrappers.dfy`): `Option` and `Result`.
- `Movies` (`movies.dfy`): the `Movie` record, `String.prototype.includes`, and the try block, the catch block and their composition `SearchMovies`.
- `Favorites` (`favorites_service.dfy`):
  - the table as values: `Put`, `Delete`, the invariant `KeyedById` ("every movie is stored under its own id"), and `Enumerates` ("a list holds the stored movies, each once, in some order");
  - the laws of `Put` and `Delete`;
  - the class `FavoritesService`, whose `favorites` field is reassigned by its methods.
- `FavoritesRoutes` (`favorites_controller.dfy`): the class `FavoritesController` over an injected service.
- `FavoritesScenarios` and `MoviesScenarios`: the scenarios of the unit tests, proved from the contracts alone.

The listing order of the JavaScript `Map` is insertion order. The tests check only membership and length, so `getAllFavorites` is specified up to order. `EnumerationsArePermutations` proves that any two valid listings of the same table are permutations of each other.

The code keeps favorites only in memory. Nothing in it loads or saves them. The `Movie` record keeps the code's field names: `imdbID`, `Title`, `Year` and `Poster`.

## Model

| member | source | states |
|---|---|---|
| Movies.Includes | backend/src/movies/movies.service.ts:30 | `text.includes(phrase)` is true exactly when `phrase` occurs at some offset of `text` |
| Movies.MentionsTail | backend/src/movies/movies.service.ts:30 | when `phrase` does not start `text`, it occurs in `text[1..]` iff it occurs in `text` |
| Movies.TryBlock | backend/src/movies/movies.service.ts:25-40 | a rejected request throws a non-HTTP error; an invalid-key reply throws the invalid-key HttpException with status 500; every other reply returns normally |
| Movies.SearchMovies | backend/src/movies/movies.service.ts:16-53 | the result is an error iff the request failed or the reply is `Response: "False"` with an Error text containing "Invalid API key"; every error has status 500; the invalid-key error keeps its own message and a transport failure gets the generic one; any other `"False"` reply gives `[]`; any other reply gives the Search list unchanged, or `[]` when Search is absent |
| Movies.InvalidKeyNotRewrapped | backend/src/movies/movies.service.ts:43-45 | the invalid-key failure differs from the generic failure, so the catch block does not rewrap it |
| MoviesScenarios.FoundReplyYieldsSearch | backend/src/movies/movies.service.spec.ts:26-45 | a `"True"` reply with a Search list yields exactly that list |
| MoviesScenarios.NotFoundReplyIsEmpty | backend/src/movies/movies.service.spec.ts:56-69 | a `"False"` reply with "Movie not found!" yields the empty list, not an error |
| MoviesScenarios.InvalidKeyReplyFails | backend/src/movies/movies.service.spec.ts:71-84 | a `"False"` reply with "Invalid API key!" yields the invalid-key HttpException with status 500 |
| MoviesScenarios.NetworkErrorFails | backend/src/movies/movies.service.spec.ts:86-92 | a network error yields the generic HttpException with status 500 |
| Favorites.Put | backend/src/favorites/favorites.service.ts:9 | after `set`, the movie is stored under its id, the key set gains only that id, every other entry is unchanged, and the one-entry-per-id invariant is kept |
| Favorites.Delete | backend/src/favorites/favorites.service.ts:13 | after `delete`, the key set loses only the id, every remaining entry is unchanged, and the invariant is kept |
| Favorites.PutCount | backend/src/favorites/favorites.service.ts:9 | adding grows the table by one for a new id and keeps its size for an existing id |
| Favorites.DeleteCount | backend/src/favorites/favorites.service.ts:13 | removing shrinks the table by exactly one when the id was present, and not at all otherwise |
| Favorites.PutOverwrites | backend/src/favorites/favorites.service.spec.ts:33-54 | adding a second movie with the same id gives the same table as adding only the second |
| Favorites.DeleteAbsent | backend/src/favorites/favorites.service.spec.ts:73-77 | removing an absent id leaves the table unchanged |
| Favorites.DeleteUndoesPut | backend/src/favorites/favorites.service.ts:8-14 | removing a movie just added under a new id restores the earlier table |
| Favorites.DistinctIdsOccurOnce | backend/src/favorites/favorites.service.ts:16-18 | in a list with distinct ids, each movie occurs at most once |
| Favorites.EnumeratesValues | backend/src/favorites/favorites.service.ts:16-18 | a listing contains exactly the stored values |
| Favorites.EnumerationsArePermutations | backend/src/favorites/favorites.service.ts:16-18 | two listings of the same table differ only in order |
| Favorites.FavoritesService.constructor | backend/src/favorites/favorites.service.ts:6 | a new service has an empty map and satisfies the invariant |
| Favorites.FavoritesService.AddFavorite | backend/src/favorites/favorites.service.ts:8-10 | the new map is the old one with the movie put under its id, and the invariant is kept |
| Favorites.FavoritesService.RemoveFavorite | backend/src/favorites/favorites.service.ts:12-14 | returns true iff the id was present; the new map is the old one without that id |
| Favorites.FavoritesService.GetAllFavorites | backend/src/favorites/favorites.service.ts:16-18 | returns every stored movie exactly once, with no id repeated, in an unspecified order; the map is not modified |
| Favorites.FavoritesService.IsFavorite | backend/src/favorites/favorites.service.ts:20-22 | true iff some stored movie has the id; reads the map without changing it |
| FavoritesRoutes.FavoritesController.constructor | backend/src/favorites/favorites.controller.ts:7 | the controller keeps the service it was given |
| FavoritesRoutes.FavoritesController.GetAllFavorites | backend/src/favorites/favorites.controller.ts:9-12 | `{favorites: list}`, where `list` lists the service's table exactly |
| FavoritesRoutes.FavoritesController.AddFavorite | backend/src/favorites/favorites.controller.ts:14-18 | always `{success: true}`, after exactly one insert of the movie into the service |
| FavoritesRoutes.FavoritesController.RemoveFavorite | backend/src/favorites/favorites.controller.ts:20-24 | `{success: b}` with `b` the service's removal result; an id never stored gives `{success: false}` and leaves the service unchanged |
| FavoritesScenarios.EnumeratesSingleton | backend/src/favorites/favorites.service.spec.ts:51-53 | the listing of a one-entry table is that entry alone |
| FavoritesScenarios.FreshServiceListsNothing | backend/src/favorites/favorites.service.spec.ts:80-83 | a new service lists nothing |
| FavoritesScenarios.FreshServiceKnowsNoId | backend/src/favorites/favorites.service.spec.ts:124-126 | a new service answers false for every id |
| FavoritesScenarios.AddThenQuery | backend/src/favorites/favorites.service.spec.ts:110-122 | after adding a movie it is listed, and `isFavorite` of its id is true |
| FavoritesScenarios.OverwriteKeepsOne | backend/src/favorites/favorites.service.spec.ts:33-54 | two adds with the same id list exactly one movie, the second |
| FavoritesScenarios.AddTwo | backend/src/favorites/favorites.service.spec.ts:85-107 | two adds with different ids list two movies, both present |
| FavoritesScenarios.AddRemoveRemove | backend/src/favorites/favorites.service.spec.ts:58-77 | removing an added movie returns true, empties the listing and clears `isFavorite`; removing it again returns false |
| FavoritesScenarios.ControllerDeleteUnknown | backend/src/favorites/favorites.controller.ts:14-24 | through the controller over a real service: add answers `{success: true}`, deleting an unknown id answers `{success: false}`, and the stored movie is still listed |

## Left out

- The HTTP request to OMDb, the API-key lookup in the environment, and the `console.error` logging (backend/src/movies/movies.service.ts:13-23, 27, 48) are network and environment I/O. The model takes what the request delivered as the input `Fetch`.
- Untyped OMDb bodies are not modelled. The model types `Response` and `Error` as optional strings and `Search` as an optional list of movies. What JavaScript does with other shapes:
  - a `null` or `undefined` body raises a TypeError inside the try block, which ends as the generic 500;
  - a body that is a string or number has no `Response` field, so the reply gives `undefined || []`, the empty list;
  - an `Error: null` short-circuits the optional call, so a `"False"` reply gives `[]`, as the model's absent `Error` does;
  - an `Error` that is an array uses `Array.prototype.includes`, so `["Invalid API key"]` takes the invalid-key branch, and the model has no such input;
  - an `Error` of another non-string type without an `includes` method raises a TypeError, which ends as the generic 500.
- Favorites.FavoritesService.AddFavorite, Favorites.FavoritesService.IsFavorite: stored movies are immutable values here, while JavaScript stores and returns the caller's object by reference. After `addFavorite(m)` and a later `m.imdbID = 'b'`, the source keeps the entry under the old key, lists it with id `'b'`, answers `isFavorite('b')` false and `removeFavorite('b')` false. The invariant `KeyedById`, and `IsFavorite`'s "some stored movie has the id", hold in the source only while no caller mutates a stored movie.
- Favorites.FavoritesService.AddFavorite: the request body is untyped in the source. Extra JSON fields (OMDb's `Type`, for one) are stored and listed back, and the model's `Movie` has no room for them. A missing or numeric `imdbID` becomes a non-string map key, which `DELETE /favorites/:imdbID` (always a string) can never remove. The model's ids are always strings.
- The `query` argument of `searchMovies` only feeds the request, so the classification does not depend on it.
- The routing glue in backend/src/movies/movies.controller.ts is not part of this model.
- The frontend (frontend/app/*, frontend/lib/api.ts) is not part of this model. It is React rendering and `fetch` wrappers.
- Persistence is not modelled: the code has none. Favorites live only in the service's in-memory map.
- Map iteration order: `FavoritesService.GetAllFavorites` promises its listing only up to order. JavaScript would return insertion order.
- Concurrency is not modelled: the code has none.
- NestJS dependency injection and decorators: the controller receives its service through its constructor.
