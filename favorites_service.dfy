/**
 * The in-memory favorites table (backend/src/favorites/favorites.service.ts):
 * a map from IMDb id to movie, first as values with their laws, then as the
 * class whose methods update that map in place.
 */
module Favorites {
  import opened Movies

  /** The favorites map, from `imdbID` to the movie stored under it. */
  type Table = map<string, Movie>

  /** Every stored movie sits under its own id, so there is one entry per id. */
  ghost predicate KeyedById(t: Table) {
    forall id :: id in t ==> t[id].imdbID == id
  }

  /** `Map.set(movie.imdbID, movie)`: insert, or overwrite the entry with the same id. */
  function Put(t: Table, movie: Movie): (r: Table)
    ensures movie.imdbID in r && r[movie.imdbID] == movie
    ensures r.Keys == t.Keys + {movie.imdbID}
    ensures forall id :: id in t && id != movie.imdbID ==> r[id] == t[id]
    ensures KeyedById(t) ==> KeyedById(r)
  {
    t[movie.imdbID := movie]
  }

  /** `Map.delete(id)`: drop the entry for `id`, if there is one. */
  function Delete(t: Table, id: string): (r: Table)
    ensures r.Keys == t.Keys - {id}
    ensures forall k :: k in r ==> r[k] == t[k]
    ensures KeyedById(t) ==> KeyedById(r)
  {
    t - {id}
  }

  /** Putting a movie adds an entry only when its id was new. */
  lemma PutCount(t: Table, movie: Movie)
    ensures |Put(t, movie)| == if movie.imdbID in t then |t| else |t| + 1
  {
  }

  /** Deleting removes exactly one entry when the id was present and none otherwise. */
  lemma DeleteCount(t: Table, id: string)
    ensures |Delete(t, id)| == if id in t then |t| - 1 else |t|
  {
  }

  /** A second movie with the same id replaces the first: only the newer one is kept. */
  lemma PutOverwrites(t: Table, first: Movie, second: Movie)
    requires first.imdbID == second.imdbID
    ensures Put(Put(t, first), second) == Put(t, second)
  {
  }

  /** Deleting an absent id changes nothing. */
  lemma DeleteAbsent(t: Table, id: string)
    requires id !in t
    ensures Delete(t, id) == t
  {
  }

  /** Deleting a movie just added under a new id restores the table. */
  lemma DeleteUndoesPut(t: Table, movie: Movie)
    requires movie.imdbID !in t
    ensures Delete(Put(t, movie), movie.imdbID) == t
  {
  }

  // ---------------------------------------------------------------------------
  // Listing the table
  // ---------------------------------------------------------------------------

  /** No two movies of `list` share an id. */
  ghost predicate DistinctIds(list: seq<Movie>) {
    forall i, j :: 0 <= i < j < |list| ==> list[i].imdbID != list[j].imdbID
  }

  /**
   * `list` holds the stored values of `t`, each exactly once, in some order:
   * every element is the movie stored under its id, no id repeats, and every
   * stored movie appears.
   */
  ghost predicate Enumerates(list: seq<Movie>, t: Table) {
    && |list| == |t|
    && (forall i :: 0 <= i < |list| ==> list[i].imdbID in t && t[list[i].imdbID] == list[i])
    && DistinctIds(list)
    && (forall id :: id in t ==> t[id] in list)
  }

  /** A movie occurs at most once in a list whose ids are distinct. */
  lemma {:induction false} DistinctIdsOccurOnce(list: seq<Movie>, m: Movie)
    requires DistinctIds(list)
    ensures multiset(list)[m] == if m in list then 1 else 0
  {
    if list != [] {
      assert list == [list[0]] + list[1..];
      assert DistinctIds(list[1..]) by {
        forall i, j | 0 <= i < j < |list[1..]| ensures list[1..][i].imdbID != list[1..][j].imdbID {
          assert list[1..][i] == list[i + 1] && list[1..][j] == list[j + 1];
        }
      }
      DistinctIdsOccurOnce(list[1..], m);
      if list[0] == m {
        assert m !in list[1..] by {
          forall j | 0 <= j < |list[1..]| ensures list[1..][j] != m {
            assert list[1..][j] == list[j + 1];
          }
        }
      }
    }
  }

  /** A listing contains exactly the stored values. */
  lemma EnumeratesValues(list: seq<Movie>, t: Table, m: Movie)
    requires Enumerates(list, t)
    ensures m in list <==> m in t.Values
  {
  }

  /** Any two listings of the same table are permutations of each other: only the order is free. */
  lemma EnumerationsArePermutations(list1: seq<Movie>, list2: seq<Movie>, t: Table)
    requires Enumerates(list1, t) && Enumerates(list2, t)
    ensures multiset(list1) == multiset(list2)
  {
    forall m | true ensures multiset(list1)[m] == multiset(list2)[m] {
      DistinctIdsOccurOnce(list1, m);
      DistinctIdsOccurOnce(list2, m);
      EnumeratesValues(list1, t, m);
      EnumeratesValues(list2, t, m);
    }
  }

  // ---------------------------------------------------------------------------
  // The service object
  // ---------------------------------------------------------------------------

  /** FavoritesService: owns the favorites map and updates it in place. */
  class FavoritesService {
    var favorites: Table

    /** The object invariant: each entry is stored under its own id. */
    ghost predicate Valid()
      reads this
    {
      KeyedById(favorites)
    }

    /** A new service starts with an empty map. */
    constructor()
      ensures Valid() && favorites == map[]
    {
      favorites := map[];
    }

    /** addFavorite: store `movie` under its id, replacing any movie already there. */
    method AddFavorite(movie: Movie)
      requires Valid()
      modifies this
      ensures Valid()
      ensures favorites == Put(old(favorites), movie)
    {
      favorites := Put(favorites, movie);
    }

    /** removeFavorite: drop the entry for `imdbID` and report whether there was one. */
    method RemoveFavorite(imdbID: string) returns (removed: bool)
      requires Valid()
      modifies this
      ensures Valid()
      ensures removed <==> imdbID in old(favorites)
      ensures favorites == Delete(old(favorites), imdbID)
    {
      removed := imdbID in favorites;
      favorites := Delete(favorites, imdbID);
    }

    /** getAllFavorites: the stored movies, each once, in an unspecified order. */
    method GetAllFavorites() returns (list: seq<Movie>)
      requires Valid()
      ensures Enumerates(list, favorites)
    {
      list := [];
      var rest := favorites.Keys;
      while rest != {}
        invariant rest <= favorites.Keys
        invariant |list| + |rest| == |favorites|
        invariant forall i :: 0 <= i < |list| ==>
                    list[i].imdbID in favorites && list[i].imdbID !in rest && favorites[list[i].imdbID] == list[i]
        invariant DistinctIds(list)
        invariant forall id :: id in favorites && id !in rest ==> favorites[id] in list
        decreases |rest|
      {
        var id :| id in rest;
        list := list + [favorites[id]];
        rest := rest - {id};
      }
    }

    /** isFavorite: whether some stored movie has this id. */
    function IsFavorite(imdbID: string): (b: bool)
      reads this
      ensures Valid() ==> (b <==> exists m :: m in favorites.Values && m.imdbID == imdbID)
    {
      imdbID in favorites
    }
  }
}
