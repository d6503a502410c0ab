/** The favourites list. The per-user provider
    (context/favorites/FavoritesProvider.tsx) and the single-key provider
    (context/othercontext/FavoritesProvider.tsx) run the same list
    operations, defined here once. They differ only in storage: the first
    uses `Persisted.StorageKey` with base `favorites` and
    `Persisted.Restore`, the second the fixed key `favorites` and
    `Persisted.RestoreOnMount`. */
module Favorites {
  import opened Transport
  import opened Keyed

  /** A favourite product (`FavoriteItem`). */
  datatype Favorite = Favorite(
    id: int,
    title: string,
    price: string,
    image: string,
    categoryName: Option<string>)

  function FavoriteId(f: Favorite): int
  {
    f.id
  }

  /** The fixed storage key of the single-key provider. */
  const FavoritesKey: string := "favorites"

  /** `isFavorite`: some listed favourite has that id. */
  function IsFavorite(items: seq<Favorite>, id: int): (r: bool)
    ensures r <==> exists f :: f in items && f.id == id
  {
    if Has(items, FavoriteId, id) then
      var i :| 0 <= i < |items| && items[i].id == id;
      assert items[i] in items;
      true
    else false
  }

  /** `addToFavorites`: appends the favourite unless one with its id is
      already listed, in which case nothing changes. */
  function AddToFavorites(items: seq<Favorite>, f: Favorite): (r: seq<Favorite>)
    ensures IsFavorite(r, f.id)
    ensures IsFavorite(items, f.id) ==> r == items
    ensures !IsFavorite(items, f.id) ==> r == items + [f]
  {
    AddIfAbsent(items, FavoriteId, f)
  }

  /** `removeFromFavorites`: every favourite with that id goes; every other
      one stays, in order. */
  function RemoveFromFavorites(items: seq<Favorite>, id: int): (r: seq<Favorite>)
    ensures !IsFavorite(r, id)
    ensures forall i :: 0 <= i < |items| && items[i].id != id ==> items[i] in r
    ensures forall i :: 0 <= i < |r| ==> r[i] in items
    ensures !IsFavorite(items, id) ==> r == items
  {
    Without(items, FavoriteId, id)
  }

  /** With unique ids, removing the id of the favourite at `p` takes out
      exactly that favourite and keeps the others in their order. */
  lemma RemoveFromFavoritesKeepsOrder(items: seq<Favorite>, p: int)
    requires Unique(items, FavoriteId)
    requires 0 <= p < |items|
    ensures RemoveFromFavorites(items, items[p].id) == items[..p] + items[p + 1..]
  {
    WithoutUniqueAt(items, FavoriteId, p);
  }

  /** `toggleFavorite`: the favourite's id flips between listed and not
      listed, and whether any other id is listed does not change. */
  function ToggleFavorite(items: seq<Favorite>, f: Favorite): (r: seq<Favorite>)
    ensures IsFavorite(r, f.id) <==> !IsFavorite(items, f.id)
    ensures forall id :: id != f.id ==> (IsFavorite(r, id) <==> IsFavorite(items, id))
  {
    var r := Toggle(items, FavoriteId, f);
    assert forall id :: IsFavorite(r, id) == Has(r, FavoriteId, id);
    r
  }

  /** The toggle is the source's composition: remove when listed, add
      otherwise. */
  lemma ToggleFavoriteIsRemoveOrAdd(items: seq<Favorite>, f: Favorite)
    ensures ToggleFavorite(items, f) ==
            if IsFavorite(items, f.id) then RemoveFromFavorites(items, f.id) else AddToFavorites(items, f)
  {
  }

  /** Toggling an unlisted favourite twice restores the list exactly;
      toggling a listed one twice moves it, as given, to the end. */
  lemma ToggleFavoriteTwice(items: seq<Favorite>, f: Favorite)
    ensures !IsFavorite(items, f.id) ==> ToggleFavorite(ToggleFavorite(items, f), f) == items
    ensures IsFavorite(items, f.id) ==>
              ToggleFavorite(ToggleFavorite(items, f), f) == RemoveFromFavorites(items, f.id) + [f]
  {
    if !IsFavorite(items, f.id) {
      ToggleTwiceRestores(items, FavoriteId, f);
    }
  }

  /** Every operation keeps at most one favourite per id. */
  lemma OperationsKeepIdsUnique(items: seq<Favorite>, f: Favorite, id: int)
    requires Unique(items, FavoriteId)
    ensures Unique(AddToFavorites(items, f), FavoriteId)
    ensures Unique(RemoveFromFavorites(items, id), FavoriteId)
    ensures Unique(ToggleFavorite(items, f), FavoriteId)
  {
    AddIfAbsentKeepsUnique(items, FavoriteId, f);
    WithoutKeepsUnique(items, FavoriteId, id);
    ToggleKeepsUnique(items, FavoriteId, f);
  }

  /** `clearFavorites`: no id is listed afterwards. */
  function ClearFavorites(): (r: seq<Favorite>)
    ensures forall id :: !IsFavorite(r, id)
  {
    []
  }
}
