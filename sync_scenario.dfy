/** The sync walk-through of the restaurant list: two restaurants of one city
    are synced into an empty store, one of them is favourited, and the same
    batch is synced again. */
module SyncScenario {
  import opened Wrappers
  import opened Records
  import opened DataManager

  /** The record a first save of `d` inserts. */
  function Inserted(d: RestaurantDTO): Restaurant
    requires FitsInt16(d.priceLevel)
  {
    Assign(NewRecord(d.id), d)
  }

  /** Syncing a batch of two restaurants with different ids into an empty
      store inserts one record per restaurant, in batch order, each holding
      its restaurant's values and not a favourite. */
  lemma FirstSyncInsertsBoth(d0: RestaurantDTO, d1: RestaurantDTO)
    requires FitsInt16(d0.priceLevel) && FitsInt16(d1.priceLevel) && d0.id != d1.id
    ensures UpsertAll([], [d0, d1]) == [Inserted(d0), Inserted(d1)]
    ensures CarriesDto(Inserted(d0), d0) && !Inserted(d0).isFavorite
    ensures CarriesDto(Inserted(d1), d1) && !Inserted(d1).isFavorite
  {
    var one := [Inserted(d0)];
    assert [d0, d1][..1] == [d0];
    assert UpsertAll([], [d0]) == Upsert([], d0) == one;
    assert Find(one, d1.id) == None;
  }

  lemma FirstSyncListsCity(d0: RestaurantDTO, d1: RestaurantDTO, city: string)
    requires FitsInt16(d0.priceLevel) && FitsInt16(d1.priceLevel)
    requires d0.city == city && d1.city == city
    ensures InCity([Inserted(d0), Inserted(d1)], city) == [Inserted(d0), Inserted(d1)]
  {
    Seqs.FilterKeepsAll([Inserted(d0), Inserted(d1)], (x: Restaurant) => x.city == Some(city));
  }

  lemma FirstSyncHasNoFavorites(d0: RestaurantDTO, d1: RestaurantDTO)
    requires FitsInt16(d0.priceLevel) && FitsInt16(d1.priceLevel)
    ensures Favorites([Inserted(d0), Inserted(d1)]) == []
  {
  }

  lemma FavoritingFirst(d0: RestaurantDTO, d1: RestaurantDTO)
    requires FitsInt16(d0.priceLevel) && FitsInt16(d1.priceLevel) && d0.id != d1.id
    ensures FavoriteIds(Toggled([Inserted(d0), Inserted(d1)], d0.id)) == {Some(d0.id)}
  {
    var recs := [Inserted(d0), Inserted(d1)];
    assert FirstWithId(recs, d0.id, 0);
    var toggled := Toggled(recs, d0.id);
    assert toggled[0].isFavorite && !toggled[1].isFavorite;
  }

  /** From an empty store, syncing the city returns exactly the two fetched
      restaurants, in batch order and neither a favourite. Favouriting the
      first and syncing the same batch again leaves it the only favourite. */
  lemma SyncFavoriteResync(d0: RestaurantDTO, d1: RestaurantDTO, city: string)
    requires FitsInt16(d0.priceLevel) && FitsInt16(d1.priceLevel) && d0.id != d1.id
    requires d0.city == city && d1.city == city
    ensures var first := UpsertAll([], [d0, d1]);
            && |InCity(first, city)| == 2
            && CarriesDto(InCity(first, city)[0], d0)
            && CarriesDto(InCity(first, city)[1], d1)
            && Favorites(first) == []
    ensures FavoriteIds(UpsertAll(Toggled(UpsertAll([], [d0, d1]), d0.id), [d0, d1])) == {Some(d0.id)}
  {
    FirstSyncInsertsBoth(d0, d1);
    FirstSyncListsCity(d0, d1, city);
    FirstSyncHasNoFavorites(d0, d1);
    FavoritingFirst(d0, d1);
    UpsertAllKeepsFavorites(Toggled(UpsertAll([], [d0, d1]), d0.id), [d0, d1]);
  }
}
