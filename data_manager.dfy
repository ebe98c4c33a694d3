/** The restaurant store: a table of persisted restaurants keyed by id, with
    upsert from the API's transfer objects, queries by city and by favourite
    flag, an in-place favourite toggle, and the fetch-then-upsert sync. */
module DataManager {
  import opened Wrappers
  import opened Seqs
  import opened Records

  /** The failures the API client reports for a fetch. */
  datatype APIError = InvalidURL | InvalidResponse | NetworkError | DecodingError

  /** At most one record per (present) id. */
  ghost predicate UniqueIds(recs: seq<Restaurant>) {
    forall i, j :: 0 <= i < j < |recs| && recs[i].id.Some? ==> recs[i].id != recs[j].id
  }

  predicate HasId(recs: seq<Restaurant>, id: string) {
    exists k | 0 <= k < |recs| :: recs[k].id == Some(id)
  }

  /** `k` is the position of the first record whose id is `id`. */
  predicate FirstWithId(recs: seq<Restaurant>, id: string, k: int) {
    && 0 <= k < |recs|
    && recs[k].id == Some(id)
    && forall j :: 0 <= j < k ==> recs[j].id != Some(id)
  }

  /** In a table with unique ids the first record with an id is the only one. */
  lemma FirstWithIdUnique(recs: seq<Restaurant>, id: string, k: int)
    requires UniqueIds(recs) && 0 <= k < |recs|
    ensures FirstWithId(recs, id, k) <==> recs[k].id == Some(id)
  {
  }

  /** A fetch with the predicate `id == %@`, taking `.first` of the results. */
  function Find(recs: seq<Restaurant>, id: string): (r: Option<nat>)
    ensures r.None? <==> !HasId(recs, id)
    ensures r.Some? ==> FirstWithId(recs, id, r.value)
  {
    if recs == [] then None
    else if recs[0].id == Some(id) then Some(0)
    else
      match Find(recs[1..], id)
      case None => None
      case Some(k) => Some(k + 1)
  }

  /** The property assignments of `saveRestaurant`; `isFavorite` is not written. */
  function Assign(rec: Restaurant, d: RestaurantDTO): (r: Restaurant)
    requires FitsInt16(d.priceLevel)
    ensures r.id == rec.id && r.isFavorite == rec.isFavorite
    ensures CarriesDto(r, d) <==> rec.id == Some(d.id)
  {
    rec.(name := Some(d.name), address := Some(d.address), city := Some(d.city),
         cuisine := Some(d.cuisine), rating := d.rating, latitude := d.latitude,
         longitude := d.longitude, imageURLs := Some(d.imageURLs),
         openingHours := Some(d.openingHours), phoneNumber := Some(d.phoneNumber),
         priceLevel := d.priceLevel as Int16)
  }

  /** A freshly inserted entity with its id set and every other attribute at
      its default (the favourite flag defaults to false). */
  function NewRecord(id: string): (r: Restaurant)
    ensures r.id == Some(id) && !r.isFavorite
    ensures r.name.None? && r.address.None? && r.city.None? && r.cuisine.None?
    ensures r.imageURLs.None? && r.openingHours.None? && r.phoneNumber.None?
  {
    Restaurant(Some(id), None, None, None, None, 0.0, 0.0, 0.0, None, None, None, 0, false)
  }

  /** The store after `saveRestaurant(d)`. */
  function Upsert(recs: seq<Restaurant>, d: RestaurantDTO): (r: seq<Restaurant>)
    requires FitsInt16(d.priceLevel)
    ensures HasId(recs, d.id) ==> |r| == |recs|
    ensures !HasId(recs, d.id) ==>
              |r| == |recs| + 1 && CarriesDto(r[|recs|], d) && !r[|recs|].isFavorite
    ensures forall k :: 0 <= k < |recs| ==>
              if FirstWithId(recs, d.id, k)
              then CarriesDto(r[k], d) && r[k].isFavorite == recs[k].isFavorite
              else r[k] == recs[k]
    ensures UniqueIds(recs) ==> UniqueIds(r)
  {
    match Find(recs, d.id)
    case Some(k) => recs[k := Assign(recs[k], d)]
    case None => recs + [Assign(NewRecord(d.id), d)]
  }

  /** After an upsert the table holds a record with `d`'s id, and every record
      with that id holds `d`'s values. */
  lemma UpsertStoresDto(recs: seq<Restaurant>, d: RestaurantDTO)
    requires UniqueIds(recs) && FitsInt16(d.priceLevel)
    ensures HasId(Upsert(recs, d), d.id)
    ensures forall k :: 0 <= k < |Upsert(recs, d)| && Upsert(recs, d)[k].id == Some(d.id) ==>
              CarriesDto(Upsert(recs, d)[k], d)
  {
    var r := Upsert(recs, d);
    match Find(recs, d.id)
    case Some(k) =>
      assert r[k].id == Some(d.id);
    case None =>
      assert r[|recs|].id == Some(d.id);
      forall k | 0 <= k < |recs| ensures r[k].id != Some(d.id) {
        assert recs[k].id != Some(d.id);
      }
  }

  /** Saving the same transfer object twice leaves the table as one save does. */
  lemma UpsertIdempotent(recs: seq<Restaurant>, d: RestaurantDTO)
    requires FitsInt16(d.priceLevel)
    ensures Upsert(Upsert(recs, d), d) == Upsert(recs, d)
  {
    var once := Upsert(recs, d);
    match Find(recs, d.id)
    case Some(k) =>
      assert FirstWithId(once, d.id, k);
    case None =>
      assert FirstWithId(once, d.id, |recs|);
  }

  /** The store after saving a batch of transfer objects in order. */
  function UpsertAll(recs: seq<Restaurant>, ds: seq<RestaurantDTO>): (r: seq<Restaurant>)
    requires forall i :: 0 <= i < |ds| ==> FitsInt16(ds[i].priceLevel)
    ensures |r| >= |recs|
    ensures UniqueIds(recs) ==> UniqueIds(r)
    ensures forall k :: 0 <= k < |recs| ==> r[k].id == recs[k].id
    ensures forall k :: 0 <= k < |r| ==> (r[k].isFavorite <==> k < |recs| && recs[k].isFavorite)
    decreases |ds|
  {
    if ds == [] then recs
    else Upsert(UpsertAll(recs, ds[..|ds| - 1]), ds[|ds| - 1])
  }

  /** Saving one more object of the batch extends the upsert by one step. */
  lemma UpsertAllStep(recs: seq<Restaurant>, ds: seq<RestaurantDTO>, i: int)
    requires forall i :: 0 <= i < |ds| ==> FitsInt16(ds[i].priceLevel)
    requires 0 <= i < |ds|
    ensures UpsertAll(recs, ds[..i + 1]) == Upsert(UpsertAll(recs, ds[..i]), ds[i])
  {
    assert ds[..i + 1][..i] == ds[..i];
  }

  /** A transfer object that no later object of the batch overrides is stored
      with all its values. */
  lemma {:induction false} UpsertAllStoresLast(recs: seq<Restaurant>, ds: seq<RestaurantDTO>, j: int)
    requires forall i :: 0 <= i < |ds| ==> FitsInt16(ds[i].priceLevel)
    requires 0 <= j < |ds|
    requires forall i :: j < i < |ds| ==> ds[i].id != ds[j].id
    ensures exists k :: 0 <= k < |UpsertAll(recs, ds)| && CarriesDto(UpsertAll(recs, ds)[k], ds[j])
  {
    var n := |ds| - 1;
    var prev := UpsertAll(recs, ds[..n]);
    var r := UpsertAll(recs, ds);
    assert r == Upsert(prev, ds[n]);
    if j == n {
      match Find(prev, ds[n].id)
      case Some(k) =>
        assert CarriesDto(r[k], ds[j]);
      case None =>
        assert CarriesDto(r[|prev|], ds[j]);
    } else {
      UpsertAllStoresLast(recs, ds[..n], j);
      var k :| 0 <= k < |prev| && CarriesDto(prev[k], ds[j]);
      assert !FirstWithId(prev, ds[n].id, k);
      assert r[k] == prev[k];
    }
  }

  /** The set of ids of the favourite records. */
  ghost function FavoriteIds(recs: seq<Restaurant>): set<Option<string>> {
    set k | 0 <= k < |recs| && recs[k].isFavorite :: recs[k].id
  }

  /** A sync never changes which restaurants are favourites. */
  lemma UpsertAllKeepsFavorites(recs: seq<Restaurant>, ds: seq<RestaurantDTO>)
    requires forall i :: 0 <= i < |ds| ==> FitsInt16(ds[i].priceLevel)
    ensures FavoriteIds(UpsertAll(recs, ds)) == FavoriteIds(recs)
  {
    var r := UpsertAll(recs, ds);
    forall x | x in FavoriteIds(r) ensures x in FavoriteIds(recs) {
      var k :| 0 <= k < |r| && r[k].isFavorite && r[k].id == x;
      assert recs[k].isFavorite && recs[k].id == x;
    }
    forall x | x in FavoriteIds(recs) ensures x in FavoriteIds(r) {
      var k :| 0 <= k < |recs| && recs[k].isFavorite && recs[k].id == x;
      assert r[k].isFavorite && r[k].id == x;
    }
  }

  /** The fetch `city == %@`: exact, case-sensitive match; a record without a
      city never matches. */
  function InCity(recs: seq<Restaurant>, city: string): (r: seq<Restaurant>)
    ensures forall x :: x in r <==> x in recs && x.city == Some(city)
    ensures IsSubsequence(r, recs)
  {
    Filter(recs, (x: Restaurant) => x.city == Some(city))
  }

  /** The fetch `isFavorite == YES`. */
  function Favorites(recs: seq<Restaurant>): (r: seq<Restaurant>)
    ensures forall x :: x in r <==> x in recs && x.isFavorite
    ensures IsSubsequence(r, recs)
  {
    Filter(recs, (x: Restaurant) => x.isFavorite)
  }

  /** The store after `toggleFavorite(id)`: the record found by id has its flag
      negated, and nothing else changes. */
  function Toggled(recs: seq<Restaurant>, id: string): (r: seq<Restaurant>)
    ensures |r| == |recs|
    ensures forall k :: 0 <= k < |recs| ==>
              r[k] == if FirstWithId(recs, id, k)
                      then recs[k].(isFavorite := !recs[k].isFavorite)
                      else recs[k]
  {
    match Find(recs, id)
    case None => recs
    case Some(k) => recs[k := recs[k].(isFavorite := !recs[k].isFavorite)]
  }

  /** Toggling an id that no record has leaves the table as it was. */
  lemma ToggleAbsent(recs: seq<Restaurant>, id: string)
    requires !HasId(recs, id)
    ensures Toggled(recs, id) == recs
  {
    var r := Toggled(recs, id);
    forall k | 0 <= k < |recs| ensures r[k] == recs[k] {
      assert !FirstWithId(recs, id, k);
    }
  }

  /** Two toggles of the same id restore the table. */
  lemma ToggleTwice(recs: seq<Restaurant>, id: string)
    ensures Toggled(Toggled(recs, id), id) == recs
  {
    var once := Toggled(recs, id);
    var twice := Toggled(once, id);
    forall k | 0 <= k < |recs| ensures twice[k] == recs[k] {
      assert FirstWithId(once, id, k) <==> FirstWithId(recs, id, k);
    }
  }

  /** Toggling keeps ids unique. */
  lemma ToggleKeepsUniqueIds(recs: seq<Restaurant>, id: string)
    requires UniqueIds(recs)
    ensures UniqueIds(Toggled(recs, id))
  {
    var r := Toggled(recs, id);
    forall k | 0 <= k < |recs| ensures r[k].id == recs[k].id {
    }
  }

  /** The persisted table of restaurants. */
  class RestaurantStore {
    var records: seq<Restaurant>

    ghost predicate Valid()
      reads this
    {
      UniqueIds(records)
    }

    constructor ()
      ensures Valid() && records == []
    {
      records := [];
    }

    /** `saveRestaurant`: update the record with `d.id` if there is one,
        otherwise insert a new one. Converting the price level to a 16-bit
        integer traps when it does not fit. */
    method SaveRestaurant(d: RestaurantDTO)
      requires Valid() && FitsInt16(d.priceLevel)
      modifies this
      ensures Valid()
      ensures records == Upsert(old(records), d)
    {
      var found := Find(records, d.id);
      match found
      case Some(k) =>
        records := records[k := Assign(records[k], d)];
      case None =>
        var created := NewRecord(d.id);
        records := records + [Assign(created, d)];
    }

    /** `fetchRestaurants()`: every record. */
    method FetchRestaurants() returns (r: seq<Restaurant>)
      ensures r == records
    {
      r := records;
    }

    /** `fetchRestaurants(city:)`. */
    method FetchRestaurantsIn(city: string) returns (r: seq<Restaurant>)
      ensures r == InCity(records, city)
    {
      r := InCity(records, city);
    }

    /** `toggleFavorite(restaurantId:)`; an absent id is a silent no-op. */
    method ToggleFavorite(id: string)
      requires Valid()
      modifies this
      ensures Valid()
      ensures records == Toggled(old(records), id)
      ensures !HasId(old(records), id) ==> records == old(records)
    {
      ToggleKeepsUniqueIds(records, id);
      var found := Find(records, id);
      match found
      case Some(k) =>
        records := records[k := records[k].(isFavorite := !records[k].isFavorite)];
      case None =>
    }

    /** `fetchFavoriteRestaurants()`. */
    method FetchFavoriteRestaurants() returns (r: seq<Restaurant>)
      ensures r == Favorites(records)
    {
      r := Favorites(records);
    }

    /** `syncRestaurants(city:)` given the outcome of the API fetch: on success
        each fetched object is saved in order and the city's records are
        returned; a failed fetch is passed on and the store is not touched. */
    method SyncRestaurants(city: string, fetched: Result<seq<RestaurantDTO>, APIError>)
      returns (result: Result<seq<Restaurant>, APIError>)
      requires Valid()
      requires fetched.Ok? ==> forall i :: 0 <= i < |fetched.value| ==> FitsInt16(fetched.value[i].priceLevel)
      modifies this
      ensures Valid()
      ensures fetched.Err? ==> records == old(records) && result == Err(fetched.error)
      ensures fetched.Ok? ==>
                records == UpsertAll(old(records), fetched.value) && result == Ok(InCity(records, city))
    {
      match fetched
      case Err(e) =>
        result := Err(e);
      case Ok(dtos) =>
        ghost var start := records;
        var i := 0;
        while i < |dtos|
          invariant 0 <= i <= |dtos|
          invariant Valid()
          invariant records == UpsertAll(start, dtos[..i])
        {
          UpsertAllStep(start, dtos, i);
          SaveRestaurant(dtos[i]);
          i := i + 1;
        }
        assert dtos[..|dtos|] == dtos;
        var found := FetchRestaurantsIn(city);
        result := Ok(found);
    }
  }

  /** After a successful sync, every fetched object of the requested city that
      no later object of the batch overrides is in the returned list with all
      its values. */
  lemma SyncReturnsFetchedCity(recs: seq<Restaurant>, ds: seq<RestaurantDTO>, city: string, j: int)
    requires forall i :: 0 <= i < |ds| ==> FitsInt16(ds[i].priceLevel)
    requires 0 <= j < |ds| && ds[j].city == city
    requires forall i :: j < i < |ds| ==> ds[i].id != ds[j].id
    ensures exists x :: x in InCity(UpsertAll(recs, ds), city) && CarriesDto(x, ds[j])
  {
    var r := UpsertAll(recs, ds);
    UpsertAllStoresLast(recs, ds, j);
    var k :| 0 <= k < |r| && CarriesDto(r[k], ds[j]);
    assert r[k] in InCity(r, city);
  }
}
