/** The favourites screen. Its list comes from a fetch of the favourite records
    sorted by name; a search field narrows it; swiping rows away clears their
    favourite flag; a record is converted back to a transfer object to open
    the transport screen.

    The screen holds the store's objects themselves and mutates them, so a row
    is modelled as the record's position in the store's table. */
module Favorites {
  import opened Wrappers
  import opened Seqs
  import opened Text
  import opened Records
  import opened DataManager

  // ---------------------------------------------------------------------
  // Name order of the sort descriptor (`name`, ascending)

  /** Lexicographic order on strings by character code. */
  predicate StrLe(a: string, b: string)
    decreases |a|
  {
    a == [] || (b != [] && (a[0] < b[0] || (a[0] == b[0] && StrLe(a[1..], b[1..]))))
  }

  lemma {:induction false} StrLeTotal(a: string, b: string)
    ensures StrLe(a, b) || StrLe(b, a)
    decreases |a|
  {
    if a != [] && b != [] && a[0] == b[0] {
      StrLeTotal(a[1..], b[1..]);
    }
  }

  lemma {:induction false} StrLeTransitive(a: string, b: string, c: string)
    requires StrLe(a, b) && StrLe(b, c)
    ensures StrLe(a, c)
    decreases |a|
  {
    if a != [] && b != [] && c != [] && a[0] == b[0] && b[0] == c[0] {
      StrLeTransitive(a[1..], b[1..], c[1..]);
    }
  }

  /** A missing name sorts before every present one. */
  predicate NameLe(a: Option<string>, b: Option<string>) {
    a.None? || (b.Some? && StrLe(a.value, b.value))
  }

  lemma NameLeTotal(a: Option<string>, b: Option<string>)
    ensures NameLe(a, b) || NameLe(b, a)
  {
    if a.Some? && b.Some? {
      StrLeTotal(a.value, b.value);
    }
  }

  lemma NameLeTransitive(a: Option<string>, b: Option<string>, c: Option<string>)
    requires NameLe(a, b) && NameLe(b, c)
    ensures NameLe(a, c)
  {
    if a.Some? {
      StrLeTransitive(a.value, b.value, c.value);
    }
  }

  // ---------------------------------------------------------------------
  // The favourites fetch: predicate `isFavorite == YES`, sorted by name

  predicate NoDup(ps: seq<nat>) {
    forall a, b :: 0 <= a < b < |ps| ==> ps[a] != ps[b]
  }

  predicate InRange(recs: seq<Restaurant>, ps: seq<nat>) {
    forall j :: 0 <= j < |ps| ==> ps[j] < |recs|
  }

  /** Range membership carries over to any list drawn from the same positions. */
  lemma InRangeOfMembers(recs: seq<Restaurant>, a: seq<nat>, b: seq<nat>)
    requires InRange(recs, b) && forall x :: x in a ==> x in b
    ensures InRange(recs, a)
  {
    forall j | 0 <= j < |a| ensures a[j] < |recs| {
      assert a[j] in b;
    }
  }

  predicate SortedByName(recs: seq<Restaurant>, ps: seq<nat>) {
    && InRange(recs, ps)
    && forall a, b :: 0 <= a < b < |ps| ==> NameLe(recs[ps[a]].name, recs[ps[b]].name)
  }

  /** Positions from `from` on that hold a favourite, in table order. */
  function FavoritePositions(recs: seq<Restaurant>, from: nat): (r: seq<nat>)
    requires from <= |recs|
    ensures forall i :: i in r <==> from <= i < |recs| && recs[i].isFavorite
    ensures forall j :: 0 <= j < |r| ==> from <= r[j] < |recs|
    ensures NoDup(r)
    decreases |recs| - from
  {
    if from == |recs| then []
    else
      var rest := FavoritePositions(recs, from + 1);
      if recs[from].isFavorite then [from] + rest else rest
  }

  /** Inserts position `p` before the first entry whose name is not smaller. */
  function InsertByName(recs: seq<Restaurant>, p: nat, sorted: seq<nat>): (r: seq<nat>)
    requires p < |recs| && SortedByName(recs, sorted)
    ensures multiset(r) == multiset(sorted) + multiset{p}
    ensures forall x :: x in r <==> x == p || x in sorted
    ensures SortedByName(recs, r)
    ensures NoDup(sorted) && p !in sorted ==> NoDup(r)
  {
    if sorted == [] then [p]
    else if NameLe(recs[p].name, recs[sorted[0]].name) then
      PrependSmallest(recs, p, sorted);
      [p] + sorted
    else
      SortedTail(recs, sorted);
      var rest := InsertByName(recs, p, sorted[1..]);
      NameLeTotal(recs[p].name, recs[sorted[0]].name);
      PrependHead(recs, p, sorted, rest);
      [sorted[0]] + rest
  }

  lemma PrependSmallest(recs: seq<Restaurant>, p: nat, sorted: seq<nat>)
    requires p < |recs| && SortedByName(recs, sorted) && sorted != []
    requires NameLe(recs[p].name, recs[sorted[0]].name)
    ensures SortedByName(recs, [p] + sorted)
    ensures multiset([p] + sorted) == multiset(sorted) + multiset{p}
    ensures forall x :: x in [p] + sorted <==> x == p || x in sorted
    ensures NoDup(sorted) && p !in sorted ==> NoDup([p] + sorted)
  {
    var r := [p] + sorted;
    forall b | 1 <= b < |r| ensures NameLe(recs[p].name, recs[r[b]].name) {
      if b > 1 {
        NameLeTransitive(recs[p].name, recs[sorted[0]].name, recs[r[b]].name);
      }
    }
  }

  lemma SortedTail(recs: seq<Restaurant>, sorted: seq<nat>)
    requires SortedByName(recs, sorted) && sorted != []
    ensures SortedByName(recs, sorted[1..])
  {
  }

  lemma PrependHead(recs: seq<Restaurant>, p: nat, sorted: seq<nat>, rest: seq<nat>)
    requires p < |recs| && SortedByName(recs, sorted) && sorted != []
    requires NameLe(recs[sorted[0]].name, recs[p].name)
    requires SortedByName(recs, rest)
    requires forall x :: x in rest <==> x == p || x in sorted[1..]
    requires multiset(rest) == multiset(sorted[1..]) + multiset{p}
    ensures SortedByName(recs, [sorted[0]] + rest)
    ensures multiset([sorted[0]] + rest) == multiset(sorted) + multiset{p}
    ensures forall x :: x in [sorted[0]] + rest <==> x == p || x in sorted
    ensures NoDup(sorted) && p !in sorted && NoDup(rest) ==> NoDup([sorted[0]] + rest)
  {
    var r := [sorted[0]] + rest;
    assert sorted == [sorted[0]] + sorted[1..];
    forall b | 1 <= b < |r| ensures NameLe(recs[sorted[0]].name, recs[r[b]].name) {
      assert r[b] in rest;
      if r[b] != p {
        var j :| 0 <= j < |sorted[1..]| && sorted[1..][j] == r[b];
        assert sorted[j + 1] == r[b];
      }
    }
    if NoDup(sorted) && p !in sorted && NoDup(rest) {
      forall b | 1 <= b < |r| ensures r[b] != sorted[0] {
        assert r[b] in rest;
        if r[b] != p {
          var j :| 0 <= j < |sorted[1..]| && sorted[1..][j] == r[b];
          assert sorted[j + 1] == r[b];
        }
      }
    }
  }

  lemma NoDupTail(ps: seq<nat>)
    requires ps != []
    ensures NoDup(ps) ==> NoDup(ps[1..]) && ps[0] !in ps[1..]
  {
  }

  /** Inserting the head into the sorted tail gives back the whole list. */
  lemma SortStep(recs: seq<Restaurant>, ps: seq<nat>, rest: seq<nat>)
    requires InRange(recs, ps) && ps != []
    requires multiset(rest) == multiset(ps[1..])
    requires NoDup(ps[1..]) ==> NoDup(rest)
    ensures ps[0] < |recs|
    ensures multiset(rest) + multiset{ps[0]} == multiset(ps)
    ensures NoDup(ps) ==> NoDup(rest) && ps[0] !in rest
  {
    NoDupTail(ps);
    assert ps == [ps[0]] + ps[1..];
    assert ps[0] in rest <==> ps[0] in multiset(ps[1..]);
  }

  /** Insertion sort of positions by the names they hold. */
  function SortByName(recs: seq<Restaurant>, ps: seq<nat>): (r: seq<nat>)
    requires InRange(recs, ps)
    ensures multiset(r) == multiset(ps)
    ensures SortedByName(recs, r)
    ensures NoDup(ps) ==> NoDup(r)
  {
    if ps == [] then []
    else
      InRangeOfMembers(recs, ps[1..], ps);
      var rest := SortByName(recs, ps[1..]);
      SortStep(recs, ps, rest);
      InsertByName(recs, ps[0], rest)
  }

  /** The list the favourites screen fetches: every favourite exactly once,
      nothing else, ordered by name. */
  function FavoritesListing(recs: seq<Restaurant>): (r: seq<nat>)
    ensures forall i :: i in r <==> 0 <= i < |recs| && recs[i].isFavorite
    ensures NoDup(r)
    ensures SortedByName(recs, r)
  {
    var ps := FavoritePositions(recs, 0);
    var r := SortByName(recs, ps);
    assert forall i :: i in r <==> i in multiset(ps);
    r
  }

  // ---------------------------------------------------------------------
  // Search

  /** The search guard: both name and cuisine present, and one of them
      contains the text, ignoring case. */
  predicate SearchMatches(rec: Restaurant, text: string) {
    && rec.name.Some?
    && rec.cuisine.Some?
    && (CaseInsensitiveContains(rec.name.value, text) || CaseInsensitiveContains(rec.cuisine.value, text))
  }

  /** `filteredRestaurants` over a fetched list. */
  function FilteredRestaurants(recs: seq<Restaurant>, listing: seq<nat>, text: string): (r: seq<nat>)
    requires InRange(recs, listing)
    ensures text == [] ==> r == listing
    ensures text != [] ==> IsSubsequence(r, listing)
    ensures text != [] ==> forall i :: i in r <==> i in listing && SearchMatches(recs[i], text)
    ensures text != [] ==> forall i :: i in r ==> recs[i].name.Some? && recs[i].cuisine.Some?
    ensures InRange(recs, r)
  {
    if text == [] then listing
    else
      var r := Filter(listing, (i: nat) => i < |recs| && SearchMatches(recs[i], text));
      InRangeOfMembers(recs, r, listing);
      r
  }

  /** The rows on screen: the favourites listing narrowed by the search text. */
  function Shown(recs: seq<Restaurant>, text: string): (r: seq<nat>)
    ensures InRange(recs, r)
    ensures forall i :: i in r ==> recs[i].isFavorite
  {
    FilteredRestaurants(recs, FavoritesListing(recs), text)
  }

  /** Searching a favourite's own (non-empty) name finds it, provided it has
      a cuisine. */
  lemma SearchFindsOwnName(recs: seq<Restaurant>, i: nat)
    requires i < |recs| && recs[i].isFavorite
    requires recs[i].name.Some? && |recs[i].name.value| > 0 && recs[i].cuisine.Some?
    ensures i in Shown(recs, recs[i].name.value)
  {
    ContainsItself(recs[i].name.value);
  }

  // ---------------------------------------------------------------------
  // Removing favourites

  /** Store positions behind the rows at `offsets` of `shown`. */
  function Targets(shown: seq<nat>, offsets: set<nat>): set<nat> {
    set o | o in offsets && o < |shown| :: shown[o]
  }

  /** The table with the favourite flag cleared at the positions `targets`. */
  function Unfavorited(recs: seq<Restaurant>, targets: set<nat>): (r: seq<Restaurant>)
    ensures |r| == |recs|
    ensures forall k :: 0 <= k < |recs| ==>
              r[k] == if k in targets then recs[k].(isFavorite := false) else recs[k]
  {
    seq(|recs|, k requires 0 <= k < |recs| =>
      if k in targets then recs[k].(isFavorite := false) else recs[k])
  }

  /** Clearing flags twice clears them once. */
  lemma UnfavoritedIdempotent(recs: seq<Restaurant>, targets: set<nat>)
    ensures Unfavorited(Unfavorited(recs, targets), targets) == Unfavorited(recs, targets)
  {
  }

  /** Cleared records leave the favourites listing; every other favourite stays. */
  lemma UnfavoritedLeavesListing(recs: seq<Restaurant>, targets: set<nat>)
    ensures forall i :: i in FavoritesListing(Unfavorited(recs, targets)) <==>
                        i in FavoritesListing(recs) && i !in targets
  {
  }

  lemma UnfavoritedKeepsUniqueIds(recs: seq<Restaurant>, targets: set<nat>)
    requires UniqueIds(recs)
    ensures UniqueIds(Unfavorited(recs, targets))
  {
    var r := Unfavorited(recs, targets);
    assert forall k :: 0 <= k < |recs| ==> r[k].id == recs[k].id;
  }

  lemma TargetsStep(shown: seq<nat>, done: set<nat>, o: nat)
    requires o < |shown|
    ensures Targets(shown, done + {o}) == Targets(shown, done) + {shown[o]}
  {
  }

  lemma UnfavoritedStep(recs: seq<Restaurant>, targets: set<nat>, k: nat)
    requires k < |recs|
    ensures Unfavorited(recs, targets + {k}) ==
            Unfavorited(recs, targets)[k := recs[k].(isFavorite := false)]
  {
  }

  /** `removeFromFavorites(at:)`: clears the flag of the records in the rows at
      `offsets`, the rows being those on screen when the swipe happened. */
  method RemoveFromFavorites(store: RestaurantStore, searchText: string, offsets: set<nat>)
    requires store.Valid()
    requires forall o :: o in offsets ==> o < |Shown(store.records, searchText)|
    modifies store
    ensures store.Valid()
    ensures store.records ==
            Unfavorited(old(store.records), Targets(Shown(old(store.records), searchText), offsets))
  {
    var shown := Shown(store.records, searchText);
    ghost var before := store.records;
    var todo := offsets;
    ghost var done: set<nat> := {};
    while todo != {}
      invariant todo + done == offsets && todo !! done
      invariant store.records == Unfavorited(before, Targets(shown, done))
      decreases todo
    {
      var o :| o in todo;
      var k := shown[o];
      assert k < |before|;
      TargetsStep(shown, done, o);
      UnfavoritedStep(before, Targets(shown, done), k);
      store.records := store.records[k := store.records[k].(isFavorite := false)];
      todo := todo - {o};
      done := done + {o};
    }
    UnfavoritedKeepsUniqueIds(before, Targets(shown, offsets));
  }

  // ---------------------------------------------------------------------
  // Conversion back to a transfer object

  const UnknownRestaurant := "Unknown Restaurant"
  const NoAddress := "Address not available"
  const UnknownCity := "Unknown City"
  const VariousCuisine := "Various Cuisine"
  const NoHours := "Hours not available"
  const NoPhone := "Phone not available"

  /** Every optional attribute is present. */
  predicate Complete(rec: Restaurant) {
    && rec.id.Some? && rec.name.Some? && rec.address.Some? && rec.city.Some?
    && rec.cuisine.Some? && rec.imageURLs.Some? && rec.openingHours.Some?
    && rec.phoneNumber.Some?
  }

  /** `convertToDTO`. `freshId` stands for the random UUID string used when
      the record has no id. */
  function ConvertToDTO(rec: Restaurant, freshId: string): (d: RestaurantDTO)
    ensures d.id == if rec.id.Some? then rec.id.value else freshId
    ensures d.name == if rec.name.Some? then rec.name.value else UnknownRestaurant
    ensures d.address == if rec.address.Some? then rec.address.value else NoAddress
    ensures d.city == if rec.city.Some? then rec.city.value else UnknownCity
    ensures d.cuisine == if rec.cuisine.Some? then rec.cuisine.value else VariousCuisine
    ensures d.imageURLs == if rec.imageURLs.Some? then rec.imageURLs.value else []
    ensures d.openingHours == if rec.openingHours.Some? then rec.openingHours.value else NoHours
    ensures d.phoneNumber == if rec.phoneNumber.Some? then rec.phoneNumber.value else NoPhone
    ensures Complete(rec) ==> CarriesDto(rec, d)
    ensures d.rating == rec.rating && d.latitude == rec.latitude && d.longitude == rec.longitude
    ensures d.priceLevel == rec.priceLevel as int
  {
    RestaurantDTO(
      rec.id.GetOr(freshId),
      rec.name.GetOr(UnknownRestaurant),
      rec.address.GetOr(NoAddress),
      rec.city.GetOr(UnknownCity),
      rec.cuisine.GetOr(VariousCuisine),
      rec.rating,
      rec.latitude,
      rec.longitude,
      rec.imageURLs.GetOr([]),
      rec.openingHours.GetOr(NoHours),
      rec.phoneNumber.GetOr(NoPhone),
      rec.priceLevel as int)
  }

  /** Saving a transfer object and converting the stored record back returns
      the same transfer object. */
  lemma SavedRecordConvertsBack(recs: seq<Restaurant>, d: RestaurantDTO, k: int, freshId: string)
    requires UniqueIds(recs) && FitsInt16(d.priceLevel)
    requires 0 <= k < |Upsert(recs, d)| && Upsert(recs, d)[k].id == Some(d.id)
    ensures ConvertToDTO(Upsert(recs, d)[k], freshId) == d
  {
    UpsertStoresDto(recs, d);
    var rec := Upsert(recs, d)[k];
    assert CarriesDto(rec, d);
    assert Complete(rec);
  }

  /** Saving the conversion of a complete stored record leaves the table as it was. */
  lemma ResavingConversionChangesNothing(recs: seq<Restaurant>, k: int, freshId: string)
    requires UniqueIds(recs) && 0 <= k < |recs|
    requires Complete(recs[k])
    ensures Upsert(recs, ConvertToDTO(recs[k], freshId)) == recs
  {
    var d := ConvertToDTO(recs[k], freshId);
    FirstWithIdUnique(recs, d.id, k);
    assert FirstWithId(recs, d.id, k);
    var r := Upsert(recs, d);
    forall j | 0 <= j < |recs| ensures r[j] == recs[j] {
      FirstWithIdUnique(recs, d.id, j);
    }
  }
}
