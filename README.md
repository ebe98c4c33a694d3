# Restaurant discovery app: the record store and the screens around it

This project models, in Dafny, the logic of an iOS restaurant discovery app
that can be stated exactly:

- **The restaurant store** (`RestaurantDataManager`). It is a table of
  persisted restaurant records keyed by id. `saveRestaurant` upserts a record
  from an API transfer object and never writes the favourite flag.
  `toggleFavorite` flips the flag in place. Two exact-match fetches select by
  city and by favourite flag. `syncRestaurants` saves a fetched batch in order
  and then re-fetches the city. The store is the class
  `DataManager.RestaurantStore`, whose `records: seq<Restaurant>` the methods
  reassign. Each method is proved against a specification function on the
  sequence (`Upsert`, `UpsertAll`, `Toggled`, `InCity`, `Favorites`). The
  invariant is that no two records share an id.
- **The favourites screen**. Its list is the favourites fetch sorted by name.
  A search narrows it. Swiping rows away clears their favourite flag.
  `convertToDTO` turns a record back into a transfer object. The screen
  mutates the store's objects directly, so a row is modelled as the record's
  position in the store.
- **The transport screen**: the filter by transport type, the icon for a
  type, and the trip duration printed as "M min" or "H h M min".
- **The restaurant list screen**: the search over the loaded restaurants.
- **The filter sheet**: the default options, the sort options, the cuisine
  toggle, Reset / Apply / Cancel, the price-level highlight test, and the
  two-handle price slider with its clamps.

Modelling choices:

- Swift `Double` values are `real`. They are only copied or compared.
- Dates are whole seconds. `Int(duration / 60)` truncates toward zero, and
  the model spells that out for negative intervals too.
- The price range and the slider run over integers, because the slider's
  bounds (1...4) and step (1) keep every value whole. The drag handlers take
  the already-snapped value as input.
- `lowercased()` and `localizedCaseInsensitiveContains` are modelled as
  ASCII lower-casing plus substring search. An empty search text never
  matches, as in Foundation.
- A Core Data fetch without a sort descriptor has no defined order. The model
  returns records in table order.
- The favourites sort compares names by character code. A missing name sorts
  first. The sort has no tie break: equal names keep no particular order.
- `syncRestaurants` receives the outcome of the API fetch as a
  `Result<seq<RestaurantDTO>, APIError>` parameter.
- A batch with two objects of the same id keeps the later one's values, so
  `DataManager.SyncReturnsFetchedCity` is stated for the last object per id.
- The stored price level is Core Data's 16-bit integer (`Records.Int16`).
- The price slider's `range` is a binding to the sheet's working copy, so the
  slider holds a reference to the `FiltersSheet` and its drags write
  `tempFilterOptions.priceRange`.

## Model

| member | source | states |
|---|---|---|
| DataManager.Assign | Sources/RestaurantDataManager.swift:34-45 | The property assignments write every value of the transfer object and leave the id and the favourite flag as they were, so the record carries the object exactly when it already had its id |
| DataManager.NewRecord | Sources/RestaurantDataManager.swift:29-31 | A new entity has the given id, is not a favourite, and has no other optional attribute set |
| DataManager.Find | Sources/RestaurantDataManager.swift:18-25 | The id fetch's `.first`: none exactly when no record has the id, otherwise the position of the first record that has it |
| DataManager.FirstWithIdUnique | Sources/RestaurantDataManager.swift:18-25 | In a table with unique ids, the first record with an id is the only record with it |
| DataManager.Upsert | Sources/RestaurantDataManager.swift:14-52 | Saving `d` grows the table by exactly one record when the id is new (carrying all of `d`'s values, not a favourite) and otherwise keeps the count; the record found by id gets `d`'s values and keeps its favourite flag; every other record is unchanged; unique ids stay unique |
| DataManager.UpsertStoresDto | Sources/RestaurantDataManager.swift:25-45 | After a save, some record has `d`'s id, and every record with that id holds exactly `d`'s values |
| DataManager.UpsertIdempotent | Sources/RestaurantDataManager.swift:14-52 | Saving the same object twice leaves the table as one save does |
| DataManager.UpsertAll | Sources/RestaurantDataManager.swift:116 | Saving a batch in order never shrinks the table, keeps ids at existing positions, keeps ids unique, and leaves every favourite flag as it was (new records are not favourites) |
| DataManager.UpsertAllStoresLast | Sources/RestaurantDataManager.swift:116 | An object of the batch that no later object overrides is stored with all its values |
| DataManager.UpsertAllKeepsFavorites | Sources/RestaurantDataManager.swift:112-122 | A sync leaves the set of favourite ids exactly as it was |
| DataManager.InCity | Sources/RestaurantDataManager.swift:68-79 | The city fetch returns exactly the records whose city equals the argument, in table order |
| DataManager.Favorites | Sources/RestaurantDataManager.swift:98-109 | The favourites fetch returns exactly the favourite records, in table order |
| DataManager.Toggled | Sources/RestaurantDataManager.swift:82-95 | The record found by id has its flag negated; every other record, and the table's length, are unchanged |
| DataManager.ToggleAbsent | Sources/RestaurantDataManager.swift:82-95 | Toggling an id no record has changes nothing and creates no record |
| DataManager.ToggleTwice | Sources/RestaurantDataManager.swift:82-95 | Two toggles of the same id restore the table |
| DataManager.ToggleKeepsUniqueIds | Sources/RestaurantDataManager.swift:82-95 | Toggling keeps ids unique |
| DataManager.RestaurantStore.constructor | Sources/RestaurantDataManager.swift:5-11 | The store starts empty, with unique ids |
| DataManager.RestaurantStore.SaveRestaurant | Sources/RestaurantDataManager.swift:14-52 | The new table is `Upsert` of the old one, and ids stay unique |
| DataManager.RestaurantStore.FetchRestaurants | Sources/RestaurantDataManager.swift:55-65 | Returns every record |
| DataManager.RestaurantStore.FetchRestaurantsIn | Sources/RestaurantDataManager.swift:68-79 | Returns `InCity` of the table |
| DataManager.RestaurantStore.ToggleFavorite | Sources/RestaurantDataManager.swift:82-95 | The new table is `Toggled` of the old one; an absent id leaves it untouched; ids stay unique |
| DataManager.RestaurantStore.FetchFavoriteRestaurants | Sources/RestaurantDataManager.swift:98-109 | Returns `Favorites` of the table |
| DataManager.RestaurantStore.SyncRestaurants | Sources/RestaurantDataManager.swift:112-122 | On a successful fetch the loop saves each object in order (the table becomes `UpsertAll` of the old one) and returns the city fetch of the new table; a failed fetch is passed on and the table is untouched |
| DataManager.SyncReturnsFetchedCity | Sources/RestaurantDataManager.swift:112-122 | After a successful sync, every fetched object of the city that no later object overrides is in the result with all its values |
| SyncScenario.FirstSyncInsertsBoth | Sources/RestaurantDataManager.swift:112-122 | Syncing two restaurants with different ids into an empty store inserts one record per restaurant, in batch order, each carrying its values and not a favourite |
| SyncScenario.FirstSyncListsCity | Sources/RestaurantDataManager.swift:68-79 | When both restaurants are in the city, the city fetch returns both records |
| SyncScenario.FirstSyncHasNoFavorites | Sources/RestaurantDataManager.swift:98-109 | After the first sync there are no favourites |
| SyncScenario.FavoritingFirst | Sources/RestaurantDataManager.swift:82-95 | Toggling the first restaurant's id makes it the only favourite |
| SyncScenario.SyncFavoriteResync | Sources/RestaurantDataManager.swift:112-122 | Empty store, sync two restaurants of one city: the city fetch returns exactly those two with their values and no favourites; favourite the first and sync the same batch again: it is still the only favourite |
| Favorites.StrLeTotal | Sources/FavoritesView.swift:7 | Any two names are ordered one way or the other |
| Favorites.StrLeTransitive | Sources/FavoritesView.swift:7 | The name order is transitive |
| Favorites.NameLeTotal | Sources/FavoritesView.swift:7 | The order on optional names (missing first) is total |
| Favorites.NameLeTransitive | Sources/FavoritesView.swift:7 | The order on optional names is transitive |
| Favorites.FavoritePositions | Sources/FavoritesView.swift:8 | Exactly the positions of favourite records, each once |
| Favorites.InsertByName | Sources/FavoritesView.swift:7 | Inserting a position into a name-sorted list keeps it sorted and adds exactly that position |
| Favorites.SortByName | Sources/FavoritesView.swift:7 | The result is sorted by name and a permutation of the input; no duplicates appear |
| Favorites.FavoritesListing | Sources/FavoritesView.swift:6-9 | The screen's fetched list holds every favourite exactly once and nothing else, sorted by name |
| Favorites.FilteredRestaurants | Sources/FavoritesView.swift:13-23 | Empty search text: the list unchanged; otherwise an order-preserving sublist holding exactly the rows whose record has both a name and a cuisine, one of which contains the text ignoring case |
| Favorites.Shown | Sources/FavoritesView.swift:13-23 | Every row on screen is a favourite record of the table |
| Favorites.SearchFindsOwnName | Sources/FavoritesView.swift:17-20 | Searching a favourite's own non-empty name finds it when it has a cuisine |
| Favorites.Unfavorited | Sources/FavoritesView.swift:72-76 | Exactly the targeted records lose the favourite flag; all others are unchanged |
| Favorites.UnfavoritedIdempotent | Sources/FavoritesView.swift:75 | Clearing the same records again changes nothing |
| Favorites.UnfavoritedLeavesListing | Sources/FavoritesView.swift:75 | After clearing, the favourites list holds exactly the previous favourites minus the cleared records |
| Favorites.UnfavoritedKeepsUniqueIds | Sources/FavoritesView.swift:72-76 | Clearing flags keeps ids unique |
| Favorites.RemoveFromFavorites | Sources/FavoritesView.swift:72-83 | The loop over the swiped offsets clears the flag of exactly the records in those rows of the list on screen, and nothing else |
| Favorites.ConvertToDTO | Sources/FavoritesView.swift:260-275 | Each attribute on its own: a present value is copied, a missing one becomes its fixed default (a fresh id, "Unknown Restaurant", "Address not available", "Unknown City", "Various Cuisine", no images, "Hours not available", "Phone not available"); the scalars are copied; a complete record converts to exactly the object it carries |
| Favorites.SavedRecordConvertsBack | Sources/FavoritesView.swift:260-275 | Converting the record that saving `d` wrote gives back `d` |
| Favorites.ResavingConversionChangesNothing | Sources/FavoritesView.swift:260-275 | Saving the conversion of a complete stored record leaves the table as it was |
| Transport.FilteredOptions | Sources/TransportationView.swift:13-19 | The chip "All" shows every option; any other chip shows exactly the options whose type equals it ignoring case, in order, each with its multiplicity |
| Transport.FilteredOptionsIdempotent | Sources/TransportationView.swift:17 | Filtering the filtered list by the same chip changes nothing |
| Transport.IconForTransportType | Sources/TransportationView.swift:212-225 | "bus", "flight", "train" and "taxi" in any letter case map to "bus", "airplane", "tram" and "car"; every other type maps to "location" |
| Transport.IconIgnoresCase | Sources/TransportationView.swift:213 | The icon depends only on the lower-cased type |
| Transport.ChipsHaveIcons | Sources/TransportationView.swift:11 | Every chip but "All" maps to its own icon rather than the fallback |
| Transport.IconExamples | Sources/TransportationView.swift:212-225 | The icons for "Bus", "FLIGHT", "Train", "Taxi" and "Ferry" |
| Transport.WholeMinutes | Sources/TransportationView.swift:228-229 | The interval in whole minutes, truncated toward zero for either sign |
| Transport.FormattedDuration | Sources/TransportationView.swift:227-238 | Below an hour the text is the (possibly negative) whole minutes followed by " min"; every text ends in " min" |
| Transport.FormattedDurationReadsBack | Sources/TransportationView.swift:227-238 | For a trip that does not end before it starts, the printed text reads back as its whole minutes, so hours times sixty plus the remaining minutes give the total |
| Transport.HoursAndMinutes | Sources/TransportationView.swift:233-236 | From an hour on, the text is "h h m min" with h * 60 + m equal to the minutes, m below sixty and h at least one |
| Transport.DurationExamples | Sources/TransportationView.swift:108-130 | The 10:00 to 10:45 bus prints "45 min" and the 1200-second taxi ride "20 min" |
| RestaurantList.FilteredRestaurants | Sources/RestaurantListView.swift:11-18 | Empty search text: every restaurant; otherwise exactly the restaurants whose name or cuisine contains the text ignoring case, as an order-preserving sublist with each kept restaurant's multiplicity |
| RestaurantList.FilteredIdempotent | Sources/RestaurantListView.swift:15-16 | Searching the result again with the same text changes nothing |
| RestaurantList.SearchFindsOwnName | Sources/RestaurantListView.swift:15-16 | Searching a restaurant's own non-empty name finds it |
| Text.LowerChar | Sources/TransportationView.swift:213 | Upper-case ASCII letters map to lower case; every other character is kept |
| Text.Lower | Sources/TransportationView.swift:17 | Lower-casing keeps the length and maps each character |
| Text.LowerIdempotent | Sources/TransportationView.swift:213 | Lower-casing twice is lower-casing once |
| Text.ContainsItself | Sources/RestaurantListView.swift:15-16 | A non-empty text contains itself ignoring case |
| Text.NatStr | Sources/TransportationView.swift:232-236 | A number prints as a non-empty run of digits without a leading zero |
| Text.IntStr | Sources/TransportationView.swift:232 | An integer prints with a leading minus exactly when it is negative |
| Text.ParseNatStr | Sources/TransportationView.swift:236 | The printed digits read back as the number |
| Seqs.Filter | Sources/RestaurantListView.swift:15-16 | `filter` keeps exactly the elements satisfying the predicate, in order, each with its multiplicity |
| Seqs.FilterIdempotent | Sources/RestaurantListView.swift:15-16 | Filtering twice with one predicate is filtering once |
| Seqs.FilterKeepsAll | Sources/RestaurantDataManager.swift:71 | When every element satisfies the predicate, the filter keeps the whole sequence |
| SearchFilters.SortOptionFromRaw | Sources/SearchFiltersView.swift:11-15 | The raw-value initializer returns a case only for that case's raw value |
| SearchFilters.SortOptionRawRoundTrip | Sources/SearchFiltersView.swift:11-17 | Every case reads back from its raw value |
| SearchFilters.SortOptionIdsDistinct | Sources/SearchFiltersView.swift:11-18 | `allCases` has four entries, lists every case, and their ids differ |
| SearchFilters.ToggleCuisine | Sources/SearchFiltersView.swift:43-47 | Tapping a cuisine flips its membership and leaves every other cuisine as it was |
| SearchFilters.ToggleCuisineTwice | Sources/SearchFiltersView.swift:43-47 | Two taps restore the selection |
| SearchFilters.HighlightedLevelsCount | Sources/SearchFiltersView.swift:66-67 | Among levels 1...n, a level is highlighted exactly when it lies in the range, so the count is the size of the overlap of 1...n and the range |
| SearchFilters.PriceRowHighlightsRange | Sources/SearchFiltersView.swift:66-67 | In the row of four levels, a range within 1...4 highlights as many levels as it spans |
| SearchFilters.DefaultsHighlightAllLevels | Sources/SearchFiltersView.swift:66-67 | With the default range 1...4 all four price levels are highlighted |
| SearchFilters.FiltersSheet.constructor | Sources/SearchFiltersView.swift:30-34 | The working copy starts as the bound options |
| SearchFilters.FiltersSheet.TapCuisine | Sources/SearchFiltersView.swift:42-48 | Only the working copy's cuisine set changes, by `ToggleCuisine` |
| SearchFilters.FiltersSheet.ResetFilters | Sources/SearchFiltersView.swift:132-134 | The working copy becomes the defaults (no cuisines, prices 1...4, rating 0, sort by rating, 10 km), whatever it was |
| SearchFilters.FiltersSheet.Apply | Sources/SearchFiltersView.swift:143-146 | The bound options become the working copy and the sheet is dismissed |
| SearchFilters.FiltersSheet.Cancel | Sources/SearchFiltersView.swift:140-142 | The sheet is dismissed and the bound options are unchanged |
| SearchFilters.ClampLow | Sources/SearchFiltersView.swift:196 | The low handle's new value in every case: the snapped value when it lies between the lower bound and one step below the high handle; the lower bound when the drag undershoots; one step below the high handle when it overshoots or when there is no room above the bound |
| SearchFilters.ClampHigh | Sources/SearchFiltersView.swift:211 | The high handle's new value in every case: the snapped value when it lies between one step above the low handle and the upper bound; the upper bound when the drag overshoots; one step above the low handle when it undershoots or when there is no room below the bound |
| SearchFilters.RangeSlider.constructor | Sources/SearchFiltersView.swift:162-169 | The handles start at the ends of the sheet's working price range |
| SearchFilters.RangeSlider.DragLow | Sources/SearchFiltersView.swift:194-198 | The low handle becomes `ClampLow` of the drag and the high handle stays; the bound price range becomes the new low handle up to the range's old upper end, even when a reset moved the range away from the handles; nothing else in the sheet changes; handles in bounds stay in bounds |
| SearchFilters.RangeSlider.DragHigh | Sources/SearchFiltersView.swift:209-213 | The high handle becomes `ClampHigh` of the drag and the low handle stays; the bound price range becomes the range's old lower end up to the new high handle; nothing else in the sheet changes; handles in bounds stay in bounds |
| SearchFilters.ClampsKeepHandlesInBounds | Sources/SearchFiltersView.swift:194-213 | From handles within the bounds and a step apart, either clamp keeps them so |
| SearchFilters.DefaultRangeFitsSlider | Sources/SearchFiltersView.swift:80 | The default range fits the price slider's bounds 1...4 with the handles a step apart |

## Left out

- Core Data persistence: `context.save()`, save and fetch errors and their logging, the persistence controller and merge policy. The store is an in-memory table.
- DataManager.RestaurantStore.SaveRestaurant: `Int16(priceLevel)` traps when the value does not fit. The model makes fitting a precondition instead of modelling the crash.
- Fetch order: fetches without a sort descriptor return records in table order, where Core Data promises no order.
- Networking and decoding (`APIService`): the fetch outcome is a parameter of `SyncRestaurants`. The error cases carry no underlying cause.
- Asynchrony: Combine publishers and the delayed demo loaders (`loadRestaurants`, `loadTransportOptions`). Their demo transport times appear only in `Transport.DurationExamples`.
- `ImageCache` and `CachedImage`: caching and loading images is outside this model.
- Favorites.ConvertToDTO: `UUID().uuidString` for a missing id is the parameter `freshId`.
- Favorites.RemoveFromFavorites: the list on screen is taken once before the loop. In the source it is recomputed for each offset, but the fetched results do not change until the context processes the edits. The `viewContext.save()` afterwards is not modelled.
- Favorites.StrLeTotal: names are compared by character code, whereas the sort descriptor's default `compare:` compares Unicode strings (canonical equivalence, composed characters).
- Text.Lower: case mapping covers ASCII letters only; locale-aware and Unicode case folding are not modelled.
- Floating point: ratings, coordinates and prices are exact numbers that are only copied. Star counts, `round(newValue / step)` snapping, the rating and distance sliders, and the `%.1f` / `%.2f` formats are not modelled.
- SearchFilters.RangeSlider.DragLow: building `lowHandle...range.upperBound` traps when the new low handle exceeds the range's upper end; the model makes that a precondition instead of modelling the crash (and the mirror case for `SearchFilters.RangeSlider.DragHigh`).
- View layout, navigation, maps, the handle geometry and `ProfileView` have no logic to state.
- Deleting records: the code has no delete operation, so the model has none.
