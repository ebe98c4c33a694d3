/** The restaurant list screen's search over the loaded transfer objects. */
module RestaurantList {
  import opened Seqs
  import opened Text
  import opened Records

  /** The search guard: name or cuisine contains the text, ignoring case. */
  predicate Matches(d: RestaurantDTO, text: string) {
    CaseInsensitiveContains(d.name, text) || CaseInsensitiveContains(d.cuisine, text)
  }

  /** `filteredRestaurants`: everything while the search field is empty,
      otherwise exactly the matching restaurants, in their original order. */
  function FilteredRestaurants(restaurants: seq<RestaurantDTO>, text: string): (r: seq<RestaurantDTO>)
    ensures text == [] ==> r == restaurants
    ensures text != [] ==> IsSubsequence(r, restaurants)
    ensures text != [] ==> forall d :: d in r <==> d in restaurants && Matches(d, text)
    ensures forall d :: multiset(r)[d] == if text == [] || Matches(d, text) then multiset(restaurants)[d] else 0
  {
    if text == [] then restaurants
    else Filter(restaurants, (d: RestaurantDTO) => Matches(d, text))
  }

  /** Searching the search result again with the same text changes nothing. */
  lemma FilteredIdempotent(restaurants: seq<RestaurantDTO>, text: string)
    ensures FilteredRestaurants(FilteredRestaurants(restaurants, text), text) ==
            FilteredRestaurants(restaurants, text)
  {
    if text != [] {
      FilterIdempotent(restaurants, (d: RestaurantDTO) => Matches(d, text));
    }
  }

  /** Searching a restaurant's own (non-empty) name finds it. */
  lemma SearchFindsOwnName(restaurants: seq<RestaurantDTO>, d: RestaurantDTO)
    requires d in restaurants && |d.name| > 0
    ensures d in FilteredRestaurants(restaurants, d.name)
  {
    ContainsItself(d.name);
  }
}
