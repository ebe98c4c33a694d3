/** The filter sheet: a working copy of the filter options edited by cuisine
    toggles, a price-range slider, a rating and distance slider and a sort
    picker, with Reset, Apply and Cancel. Slider values are whole numbers:
    the price slider runs over 1...4 in steps of 1 and snaps to the step. */
module SearchFilters {
  import opened Wrappers

  datatype SortOption = Rating | Distance | PriceAsc | PriceDesc {
    function RawValue(): string {
      match this
      case Rating => "Rating"
      case Distance => "Distance"
      case PriceAsc => "Price: Low to High"
      case PriceDesc => "Price: High to Low"
    }

    /** `Identifiable` conformance: the raw value. */
    function Id(): string {
      RawValue()
    }
  }

  /** `allCases`, in declaration order. */
  const AllSortOptions: seq<SortOption> := [Rating, Distance, PriceAsc, PriceDesc]

  /** The raw-value initializer `SortOption(rawValue:)`. */
  function SortOptionFromRaw(raw: string): (r: Option<SortOption>)
    ensures r.Some? ==> r.value.RawValue() == raw
  {
    if raw == "Rating" then Some(Rating)
    else if raw == "Distance" then Some(Distance)
    else if raw == "Price: Low to High" then Some(PriceAsc)
    else if raw == "Price: High to Low" then Some(PriceDesc)
    else None
  }

  /** Every case reads back from its raw value. */
  lemma SortOptionRawRoundTrip(o: SortOption)
    ensures SortOptionFromRaw(o.RawValue()) == Some(o)
  {
  }

  /** There are four cases, `allCases` lists each once, and their ids differ. */
  lemma SortOptionIdsDistinct()
    ensures |AllSortOptions| == 4
    ensures forall o: SortOption :: o in AllSortOptions
    ensures forall i, j :: 0 <= i < j < |AllSortOptions| ==> AllSortOptions[i].Id() != AllSortOptions[j].Id()
  {
    forall o: SortOption ensures o in AllSortOptions {
      match o
      case Rating => assert AllSortOptions[0] == o;
      case Distance => assert AllSortOptions[1] == o;
      case PriceAsc => assert AllSortOptions[2] == o;
      case PriceDesc => assert AllSortOptions[3] == o;
    }
  }

  /** A closed range `lower...upper`. */
  datatype PriceRange = PriceRange(lower: int, upper: int)

  datatype FilterOptions = FilterOptions(
    selectedCuisines: set<string>,
    priceRange: PriceRange,
    minRating: real,
    sortBy: SortOption,
    maxDistance: real)

  /** `FilterOptions()`: the defaults. */
  const DefaultFilterOptions := FilterOptions({}, PriceRange(1, 4), 0.0, Rating, 10.0)

  /** Tapping a cuisine row: remove it when selected, insert it otherwise. */
  function ToggleCuisine(selected: set<string>, cuisine: string): (r: set<string>)
    ensures cuisine in r <==> cuisine !in selected
    ensures forall c :: c != cuisine ==> (c in r <==> c in selected)
  {
    if cuisine in selected then selected - {cuisine} else selected + {cuisine}
  }

  /** Two taps on the same row restore the selection. */
  lemma ToggleCuisineTwice(selected: set<string>, cuisine: string)
    ensures ToggleCuisine(ToggleCuisine(selected, cuisine), cuisine) == selected
  {
  }

  /** Price level `i` is drawn highlighted when it lies within the range
      (the bounds are whole numbers, so converting them to `Int` keeps them). */
  predicate PriceLevelHighlighted(range: PriceRange, i: int) {
    i >= range.lower && i <= range.upper
  }

  /** How many of the price levels `1...n` are drawn highlighted. */
  function HighlightedLevels(range: PriceRange, n: nat): nat {
    if n == 0 then 0
    else HighlightedLevels(range, n - 1) + (if PriceLevelHighlighted(range, n) then 1 else 0)
  }

  /** The highlighted levels among `1...n` are exactly those in both `1...n`
      and the range, so their number is the size of that overlap. */
  lemma {:induction false} HighlightedLevelsCount(range: PriceRange, n: nat)
    ensures HighlightedLevels(range, n) == Max(0, Min(n, range.upper) - Max(1, range.lower) + 1)
  {
    if n > 0 {
      HighlightedLevelsCount(range, n - 1);
    }
  }

  /** In the row of four price levels, a range within 1...4 highlights as
      many levels as it spans. */
  lemma PriceRowHighlightsRange(range: PriceRange)
    requires 1 <= range.lower <= range.upper <= 4
    ensures HighlightedLevels(range, 4) == range.upper - range.lower + 1
  {
    HighlightedLevelsCount(range, 4);
  }

  /** With the default range every one of the four price levels is highlighted. */
  lemma DefaultsHighlightAllLevels()
    ensures forall i :: 1 <= i <= 4 ==> PriceLevelHighlighted(DefaultFilterOptions.priceRange, i)
  {
  }

  /** The sheet's state: the bound presentation flag and options, and the
      working copy the controls edit. */
  class FiltersSheet {
    var isPresented: bool
    var filterOptions: FilterOptions
    var tempFilterOptions: FilterOptions

    constructor (isPresented: bool, filterOptions: FilterOptions)
      ensures this.isPresented == isPresented && this.filterOptions == filterOptions
      ensures tempFilterOptions == filterOptions
    {
      this.isPresented := isPresented;
      this.filterOptions := filterOptions;
      tempFilterOptions := filterOptions;
    }

    /** A cuisine row's button action. */
    method TapCuisine(cuisine: string)
      modifies this
      ensures tempFilterOptions ==
              old(tempFilterOptions).(selectedCuisines := ToggleCuisine(old(tempFilterOptions.selectedCuisines), cuisine))
      ensures isPresented == old(isPresented) && filterOptions == old(filterOptions)
    {
      if cuisine in tempFilterOptions.selectedCuisines {
        tempFilterOptions := tempFilterOptions.(selectedCuisines := tempFilterOptions.selectedCuisines - {cuisine});
      } else {
        tempFilterOptions := tempFilterOptions.(selectedCuisines := tempFilterOptions.selectedCuisines + {cuisine});
      }
    }

    /** "Reset Filters". */
    method ResetFilters()
      modifies this
      ensures tempFilterOptions == DefaultFilterOptions
      ensures isPresented == old(isPresented) && filterOptions == old(filterOptions)
    {
      tempFilterOptions := DefaultFilterOptions;
    }

    /** "Apply": publish the working copy and dismiss. */
    method Apply()
      modifies this
      ensures filterOptions == old(tempFilterOptions) && !isPresented
      ensures tempFilterOptions == old(tempFilterOptions)
    {
      filterOptions := tempFilterOptions;
      isPresented := false;
    }

    /** "Cancel": dismiss without publishing. */
    method Cancel()
      modifies this
      ensures !isPresented
      ensures filterOptions == old(filterOptions) && tempFilterOptions == old(tempFilterOptions)
    {
      isPresented := false;
    }
  }

  function Min(a: int, b: int): int { if a <= b then a else b }
  function Max(a: int, b: int): int { if a >= b then a else b }

  /** The low handle after a drag to the snapped value `snapped`: no lower than
      the slider's lower bound, and at least one step below the high handle. */
  function ClampLow(snapped: int, lowerBound: int, high: int, step: int): (low: int)
    ensures low <= high - step
    ensures lowerBound <= high - step ==> lowerBound <= low
    ensures lowerBound <= snapped <= high - step ==> low == snapped
    ensures snapped > high - step ==> low == high - step
    ensures snapped < lowerBound <= high - step ==> low == lowerBound
    ensures high - step < lowerBound ==> low == high - step
  {
    Min(Max(snapped, lowerBound), high - step)
  }

  /** The high handle after a drag: no higher than the slider's upper bound,
      and at least one step above the low handle. */
  function ClampHigh(snapped: int, upperBound: int, low: int, step: int): (high: int)
    ensures high >= low + step
    ensures low + step <= upperBound ==> high <= upperBound
    ensures low + step <= snapped <= upperBound ==> high == snapped
    ensures snapped < low + step ==> high == low + step
    ensures low + step <= upperBound < snapped ==> high == upperBound
    ensures upperBound < low + step ==> high == low + step
  {
    Max(Min(snapped, upperBound), low + step)
  }

  /** The two-handle price slider. Its `range` binding is the price range of
      the sheet's working copy; the handles are the slider's own state, seeded
      from the range once, so a range changed elsewhere (Reset Filters) does
      not move them. */
  class RangeSlider {
    const sheet: FiltersSheet
    const bounds: PriceRange
    const step: int
    var lowHandle: int
    var highHandle: int

    /** Both handles lie within the bounds, at least one step apart. */
    ghost predicate InBounds()
      reads this
    {
      bounds.lower <= lowHandle && lowHandle + step <= highHandle && highHandle <= bounds.upper
    }

    constructor (sheet: FiltersSheet, bounds: PriceRange, step: int)
      ensures this.sheet == sheet && this.bounds == bounds && this.step == step
      ensures lowHandle == sheet.tempFilterOptions.priceRange.lower
      ensures highHandle == sheet.tempFilterOptions.priceRange.upper
    {
      this.sheet := sheet;
      this.bounds := bounds;
      this.step := step;
      lowHandle := sheet.tempFilterOptions.priceRange.lower;
      highHandle := sheet.tempFilterOptions.priceRange.upper;
    }

    /** The low handle's drag action. Writing `lowHandle...range.upperBound`
        back to the binding traps unless the new low handle is at most the
        range's upper end. */
    method DragLow(snapped: int)
      requires ClampLow(snapped, bounds.lower, highHandle, step) <= sheet.tempFilterOptions.priceRange.upper
      modifies this, sheet
      ensures lowHandle == ClampLow(snapped, bounds.lower, old(highHandle), step)
      ensures highHandle == old(highHandle)
      ensures sheet.tempFilterOptions ==
              old(sheet.tempFilterOptions).(priceRange := PriceRange(lowHandle, old(sheet.tempFilterOptions.priceRange.upper)))
      ensures sheet.isPresented == old(sheet.isPresented) && sheet.filterOptions == old(sheet.filterOptions)
      ensures old(InBounds()) ==> InBounds()
    {
      lowHandle := ClampLow(snapped, bounds.lower, highHandle, step);
      var options := sheet.tempFilterOptions;
      sheet.tempFilterOptions := options.(priceRange := PriceRange(lowHandle, options.priceRange.upper));
    }

    /** The high handle's drag action; the mirror image of `DragLow`. */
    method DragHigh(snapped: int)
      requires sheet.tempFilterOptions.priceRange.lower <= ClampHigh(snapped, bounds.upper, lowHandle, step)
      modifies this, sheet
      ensures highHandle == ClampHigh(snapped, bounds.upper, old(lowHandle), step)
      ensures lowHandle == old(lowHandle)
      ensures sheet.tempFilterOptions ==
              old(sheet.tempFilterOptions).(priceRange := PriceRange(old(sheet.tempFilterOptions.priceRange.lower), highHandle))
      ensures sheet.isPresented == old(sheet.isPresented) && sheet.filterOptions == old(sheet.filterOptions)
      ensures old(InBounds()) ==> InBounds()
    {
      highHandle := ClampHigh(snapped, bounds.upper, lowHandle, step);
      var options := sheet.tempFilterOptions;
      sheet.tempFilterOptions := options.(priceRange := PriceRange(options.priceRange.lower, highHandle));
    }
  }

  /** Starting from handles within the bounds and a step apart, any sequence
      of drags keeps them so: each clamp preserves that state. */
  lemma ClampsKeepHandlesInBounds(bounds: PriceRange, low: int, high: int, step: int, snapped: int)
    requires step > 0 && bounds.lower <= low && low + step <= high && high <= bounds.upper
    ensures var l := ClampLow(snapped, bounds.lower, high, step);
            bounds.lower <= l && l + step <= high
    ensures var h := ClampHigh(snapped, bounds.upper, low, step);
            low + step <= h && h <= bounds.upper
  {
  }

  /** The default price range fits the price slider (bounds 1...4, step 1)
      with its handles in bounds. */
  lemma DefaultRangeFitsSlider()
    ensures var r := DefaultFilterOptions.priceRange;
            1 <= r.lower && r.lower + 1 <= r.upper && r.upper <= 4
  {
  }
}
