/** The filter sidebar of the room listing page: the selected room-type
    labels, the selected price range, the (unused) `sortBy` entry, and the
    separately held sort choice, with the checkbox, radio and "Clear all"
    transitions that change them. */
module FilterPanel {
  import opened Base

  /** `selectedFilters`: room-type labels in the order they were checked,
      the price-range label ("" when none) and the `sortBy` entry. */
  datatype Filters = Filters(roomTypes: seq<string>, priceRange: string, sortBy: string)

  /** The whole sidebar state: `selectedFilters` plus `selectedSort`. */
  datatype Panel = Panel(filters: Filters, selectedSort: string)

  /** Which entry of `selectedFilters` a checkbox writes. */
  datatype FilterField = RoomTypesField | PriceRangeField | SortByField

  const NoFilters := Filters([], "", "")

  /** The state the page starts in and "Clear all" returns to. */
  const Cleared := Panel(NoFilters, "")

  /** The four room-type checkboxes and the four price-range checkboxes. */
  const RoomTypeLabels: seq<string> := ["Single", "Double", "Deluxe", "Family"]
  const PriceRangeLabels: seq<string> := ["0 to 500", "500 to 1000", "1000 to 2000", "2000 to 3000"]

  /** Every occurrence of `v` removed, the rest kept in order
      (`items.filter(item => item !== v)`). */
  function RemoveAll(s: seq<string>, v: string): (r: seq<string>)
    ensures v !in r
    ensures forall x :: x != v ==> multiset(r)[x] == multiset(s)[x]
  {
    if |s| == 0 then []
    else
      assert s == [s[0]] + s[1..];
      if s[0] == v then RemoveAll(s[1..], v)
    else [s[0]] + RemoveAll(s[1..], v)
  }

  /** Removal keeps the order of what remains. */
  lemma {:induction false} RemoveAllIsSubsequence(s: seq<string>, v: string)
    ensures IsSubsequence(RemoveAll(s, v), s)
  {
    if |s| > 0 {
      RemoveAllIsSubsequence(s[1..], v);
      if s[0] != v {
        assert RemoveAll(s, v)[1..] == RemoveAll(s[1..], v);
      }
    }
  }

  /** Removing a value that is not there changes nothing. */
  lemma {:induction false} RemoveAllAbsent(s: seq<string>, v: string)
    requires v !in s
    ensures RemoveAll(s, v) == s
  {
    if |s| > 0 {
      RemoveAllAbsent(s[1..], v);
    }
  }

  /** `handleFilterChange(checked, value, type)`: the room-type list grows
      by the label or loses every copy of it; the single-valued entries
      take the label or become "". */
  function HandleFilterChange(f: Filters, checked: bool, value: string, field: FilterField): (r: Filters)
    ensures field != RoomTypesField ==> r.roomTypes == f.roomTypes
    ensures field != PriceRangeField ==> r.priceRange == f.priceRange
    ensures field != SortByField ==> r.sortBy == f.sortBy
  {
    match field
    case RoomTypesField =>
      f.(roomTypes := if checked then f.roomTypes + [value] else RemoveAll(f.roomTypes, value))
    case PriceRangeField =>
      f.(priceRange := if checked then value else "")
    case SortByField =>
      f.(sortBy := if checked then value else "")
  }

  /** Whether a room-type checkbox is drawn checked. */
  predicate TypeChecked(f: Filters, name: string)
  {
    name in f.roomTypes
  }

  /** Checking a room type appends it (so it shows as checked); unchecking
      removes every copy (so it shows as unchecked) and keeps the other
      labels, each as often as before and in the same order. */
  lemma RoomTypeToggle(f: Filters, name: string)
    ensures HandleFilterChange(f, true, name, RoomTypesField).roomTypes == f.roomTypes + [name]
    ensures TypeChecked(HandleFilterChange(f, true, name, RoomTypesField), name)
    ensures !TypeChecked(HandleFilterChange(f, false, name, RoomTypesField), name)
    ensures forall x :: x != name ==>
      multiset(HandleFilterChange(f, false, name, RoomTypesField).roomTypes)[x] == multiset(f.roomTypes)[x]
    ensures IsSubsequence(HandleFilterChange(f, false, name, RoomTypesField).roomTypes, f.roomTypes)
  {
    RemoveAllIsSubsequence(f.roomTypes, name);
  }

  /** Checking an unchecked room type and unchecking it again restores the
      selection exactly. */
  lemma {:induction false} CheckThenUncheckRestores(f: Filters, name: string)
    requires name !in f.roomTypes
    ensures HandleFilterChange(HandleFilterChange(f, true, name, RoomTypesField), false, name, RoomTypesField) == f
  {
    var s := f.roomTypes;
    RemoveAllAbsent(s, name);
    RemoveAllAppend(s, name);
  }

  lemma {:induction false} RemoveAllAppend(s: seq<string>, v: string)
    ensures RemoveAll(s + [v], v) == RemoveAll(s, v)
  {
    if |s| == 0 {
      assert s + [v] == [v];
    } else {
      assert (s + [v])[1..] == s[1..] + [v];
      RemoveAllAppend(s[1..], v);
    }
  }

  /** The price-range checkboxes behave as a single choice: checking one
      replaces any other, unchecking leaves none. */
  lemma PriceRangeSingleChoice(f: Filters, range: string)
    ensures HandleFilterChange(f, true, range, PriceRangeField).priceRange == range
    ensures HandleFilterChange(f, false, range, PriceRangeField).priceRange == ""
    ensures HandleFilterChange(f, true, range, PriceRangeField).roomTypes == f.roomTypes
  {
  }

  /** Choosing a sort radio button changes only the sort choice. */
  function SelectSort(p: Panel, name: string): (r: Panel)
    ensures r.selectedSort == name
    ensures r.filters == p.filters
  {
    p.(selectedSort := name)
  }

  /** `clearFilters`: every selection emptied, whatever was selected. */
  function ClearFilters(p: Panel): (r: Panel)
    ensures |r.filters.roomTypes| == 0 && r.filters.priceRange == "" && r.filters.sortBy == ""
    ensures r.selectedSort == ""
  {
    Cleared
  }

  /** Clearing twice is clearing once. */
  lemma ClearFiltersIdempotent(p: Panel)
    ensures ClearFilters(ClearFilters(p)) == ClearFilters(p)
  {
  }
}
