/** The room listing's search pipeline: keep the catalog rooms that pass
    the room-type, price-range and destination clauses, then sort them with
    the chosen comparator. `Array.prototype.sort` is stable (section
    22.1.3.27 of ECMA-262, 10th edition, 2019), so the sort is modelled as
    a stable insertion sort. */
module RoomSearch {
  import opened Base
  import opened Text
  import opened Catalog
  import opened FilterPanel

  // ---------------------------------------------------------------------
  // Type clause

  /** Some selected label, lower-cased, occurs in the lower-cased room
      type; no selected label is a wildcard, a room without a type fails
      any selection. */
  function TypeMatches(room: Room, labels: seq<string>): (r: bool)
    ensures |labels| == 0 ==> r
    ensures |labels| > 0 && room.roomType.None? ==> !r
  {
    || |labels| == 0
    || (room.roomType.Some? &&
        exists t :: t in labels && Contains(Lower(room.roomType.value), Lower(t)))
  }

  // ---------------------------------------------------------------------
  // Price clause

  /** The separator the price-range labels are split on. */
  const RangeSeparator := " to "

  /** Index of the first occurrence of `sep` in `s`, as `indexOf` finds it. */
  function FindSeparator(s: string, sep: string): (r: Option<nat>)
    ensures r.Some? ==> r.value + |sep| <= |s|
    decreases |s|
  {
    if StartsWith(s, sep) then Some(0)
    else if |s| == 0 then None
    else
      var rest := FindSeparator(s[1..], sep);
      if rest.Some? then Some(rest.value + 1) else None
  }

  lemma OccursShift(s: string, sep: string, j: int)
    requires |s| > 0 && j >= 1
    ensures OccursAt(s, sep, j) <==> OccursAt(s[1..], sep, j - 1)
  {
    if j <= |s| - |sep| {
      assert s[1..][j - 1..j - 1 + |sep|] == s[j..j + |sep|];
    }
  }

  /** The search finds the first occurrence, and finds none only when there
      is none. */
  lemma {:induction false} FindSeparatorFirst(s: string, sep: string)
    ensures FindSeparator(s, sep).Some? ==> OccursAt(s, sep, FindSeparator(s, sep).value)
    ensures FindSeparator(s, sep).Some? ==>
      forall j :: 0 <= j < FindSeparator(s, sep).value ==> !OccursAt(s, sep, j)
    ensures FindSeparator(s, sep).None? ==> forall j :: !OccursAt(s, sep, j)
    decreases |s|
  {
    if StartsWith(s, sep) {
      assert s[0..0 + |sep|] == s[..|sep|];
    } else if |s| > 0 {
      FindSeparatorFirst(s[1..], sep);
      assert !OccursAt(s, sep, 0);
      forall j | j >= 1
        ensures OccursAt(s, sep, j) <==> OccursAt(s[1..], sep, j - 1)
      {
        OccursShift(s, sep, j);
      }
    }
  }

  /** `s.split(sep)[0]`: the text before the first separator, or all of it. */
  function FirstPart(s: string, sep: string): (r: string)
    ensures r <= s
    ensures forall j :: 0 <= j < |r| ==> !OccursAt(s, sep, j)
    ensures (forall j :: !OccursAt(s, sep, j)) ==> r == s
    ensures (exists j :: OccursAt(s, sep, j)) ==> OccursAt(s, sep, |r|)
  {
    FindSeparatorFirst(s, sep);
    match FindSeparator(s, sep)
    case None => s
    case Some(i) => s[..i]
  }

  /** `s.split(sep)[1]`: the text between the first and second separator
      (or to the end); absent when there is no separator. */
  function SecondPart(s: string, sep: string): (r: Option<string>)
    ensures r.None? <==> forall j :: !OccursAt(s, sep, j)
    ensures r.Some? ==> |FirstPart(s, sep)| + |sep| + |r.value| <= |s|
  {
    FindSeparatorFirst(s, sep);
    match FindSeparator(s, sep)
    case None => None
    case Some(i) => Some(FirstPart(s[i + |sep|..], sep))
  }

  /** `Number(text)` for the texts a price label can hold: "" is 0, a
      decimal digit string is its value, anything else is NaN (`None`). */
  function ParseNumber(text: Option<string>): (r: Option<int>)
    ensures r.Some? ==> r.value >= 0
    ensures text == Some("") ==> r == Some(0)
    ensures text.None? ==> r.None?
  {
    match text
    case None => None
    case Some(t) => if AllDigits(t) then Some(DigitsValue(t)) else None
  }

  /** `[min, max] = range.split(" to ").map(Number)`; `None` when either
      bound is NaN, in which case every price comparison is false. */
  function RangeBounds(range: string): (r: Option<(int, int)>)
    ensures r.Some? ==> r.value.0 >= 0 && r.value.1 >= 0
    ensures (forall j :: !OccursAt(range, RangeSeparator, j)) ==> r.None?
  {
    var lo := ParseNumber(Some(FirstPart(range, RangeSeparator)));
    var hi := ParseNumber(SecondPart(range, RangeSeparator));
    if lo.Some? && hi.Some? then Some((lo.value, hi.value)) else None
  }

  /** Positionally: one label selects a typed room exactly when the
      folded label occurs at some index of the folded type. */
  lemma {:induction false} TypeClauseIsOccurrence(room: Room, t: string)
    requires room.roomType.Some?
    ensures TypeMatches(room, [t]) ==> exists i :: OccursAt(Lower(room.roomType.value), Lower(t), i)
    ensures (exists i :: OccursAt(Lower(room.roomType.value), Lower(t), i)) ==> TypeMatches(room, [t])
  {
    var ty := Lower(room.roomType.value);
    assert TypeMatches(room, [t]) <==> Contains(ty, Lower(t)) by {
      assert t in [t];
    }
    ContainsIffOccurs(ty, Lower(t));
  }

  /** Several labels select the rooms any one of them selects. */
  lemma TypeClauseIsAnyLabel(room: Room, labels: seq<string>)
    requires |labels| > 0
    ensures TypeMatches(room, labels) <==> exists t :: t in labels && TypeMatches(room, [t])
  {
    if TypeMatches(room, labels) {
      var t :| t in labels && Contains(Lower(room.roomType.value), Lower(t));
      assert t in [t];
    }
    if exists t :: t in labels && TypeMatches(room, [t]) {
      var t :| t in labels && TypeMatches(room, [t]);
      assert Contains(Lower(room.roomType.value), Lower(t)) by {
        var u :| u in [t] && Contains(Lower(room.roomType.value), Lower(u));
      }
    }
  }

  /** No range selected is a wildcard; otherwise the price must lie in the
      parsed range, both ends included. */
  function PriceMatches(room: Room, range: string): (r: bool)
    ensures range == "" ==> r
    ensures range != "" && RangeBounds(range).None? ==> !r
  {
    || range == ""
    || (RangeBounds(range).Some? &&
        RangeBounds(range).value.0 <= room.pricePerNight <= RangeBounds(range).value.1)
  }

  // ---------------------------------------------------------------------
  // Destination clause

  /** An absent or empty `destination` query parameter is a wildcard;
      otherwise the lower-cased city must contain the lower-cased
      parameter, and a room without a city fails. */
  function DestinationMatches(room: Room, destination: Option<string>): (r: bool)
    ensures destination.None? || destination == Some("") ==> r
    ensures destination.Some? && destination.value != "" && CityOf(room).None? ==> !r
  {
    || destination.None?
    || destination.value == ""
    || (CityOf(room).Some? && Contains(Lower(CityOf(room).value), Lower(destination.value)))
  }

  /** The three clauses together. */
  predicate Matches(room: Room, f: Filters, destination: Option<string>)
  {
    TypeMatches(room, f.roomTypes) && PriceMatches(room, f.priceRange) && DestinationMatches(room, destination)
  }

  /** `rooms.filter(room => ...)`: the matching rooms in catalog order. */
  function FilterRooms(rooms: seq<Room>, f: Filters, destination: Option<string>): (r: seq<Room>)
    ensures forall i :: 0 <= i < |r| ==> Matches(r[i], f, destination)
    ensures |r| <= |rooms|
  {
    if |rooms| == 0 then []
    else (if Matches(rooms[0], f, destination) then [rooms[0]] else []) + FilterRooms(rooms[1..], f, destination)
  }

  /** The kept rooms are exactly the matching ones, each as often as the
      catalog holds it. */
  lemma {:induction false} FilterRoomsCounts(rooms: seq<Room>, f: Filters, destination: Option<string>)
    ensures forall x :: multiset(FilterRooms(rooms, f, destination))[x]
                     == if Matches(x, f, destination) then multiset(rooms)[x] else 0
  {
    if |rooms| > 0 {
      FilterRoomsCounts(rooms[1..], f, destination);
      assert rooms == [rooms[0]] + rooms[1..];
    }
  }

  lemma {:induction false} FilterRoomsIsSubsequence(rooms: seq<Room>, f: Filters, destination: Option<string>)
    ensures IsSubsequence(FilterRooms(rooms, f, destination), rooms)
  {
    if |rooms| > 0 {
      var rest := FilterRooms(rooms[1..], f, destination);
      FilterRoomsIsSubsequence(rooms[1..], f, destination);
      if Matches(rooms[0], f, destination) {
        assert FilterRooms(rooms, f, destination) == [rooms[0]] + rest;
        assert ([rooms[0]] + rest)[1..] == rest;
      } else {
        assert FilterRooms(rooms, f, destination) == rest;
      }
    }
  }

  // ---------------------------------------------------------------------
  // Sorting

  const LowToHigh := "Price Low to High"
  const HighToLow := "Price High to Low"
  const NewestFirst := "Newest First"

  /** The comparator passed to `sort`, written as the page writes it. */
  function Compare(sort: string, a: Room, b: Room): int
  {
    if sort == LowToHigh then a.pricePerNight - b.pricePerNight
    else if sort == HighToLow then b.pricePerNight - a.pricePerNight
    else if sort == NewestFirst then b.createdAt - a.createdAt
    else 0
  }

  /** The number each comparator orders by, ascending. */
  function SortKey(sort: string, room: Room): int
  {
    if sort == LowToHigh then room.pricePerNight
    else if sort == HighToLow then -room.pricePerNight
    else if sort == NewestFirst then -room.createdAt
    else 0
  }

  /** Every comparator is a difference of keys, so it is a consistent
      comparator in the sense ECMA-262 requires: negative, zero and
      positive results form a total preorder. */
  lemma CompareIsKeyDifference(sort: string, a: Room, b: Room)
    ensures Compare(sort, a, b) == SortKey(sort, a) - SortKey(sort, b)
    ensures Compare(sort, a, b) == -Compare(sort, b, a)
  {
  }

  /** Each earlier room compares at most equal to each later one. */
  ghost predicate Sorted(sort: string, s: seq<Room>)
  {
    forall i, j :: 0 <= i < j < |s| ==> Compare(sort, s[i], s[j]) <= 0
  }

  /** Insert `x` in front of the first room it does not compare above, so
      it stays ahead of rooms with an equal key. */
  function Insert(sort: string, x: Room, s: seq<Room>): (r: seq<Room>)
    ensures multiset(r) == multiset(s) + multiset{x}
    ensures |r| == |s| + 1
  {
    if |s| == 0 then [x]
    else if Compare(sort, x, s[0]) <= 0 then [x] + s
    else
      assert s == [s[0]] + s[1..];
      [s[0]] + Insert(sort, x, s[1..])
  }

  /** Stable insertion sort: the first room is inserted into the sorted
      rest. */
  function StableSort(sort: string, s: seq<Room>): (r: seq<Room>)
    ensures multiset(r) == multiset(s)
    ensures |r| == |s|
  {
    if |s| == 0 then []
    else
      assert s == [s[0]] + s[1..];
      Insert(sort, s[0], StableSort(sort, s[1..]))
  }

  lemma {:induction false} InsertSorted(sort: string, x: Room, s: seq<Room>)
    requires Sorted(sort, s)
    ensures Sorted(sort, Insert(sort, x, s))
    decreases |s|
  {
    if |s| > 0 && Compare(sort, x, s[0]) > 0 {
      var rest := Insert(sort, x, s[1..]);
      InsertSorted(sort, x, s[1..]);
      var r := [s[0]] + rest;
      forall j | 0 < j < |r|
        ensures Compare(sort, s[0], r[j]) <= 0
      {
        assert r[j] in multiset(rest);
        if r[j] != x {
          assert r[j] in multiset(s[1..]);
          var k :| 0 <= k < |s[1..]| && s[1..][k] == r[j];
          assert s[k + 1] == r[j];
        }
      }
    }
  }

  /** The sorted result orders rooms by the comparator. */
  lemma {:induction false} StableSortSorted(sort: string, s: seq<Room>)
    ensures Sorted(sort, StableSort(sort, s))
  {
    if |s| > 0 {
      StableSortSorted(sort, s[1..]);
      InsertSorted(sort, s[0], StableSort(sort, s[1..]));
    }
  }

  /** The rooms whose key is `k`, in their order in `s`. */
  function WithKey(sort: string, s: seq<Room>, k: int): (r: seq<Room>)
    ensures forall i :: 0 <= i < |r| ==> SortKey(sort, r[i]) == k
  {
    if |s| == 0 then []
    else (if SortKey(sort, s[0]) == k then [s[0]] else []) + WithKey(sort, s[1..], k)
  }

  lemma {:induction false} InsertWithKey(sort: string, x: Room, s: seq<Room>, k: int)
    ensures WithKey(sort, Insert(sort, x, s), k)
         == (if SortKey(sort, x) == k then [x] else []) + WithKey(sort, s, k)
    decreases |s|
  {
    if |s| == 0 {
    } else if Compare(sort, x, s[0]) <= 0 {
      assert ([x] + s)[1..] == s;
    } else {
      InsertWithKey(sort, x, s[1..], k);
      assert ([s[0]] + Insert(sort, x, s[1..]))[1..] == Insert(sort, x, s[1..]);
    }
  }

  /** Stability: for every key, the rooms with that key come out in the
      order they went in. */
  lemma {:induction false} StableSortStable(sort: string, s: seq<Room>, k: int)
    ensures WithKey(sort, StableSort(sort, s), k) == WithKey(sort, s, k)
  {
    if |s| > 0 {
      StableSortStable(sort, s[1..], k);
      InsertWithKey(sort, s[0], StableSort(sort, s[1..]), k);
    }
  }

  /** With an unrecognised sort choice the comparator always answers 0 and
      the order is left alone. */
  lemma {:induction false} UnknownSortIsIdentity(sort: string, s: seq<Room>)
    requires sort != LowToHigh && sort != HighToLow && sort != NewestFirst
    ensures StableSort(sort, s) == s
  {
    if |s| > 0 {
      UnknownSortIsIdentity(sort, s[1..]);
      assert s == [s[0]] + s[1..];
    }
  }

  // ---------------------------------------------------------------------
  // The pipeline

  /** `filteredRooms`: an empty catalog gives no rooms; otherwise the
      matching rooms, stably sorted by the chosen comparator. */
  function Search(rooms: seq<Room>, p: Panel, destination: Option<string>): (r: seq<Room>)
    ensures |rooms| == 0 ==> r == []
    ensures |r| <= |rooms|
    ensures forall x :: x in r ==> Matches(x, p.filters, destination)
  {
    if |rooms| == 0 then []
    else
      var filtered := FilterRooms(rooms, p.filters, destination);
      var sorted := StableSort(p.selectedSort, filtered);
      assert forall x :: x in sorted ==> x in multiset(filtered);
      sorted
  }

  /** The result holds exactly the matching catalog rooms, each as often as
      in the catalog; it is ordered by the comparator; and rooms with equal
      keys appear in catalog order. */
  lemma SearchResult(rooms: seq<Room>, p: Panel, destination: Option<string>)
    ensures forall x :: multiset(Search(rooms, p, destination))[x]
                     == if Matches(x, p.filters, destination) then multiset(rooms)[x] else 0
    ensures forall x :: x in Search(rooms, p, destination) <==> x in rooms && Matches(x, p.filters, destination)
    ensures Sorted(p.selectedSort, Search(rooms, p, destination))
    ensures forall k :: WithKey(p.selectedSort, Search(rooms, p, destination), k)
                     == WithKey(p.selectedSort, FilterRooms(rooms, p.filters, destination), k)
  {
    var filtered := FilterRooms(rooms, p.filters, destination);
    FilterRoomsCounts(rooms, p.filters, destination);
    StableSortSorted(p.selectedSort, filtered);
    forall k
      ensures WithKey(p.selectedSort, Search(rooms, p, destination), k) == WithKey(p.selectedSort, filtered, k)
    {
      StableSortStable(p.selectedSort, filtered, k);
    }
    forall x
      ensures x in Search(rooms, p, destination) <==> x in rooms && Matches(x, p.filters, destination)
    {
      assert x in Search(rooms, p, destination) <==> multiset(Search(rooms, p, destination))[x] > 0;
      assert x in rooms <==> multiset(rooms)[x] > 0;
    }
  }

  /** "Price Low to High" gives non-decreasing prices. */
  lemma LowToHighOrder(rooms: seq<Room>, p: Panel, destination: Option<string>)
    requires p.selectedSort == LowToHigh
    ensures forall i, j :: 0 <= i < j < |Search(rooms, p, destination)| ==>
      Search(rooms, p, destination)[i].pricePerNight <= Search(rooms, p, destination)[j].pricePerNight
  {
    SearchResult(rooms, p, destination);
  }

  /** "Price High to Low" gives non-increasing prices. */
  lemma HighToLowOrder(rooms: seq<Room>, p: Panel, destination: Option<string>)
    requires p.selectedSort == HighToLow
    ensures forall i, j :: 0 <= i < j < |Search(rooms, p, destination)| ==>
      Search(rooms, p, destination)[i].pricePerNight >= Search(rooms, p, destination)[j].pricePerNight
  {
    SearchResult(rooms, p, destination);
  }

  /** "Newest First" gives non-increasing creation times. */
  lemma NewestFirstOrder(rooms: seq<Room>, p: Panel, destination: Option<string>)
    requires p.selectedSort == NewestFirst
    ensures forall i, j :: 0 <= i < j < |Search(rooms, p, destination)| ==>
      Search(rooms, p, destination)[i].createdAt >= Search(rooms, p, destination)[j].createdAt
  {
    SearchResult(rooms, p, destination);
  }

  /** Without a recognised sort choice the result is the filtered catalog
      in catalog order. */
  lemma UnsortedKeepsCatalogOrder(rooms: seq<Room>, p: Panel, destination: Option<string>)
    requires p.selectedSort != LowToHigh && p.selectedSort != HighToLow && p.selectedSort != NewestFirst
    ensures Search(rooms, p, destination) == FilterRooms(rooms, p.filters, destination)
    ensures IsSubsequence(Search(rooms, p, destination), rooms)
  {
    UnknownSortIsIdentity(p.selectedSort, FilterRooms(rooms, p.filters, destination));
    FilterRoomsIsSubsequence(rooms, p.filters, destination);
  }

  /** A filter every room passes keeps the whole catalog. */
  lemma {:induction false} FilterKeepsAll(rooms: seq<Room>, f: Filters, destination: Option<string>)
    requires forall i :: 0 <= i < |rooms| ==> Matches(rooms[i], f, destination)
    ensures FilterRooms(rooms, f, destination) == rooms
  {
    if |rooms| > 0 {
      FilterKeepsAll(rooms[1..], f, destination);
      assert rooms == [rooms[0]] + rooms[1..];
    }
  }

  /** With no type, no price range, no destination and no sort, the result
      is the catalog itself, in the same order. */
  lemma WildcardSearchIsCatalog(rooms: seq<Room>, p: Panel, destination: Option<string>)
    requires |p.filters.roomTypes| == 0 && p.filters.priceRange == ""
    requires destination.None? || destination == Some("")
    requires p.selectedSort != LowToHigh && p.selectedSort != HighToLow && p.selectedSort != NewestFirst
    ensures Search(rooms, p, destination) == rooms
  {
    FilterKeepsAll(rooms, p.filters, destination);
    UnknownSortIsIdentity(p.selectedSort, rooms);
  }

  /** "Clear all" with no destination parameter shows the whole catalog. */
  lemma ClearedShowsCatalog(rooms: seq<Room>, p: Panel)
    ensures Search(rooms, ClearFilters(p), None) == rooms
  {
    WildcardSearchIsCatalog(rooms, ClearFilters(p), None);
  }

  /** An empty catalog gives an empty result whatever is selected. */
  lemma EmptyCatalogEmptyResult(p: Panel, destination: Option<string>)
    ensures Search([], p, destination) == []
  {
  }

  /** The label the price checkboxes show for a range. */
  function RangeLabel(lo: string, hi: string): string
  {
    lo + RangeSeparator + hi
  }

  lemma {:induction false} SeparatorAfterDigits(lo: string, hi: string)
    requires AllDigits(lo) && AllDigits(hi)
    ensures FindSeparator(RangeLabel(lo, hi), RangeSeparator) == Some(|lo|)
    ensures FindSeparator(hi, RangeSeparator).None?
  {
    var s := RangeLabel(lo, hi);
    var sep := RangeSeparator;
    assert s[|lo|..|lo| + |sep|] == sep;
    assert OccursAt(s, sep, |lo|);
    forall j | 0 <= j < |lo|
      ensures !OccursAt(s, sep, j)
    {
      assert s[j] == lo[j];
      assert s[j..j + |sep|][0] == s[j];
    }
    forall j | 0 <= j <= |hi| - |sep|
      ensures !OccursAt(hi, sep, j)
    {
      assert hi[j..j + |sep|][0] == hi[j];
    }
    FindSeparatorFirst(s, sep);
    FindSeparatorFirst(hi, sep);
  }

  /** Parsing a label built from two digit strings gives back their
      values, so the label's bounds are exactly the range's bounds. */
  lemma RangeLabelRoundTrip(lo: string, hi: string)
    requires AllDigits(lo) && AllDigits(hi)
    ensures RangeBounds(RangeLabel(lo, hi)) == Some((DigitsValue(lo), DigitsValue(hi)))
  {
    var s := RangeLabel(lo, hi);
    SeparatorAfterDigits(lo, hi);
    assert s[..|lo|] == lo;
    assert s[|lo| + |RangeSeparator|..] == hi;
  }

  // ---------------------------------------------------------------------
  // Listing cards

  /** Amenity chips shown on a listing card before the "+k more" badge. */
  const CardChipLimit := 4

  /** The own keys of the listing's icon table: amenity names exactly as
      the catalog spells them. */
  const CardIconKeys: set<string> := {
    "WiFi", "Swimming Pool", "Air Conditioning", "Restaurant", "Parking",
    "Fitness Center", "Airport Shuttle"
  }

  /** `amenityIcons[amenity] || GiFamilyHouse`: the name itself is the key,
      with no case or space folding; `Missing` is the house icon. */
  function CardIcon(amenity: string): (r: Property)
    ensures r.Own? <==> amenity in CardIconKeys
    ensures r.Inherited? <==> amenity in ObjectPrototypeMembers
    ensures !r.Missing? ==> r.key == amenity
  {
    assert forall k :: k in CardIconKeys ==> k !in ObjectPrototypeMembers;
    PropertyLookup(CardIconKeys, amenity)
  }

  /** A card shows the first four amenities, and the "+k more" badge
      exactly when there are more, k counting the rest. */
  lemma CardChipsAccountForAll(room: Room)
    ensures Preview(room.amenities, CardChipLimit) == room.amenities[..Min(CardChipLimit, |room.amenities|)]
    ensures MoreBadge(room.amenities, CardChipLimit).Some? <==> |room.amenities| > CardChipLimit
    ensures MoreBadge(room.amenities, CardChipLimit).Some? ==>
      MoreBadge(room.amenities, CardChipLimit).value == |room.amenities| - CardChipLimit
  {
  }

  /** The lookup is exact: "WiFi" finds its icon, "wifi" and "Wi Fi" get
      the house icon, and "toString" finds an inherited member. */
  lemma CardIconIsExact()
    ensures CardIcon("WiFi") == Own("WiFi")
    ensures CardIcon("wifi") == Missing && CardIcon("Wi Fi") == Missing
    ensures CardIcon("toString") == Inherited("toString")
  {
  }

  // ---------------------------------------------------------------------
  // Worked cases

  /** The four price labels parse to their two inclusive bounds. */
  lemma PriceLabelUpTo500()
    ensures RangeBounds("0 to 500") == Some((0, 500))
  {
    assert RangeLabel("0", "500") == "0 to 500";
    assert DigitsValue("0") == 0 && DigitsValue("500") == 500;
    RangeLabelRoundTrip("0", "500");
  }

  lemma PriceLabelUpTo1000()
    ensures RangeBounds("500 to 1000") == Some((500, 1000))
  {
    assert RangeLabel("500", "1000") == "500 to 1000";
    assert DigitsValue("500") == 500 && DigitsValue("1000") == 1000;
    RangeLabelRoundTrip("500", "1000");
  }

  lemma PriceLabelUpTo2000()
    ensures RangeBounds("1000 to 2000") == Some((1000, 2000))
  {
    assert RangeLabel("1000", "2000") == "1000 to 2000";
    assert DigitsValue("1000") == 1000 && DigitsValue("2000") == 2000;
    RangeLabelRoundTrip("1000", "2000");
  }

  lemma PriceLabelUpTo3000()
    ensures RangeBounds("2000 to 3000") == Some((2000, 3000))
  {
    assert RangeLabel("2000", "3000") == "2000 to 3000";
    assert DigitsValue("2000") == 2000 && DigitsValue("3000") == 3000;
    RangeLabelRoundTrip("2000", "3000");
  }

  /** A room priced exactly at a shared boundary passes both adjacent
      ranges, because both ends are inclusive. */
  lemma SharedBoundaryMatchesBoth(room: Room)
    requires room.pricePerNight == 500
    ensures PriceMatches(room, "0 to 500") && PriceMatches(room, "500 to 1000")
    ensures !PriceMatches(room, "1000 to 2000")
  {
    PriceLabelUpTo500();
    PriceLabelUpTo1000();
    PriceLabelUpTo2000();
  }

  /** A type label matches any room type that begins with it up to
      letter case ("Deluxe" selects a "Deluxe Suite") ... */
  lemma TypeLabelSelectsLongerType(room: Room, tag: string)
    requires room.roomType.Some? && StartsWith(Lower(room.roomType.value), Lower(tag))
    ensures TypeMatches(room, [tag])
  {
    assert tag in [tag];
  }

  /** ... and no room type shorter than it or of its length that differs
      from it after case folding ("Deluxe" does not select a "Single"). */
  lemma TypeLabelRejectsOtherType(room: Room, tag: string)
    requires room.roomType.Some? && |tag| >= |room.roomType.value|
    requires Lower(room.roomType.value) != Lower(tag)
    ensures !TypeMatches(room, [tag])
  {
    ContainsNoShorter(Lower(room.roomType.value), Lower(tag));
  }

  /** The destination parameter ignores letter case: a city equal to it up
      to case passes ("kathmandu" selects "Kathmandu"). */
  lemma DestinationIgnoresCase(room: Room, destination: string)
    requires CityOf(room).Some? && Lower(CityOf(room).value) == Lower(destination)
    ensures DestinationMatches(room, Some(destination))
  {
    assert StartsWith(Lower(destination), Lower(destination));
  }

  /** A room without a city fails any non-empty destination. */
  lemma NoCityFailsDestination(room: Room, destination: string)
    requires CityOf(room).None? && destination != ""
    ensures !DestinationMatches(room, Some(destination))
  {
  }

  /** A matching first room is kept in front of the filtered rest ... */
  lemma FilterKeepsHead(x: Room, rest: seq<Room>, f: Filters, destination: Option<string>)
    requires Matches(x, f, destination)
    ensures FilterRooms([x] + rest, f, destination) == [x] + FilterRooms(rest, f, destination)
  {
    assert ([x] + rest)[1..] == rest;
  }

  /** ... and a failing one is dropped. */
  lemma FilterDropsHead(x: Room, rest: seq<Room>, f: Filters, destination: Option<string>)
    requires !Matches(x, f, destination)
    ensures FilterRooms([x] + rest, f, destination) == FilterRooms(rest, f, destination)
  {
    assert ([x] + rest)[1..] == rest;
  }

  lemma FilterOfOneKept(r: Room, f: Filters, destination: Option<string>)
    requires Matches(r, f, destination)
    ensures FilterRooms([r], f, destination) == [r]
  {
    var none: seq<Room> := [];
    FilterKeepsHead(r, none, f, destination);
    assert [r] + none == [r];
  }

  lemma FilterOfTwoDropsFirst(r2: Room, r3: Room, f: Filters, destination: Option<string>)
    requires !Matches(r2, f, destination) && Matches(r3, f, destination)
    ensures FilterRooms([r2, r3], f, destination) == [r3]
  {
    FilterOfOneKept(r3, f, destination);
    FilterDropsHead(r2, [r3], f, destination);
    assert [r2] + [r3] == [r2, r3];
  }

  lemma FilterOfThree(r1: Room, r2: Room, r3: Room, f: Filters, destination: Option<string>)
    requires Matches(r1, f, destination) && !Matches(r2, f, destination) && Matches(r3, f, destination)
    ensures FilterRooms([r1, r2, r3], f, destination) == [r1, r3]
  {
    FilterOfTwoDropsFirst(r2, r3, f, destination);
    FilterKeepsHead(r1, [r2, r3], f, destination);
    assert [r1] + [r2, r3] == [r1, r2, r3];
    assert [r1] + [r3] == [r1, r3];
  }

  lemma SortOfTwoInOrder(sort: string, a: Room, b: Room)
    requires Compare(sort, a, b) <= 0
    ensures StableSort(sort, [a, b]) == [a, b]
  {
    assert [a, b][1..] == [b];
    assert StableSort(sort, [b]) == [b];
  }

  lemma UpTo500Example(r1: Room, r2: Room, r3: Room, f: Filters, destination: Option<string>)
    requires f == Filters([], "0 to 500", "")
    requires r1.pricePerNight == 400 && r2.pricePerNight == 1500 && r3.pricePerNight == 500
    requires DestinationMatches(r1, destination) && DestinationMatches(r3, destination)
    ensures Matches(r1, f, destination) && !Matches(r2, f, destination) && Matches(r3, f, destination)
  {
    PriceLabelUpTo500();
  }

  /** The worked example: of a 400, a 1500 and a 500 room, the range
      "0 to 500" with "Price Low to High" keeps the 400 and the 500 room,
      cheaper first, when both pass the destination. */
  lemma PriceRangeExample(r1: Room, r2: Room, r3: Room, destination: Option<string>)
    requires r1.pricePerNight == 400 && r2.pricePerNight == 1500 && r3.pricePerNight == 500
    requires DestinationMatches(r1, destination) && DestinationMatches(r3, destination)
    ensures Search([r1, r2, r3], Panel(Filters([], "0 to 500", ""), LowToHigh), destination) == [r1, r3]
  {
    var f := Filters([], "0 to 500", "");
    UpTo500Example(r1, r2, r3, f, destination);
    FilterOfThree(r1, r2, r3, f, destination);
    SortOfTwoInOrder(LowToHigh, r1, r3);
  }
}
