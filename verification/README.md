# YatriGhar booking front end: a Dafny model of its logic

YatriGhar is a hotel-booking web front end for Nepal, written in React.
This project models the logic under its pages as pure state-transition
functions over immutable data, and proves what each transition promises.
The parts modelled are:

- the room listing's search pipeline: room-type, price-range and destination
  filters, followed by a stable sort on the chosen key;
- the filter sidebar's checkbox, radio and "Clear all" transitions;
- the hero search box's three-entry history of searched destinations;
- the "recommended" strip;
- the shared application state: owner status, the registration dialog flag,
  the history and the catalog;
- the owner's room list: availability toggling and the amenity chips with
  their icon lookup;
- the owner's add-room form;
- the room page's lookup and booking flow;
- the hotel-registration dialog;
- the offers section's countdown and background rotation.

Modules, one per component, plus three shared ones:

| module | file | component |
|---|---|---|
| `Base` | base.dfy | `Option`, the "first n" preview and "+k more" badge, subsequence |
| `Text` | text.dfy | ASCII case folding, `includes`, `\s` stripping, string `<`, digit strings |
| `Catalog` | catalog.dfy | room and hotel records |
| `FilterPanel` | filter_panel.dfy | the sidebar state of `AllRooms.jsx` |
| `RoomSearch` | room_search.dfy | `filteredRooms` of `AllRooms.jsx` |
| `SearchHistory` | search_history.dfy | `onSearch` of `Hero.jsx` |
| `AppSession` | app_session.dfy | `AppContext.jsx` |
| `Recommended` | recommended.dfy | `RecommendedHotel.jsx` |
| `ListRooms` | list_rooms.dfy | `hotelOwner/ListRooms.jsx` |
| `AddRooms` | add_rooms.dfy | `hotelOwner/AddRooms.jsx` |
| `RoomDetails` | room_details.dfy | `RoomDetails.jsx` |
| `HotelReg` | hotel_reg.dfy | `HotelReg.jsx` |
| `ExclusiveOffers` | exclusive_offers.dfy | `ExclusiveOffers.jsx` |

`Array.prototype.sort` is stable by section 22.1.3.27 of ECMA-262 (10th
edition, 2019). The sort is therefore modelled as a stable insertion sort.
Its result is characterised independently by three facts: it is a
permutation of its input, it is ordered, and equal keys keep their input
order. Each comparator the page passes is shown to be a difference of keys,
so it is a consistent comparator in that standard's sense.

Some behaviour of the code is easy to misread, and the model keeps it as
written:

- The selected room types are an array in check order. Checking a type
  appends it, and unchecking removes every copy of the label.
- A price-range half that is not a number makes the range match nothing,
  because every comparison with `NaN` is false.
- An unknown sort choice makes the comparator return 0, which keeps catalog
  order.
- The comparators return differences of prices or timestamps, not just
  -1, 0 or 1.
- The sort choice is held in `selectedSort`, apart from the filter
  selection. No control writes the selection's `sortBy` entry.

## Model

| member | source | states |
|---|---|---|
| `Base.Preview` | src/pages/hotelOwner/ListRooms.jsx:131 | `slice(0, n)`: the first `min(n, len)` elements, a prefix of the list |
| `Base.PropertyLookup` | src/pages/hotelOwner/ListRooms.jsx:133 | reading a key of an object literal finds an own property, else a member inherited from `Object.prototype`, else `undefined` |
| `Base.MoreBadge` | src/pages/hotelOwner/ListRooms.jsx:137-138 | the "+k more" badge appears exactly when the list is longer than the limit, and shown plus k is the whole list |
| `Text.Lower` | src/pages/AllRooms.jsx:118 | `toLowerCase` keeps the length and folds each character on its own |
| `Text.LowerIdempotent` | src/pages/AllRooms.jsx:118 | folding twice is folding once |
| `Text.StartsWith` | src/context/AppContext.jsx:23 | `startsWith`: the string's first characters, as many as the prefix has, are the prefix |
| `Text.Contains` | src/pages/AllRooms.jsx:118 | `includes`: the pattern is a prefix of the string or of one of its suffixes |
| `Text.ContainsIffOccurs` | src/pages/AllRooms.jsx:118 | `includes` holds exactly when the pattern occurs at some index |
| `Text.ContainsNoShorter` | src/pages/AllRooms.jsx:118 | a string includes a pattern at least as long as itself only when the two are equal |
| `Text.StripSpaces` | src/pages/hotelOwner/ListRooms.jsx:133 | `replace(/\s+/g, '')` leaves no whitespace and is never longer; a single character is dropped exactly when it is whitespace |
| `Text.StripSpacesAppend` | src/pages/hotelOwner/ListRooms.jsx:133 | stripping a concatenation strips each part and keeps them in order, so with the single-character case every non-space character survives once, in its place |
| `Text.StripSpacesKeepsNonSpaces` | src/pages/hotelOwner/ListRooms.jsx:133 | the characters left are exactly the non-space characters of the input |
| `Text.StripSpacesLowerCommute` | src/pages/hotelOwner/ListRooms.jsx:133 | stripping whitespace and folding case can be done in either order |
| `Text.StripSpacesKeepsClean` | src/pages/hotelOwner/ListRooms.jsx:133 | a string without whitespace is left as it is |
| `Text.LexLess` | src/pages/RoomDetails.jsx:34 | string `<`: the first differing character decides, and a proper prefix comes first |
| `Text.LexLessIrreflexive` | src/pages/RoomDetails.jsx:34 | no date string compares below itself, so equal dates are never rejected |
| `Text.LexLessConcat` | src/pages/RoomDetails.jsx:34 | string `<` on two concatenations with first parts of equal length compares the first parts, then the second parts |
| `Text.DigitsValueBound` | src/pages/AllRooms.jsx:123 | a digit string of width n denotes a number below 10^n |
| `Text.FixedWidthLexIsNumeric` | src/pages/RoomDetails.jsx:34 | for digit strings of one width, string order is numeric order |
| `FilterPanel.RemoveAll` | src/pages/AllRooms.jsx:106 | `filter(item => item !== value)` removes every copy of the value and keeps every other label as often as before |
| `FilterPanel.RemoveAllIsSubsequence` | src/pages/AllRooms.jsx:106 | what remains is in its original order |
| `FilterPanel.RemoveAllAbsent` | src/pages/AllRooms.jsx:106 | removing a label that is not there changes nothing |
| `FilterPanel.RemoveAllAppend` | src/pages/AllRooms.jsx:105-106 | removing a label after appending it is removing it from the original list |
| `FilterPanel.HandleFilterChange` | src/pages/AllRooms.jsx:100-109 | a checkbox change writes only the entry it names |
| `FilterPanel.RoomTypeToggle` | src/pages/AllRooms.jsx:103-106 | checking appends the label and shows it checked; unchecking shows it unchecked and keeps the other labels, their counts and their order |
| `FilterPanel.CheckThenUncheckRestores` | src/pages/AllRooms.jsx:103-106 | checking an unchecked type and unchecking it again restores the selection |
| `FilterPanel.PriceRangeSingleChoice` | src/pages/AllRooms.jsx:107 | a price checkbox sets the range to its label or to none, and leaves the types alone |
| `FilterPanel.SelectSort` | src/pages/AllRooms.jsx:78 | the sort radio sets only `selectedSort` |
| `FilterPanel.ClearFilters` | src/pages/AllRooms.jsx:142-149 | "Clear all" empties every selection and the sort choice |
| `FilterPanel.ClearFiltersIdempotent` | src/pages/AllRooms.jsx:142-149 | clearing twice is clearing once |
| `RoomSearch.TypeMatches` | src/pages/AllRooms.jsx:116-119 | no selected type passes every room; a room without a type fails any selection; otherwise some folded label must be included in the folded type |
| `RoomSearch.TypeClauseIsOccurrence` | src/pages/AllRooms.jsx:118 | one label selects a typed room exactly when the folded label occurs at some index of the folded type |
| `RoomSearch.TypeClauseIsAnyLabel` | src/pages/AllRooms.jsx:117-119 | several labels select exactly the rooms some one of them selects |
| `RoomSearch.FindSeparator` | src/pages/AllRooms.jsx:123 | the index `split` cuts at, with the separator fitting in the string after it |
| `RoomSearch.FindSeparatorFirst` | src/pages/AllRooms.jsx:123 | the split finds the first `" to "`, and none only when there is none |
| `RoomSearch.FirstPart` | src/pages/AllRooms.jsx:123 | `split(" to ")[0]`: a prefix in which no separator starts, the whole string when there is no separator, and followed by the separator when there is one |
| `RoomSearch.SecondPart` | src/pages/AllRooms.jsx:123 | `split(" to ")[1]`: absent exactly when the separator does not occur, and fitting after the first part and the separator |
| `RoomSearch.RangeBounds` | src/pages/AllRooms.jsx:123 | the two parsed bounds are never negative, and a range without " to " has none, since `Number(undefined)` is `NaN` |
| `RoomSearch.PriceMatches` | src/pages/AllRooms.jsx:121-125 | no range passes every room; a range whose bounds do not parse passes none; otherwise the price lies between the bounds, both included |
| `RoomSearch.DestinationMatches` | src/pages/AllRooms.jsx:127-130 | an absent or empty destination passes every room; a room without a city fails any other; otherwise the folded city must include the folded destination |
| `RoomSearch.Matches` | src/pages/AllRooms.jsx:132 | a room is kept when all three clauses pass |
| `RoomSearch.ParseNumber` | src/pages/AllRooms.jsx:123 | `Number("")` is 0, and a number parsed from a price label is never negative |
| `RoomSearch.RangeLabelRoundTrip` | src/pages/AllRooms.jsx:87-92 | parsing a label "lo to hi" made of digit strings gives back the two bounds |
| `RoomSearch.PriceLabelUpTo500` | src/pages/AllRooms.jsx:88 | "0 to 500" parses to the bounds 0 and 500 |
| `RoomSearch.PriceLabelUpTo1000` | src/pages/AllRooms.jsx:89 | "500 to 1000" parses to 500 and 1000 |
| `RoomSearch.PriceLabelUpTo2000` | src/pages/AllRooms.jsx:90 | "1000 to 2000" parses to 1000 and 2000 |
| `RoomSearch.PriceLabelUpTo3000` | src/pages/AllRooms.jsx:91 | "2000 to 3000" parses to 2000 and 3000 |
| `RoomSearch.SharedBoundaryMatchesBoth` | src/pages/AllRooms.jsx:121-125 | a room priced 500 passes both "0 to 500" and "500 to 1000", because both ends are inclusive, and fails "1000 to 2000" |
| `RoomSearch.TypeLabelSelectsLongerType` | src/pages/AllRooms.jsx:116-119 | a type label selects every room type that starts with it up to letter case |
| `RoomSearch.TypeLabelRejectsOtherType` | src/pages/AllRooms.jsx:116-119 | a type label does not select a room type no longer than itself that differs after case folding |
| `RoomSearch.DestinationIgnoresCase` | src/pages/AllRooms.jsx:127-130 | a city equal to the destination up to letter case passes |
| `RoomSearch.NoCityFailsDestination` | src/pages/AllRooms.jsx:127-130 | a room without a city fails any non-empty destination |
| `RoomSearch.FilterRooms` | src/pages/AllRooms.jsx:114-133 | every kept room passes all three clauses |
| `RoomSearch.FilterRoomsCounts` | src/pages/AllRooms.jsx:114-133 | the kept rooms are exactly the matching ones, each as often as in the catalog |
| `RoomSearch.FilterKeepsHead` | src/pages/AllRooms.jsx:132 | a first room that passes is kept in front of the filtered rest |
| `RoomSearch.FilterDropsHead` | src/pages/AllRooms.jsx:132 | a first room that fails is dropped |
| `RoomSearch.FilterRoomsIsSubsequence` | src/pages/AllRooms.jsx:114-133 | the kept rooms are in catalog order |
| `RoomSearch.FilterKeepsAll` | src/pages/AllRooms.jsx:114-133 | a filter every room passes keeps the catalog unchanged |
| `RoomSearch.Compare` | src/pages/AllRooms.jsx:134-139 | the comparator as written: a price difference either way round, a timestamp difference, or 0 |
| `RoomSearch.SortKey` | src/pages/AllRooms.jsx:134-139 | the number each comparator orders by ascending: the price, the negated price, the negated creation time, or 0 |
| `RoomSearch.CompareIsKeyDifference` | src/pages/AllRooms.jsx:134-139 | each comparator is a difference of one numeric key, and so antisymmetric |
| `RoomSearch.Insert` | src/pages/AllRooms.jsx:134 | inserting adds exactly the one room |
| `RoomSearch.StableSort` | src/pages/AllRooms.jsx:134 | the sort is a permutation of its input |
| `RoomSearch.InsertSorted` | src/pages/AllRooms.jsx:134 | inserting into a sorted list keeps it sorted |
| `RoomSearch.StableSortSorted` | src/pages/AllRooms.jsx:134-139 | the sort's output is ordered by the comparator |
| `RoomSearch.InsertWithKey` | src/pages/AllRooms.jsx:134 | inserting puts the new room ahead of the rooms with its key |
| `RoomSearch.StableSortStable` | src/pages/AllRooms.jsx:134-139 | for every key, the rooms with that key leave the sort in the order they entered it |
| `RoomSearch.UnknownSortIsIdentity` | src/pages/AllRooms.jsx:138 | an unrecognised sort choice leaves the order alone |
| `RoomSearch.Search` | src/pages/AllRooms.jsx:111-140 | an empty catalog gives no rooms; the result is never longer than the catalog, and every room in it passes all three clauses |
| `RoomSearch.SearchResult` | src/pages/AllRooms.jsx:111-140 | the result is exactly the matching catalog rooms with their counts, ordered by the comparator, with equal keys in catalog order |
| `RoomSearch.LowToHighOrder` | src/pages/AllRooms.jsx:135 | "Price Low to High" gives non-decreasing prices |
| `RoomSearch.HighToLowOrder` | src/pages/AllRooms.jsx:136 | "Price High to Low" gives non-increasing prices |
| `RoomSearch.NewestFirstOrder` | src/pages/AllRooms.jsx:137 | "Newest First" gives non-increasing creation times |
| `RoomSearch.UnsortedKeepsCatalogOrder` | src/pages/AllRooms.jsx:138 | without a sort choice the result is the filtered catalog in catalog order |
| `RoomSearch.WildcardSearchIsCatalog` | src/pages/AllRooms.jsx:116-138 | no type, no range, no destination and no sort show the whole catalog in order |
| `RoomSearch.ClearedShowsCatalog` | src/pages/AllRooms.jsx:142-149 | after "Clear all", with no destination, the whole catalog is shown |
| `RoomSearch.EmptyCatalogEmptyResult` | src/pages/AllRooms.jsx:112 | an empty catalog gives no rooms |
| `RoomSearch.CardIcon` | src/pages/AllRooms.jsx:152-160 | the listing card's icon lookup uses the amenity name itself as the key: the table's icon for one of its seven names, an inherited member for a name of `Object.prototype`, the house icon otherwise |
| `RoomSearch.CardChipsAccountForAll` | src/pages/AllRooms.jsx:448-464 | a listing card shows the first four amenities, and "+k more" exactly when there are more, k counting the rest |
| `RoomSearch.CardIconIsExact` | src/pages/AllRooms.jsx:449 | "WiFi" finds its icon, while "wifi" and "Wi Fi" get the house icon, and "toString" finds an inherited member |
| `RoomSearch.FilterOfThree` | src/pages/AllRooms.jsx:114-133 | of three rooms where only the middle one fails, the first and the third are kept |
| `RoomSearch.SortOfTwoInOrder` | src/pages/AllRooms.jsx:134-139 | two rooms already in comparator order keep their order |
| `RoomSearch.UpTo500Example` | src/pages/AllRooms.jsx:121-125 | under "0 to 500", prices 400 and 500 pass and 1500 fails |
| `RoomSearch.PriceRangeExample` | src/pages/AllRooms.jsx:111-140 | rooms priced 400, 1500 and 500, filtered by "0 to 500" and sorted low to high, give the 400 and then the 500 room |
| `SearchHistory.Push` | src/components/Hero.jsx:15-19 | the destination is appended; a history that is already full drops its oldest entry; a history within capacity stays within three |
| `SearchHistory.FullHistoryEvictsOldest` | src/components/Hero.jsx:15-19 | in a full history the second and third entries move up and the new one is last |
| `SearchHistory.DuplicatesKept` | src/components/Hero.jsx:16 | searching a city already in a short history adds a second copy |
| `SearchHistory.PushAllKeepsLastThree` | src/components/Hero.jsx:15-19 | after any run of searches the history is the last three of everything searched, oldest first |
| `AppSession.Initial` | src/context/AppContext.jsx:16-19 | the initial state: not an owner, dialog closed, the two demo cities, the fixture rooms |
| `AppSession.InitialHistoryWithinCapacity` | src/context/AppContext.jsx:18 | the two demo cities fit the three-entry history |
| `AppSession.OnRouteChange` | src/context/AppContext.jsx:22-26 | an `/owner` path makes the user an owner; any other path changes nothing |
| `AppSession.RouteNeverRevokesOwner` | src/context/AppContext.jsx:22-26 | the route listener never takes owner status away |
| `AppSession.FetchUser` | src/context/AppContext.jsx:34-44 | owner status becomes "the path starts with /owner", and the history is emptied |
| `AppSession.FetchUserRevokesOffOwnerPaths` | src/context/AppContext.jsx:38-42 | off the owner paths `fetchUser` revokes owner status, where the route listener keeps it |
| `AppSession.OnUserChange` | src/context/AppContext.jsx:46-50 | `fetchUser` runs only when a user is signed in |
| `AppSession.FetchRooms` | src/context/AppContext.jsx:29-32 | reloading sets the catalog to the fixture and changes nothing else |
| `AppSession.FetchRoomsIdempotent` | src/context/AppContext.jsx:29-32 | reloading twice is reloading once |
| `AppSession.RecordSearch` | src/components/Hero.jsx:15-19 | a search updates only the shared history, by `Push` |
| `AppSession.HistoryStaysBounded` | src/context/AppContext.jsx:18-44 | every transition keeps the history within three entries |
| `Recommended.KeepSearched` | src/components/RecommendedHotel.jsx:16-18 | the kept rooms are those whose city is a history entry, each as often as in the catalog |
| `Recommended.KeepSearchedIsSubsequence` | src/components/RecommendedHotel.jsx:16-18 | the kept rooms are in catalog order |
| `Recommended.Recommend` | src/components/RecommendedHotel.jsx:14-23 | no history or no rooms gives nothing; otherwise a room is recommended exactly when it is in the catalog and its city is in the history |
| `Recommended.RecommendIsOrderedSelection` | src/components/RecommendedHotel.jsx:15-19 | the recommendation keeps catalog order and the catalog's count of each recommended room |
| `Recommended.ExactCityMatch` | src/components/RecommendedHotel.jsx:17 | city membership is exact: a city that differs from every entry, even only in letter case, is not recommended |
| `Recommended.Shown` | src/components/RecommendedHotel.jsx:107 | the shown rooms are the first `min(4, n)` of the n recommendations, so one to four are all shown |
| `Recommended.Render` | src/components/RecommendedHotel.jsx:27-125 | nothing is rendered exactly when there is no history; the "no hotels found" note exactly when there is one and nothing is recommended; otherwise one to four cards, the shown rooms |
| `Recommended.EmptyCatalogShowsNote` | src/components/RecommendedHotel.jsx:15-21 | with a history and no rooms, the note is shown |
| `Recommended.FewRecommendationsAllShown` | src/components/RecommendedHotel.jsx:100-109 | one to four recommendations are all shown, in catalog order |
| `ListRooms.FetchStart` | src/pages/hotelOwner/ListRooms.jsx:38-39 | starting a load shows the loader and keeps the rooms |
| `ListRooms.FetchDone` | src/pages/hotelOwner/ListRooms.jsx:40-43 | the finished load shows the fixture and hides the loader |
| `ListRooms.Toggle` | src/pages/hotelOwner/ListRooms.jsx:48-52 | every room with the id has its availability flipped, every other room is unchanged |
| `ListRooms.ToggleTwiceRestores` | src/pages/hotelOwner/ListRooms.jsx:48-52 | toggling an id twice restores the list |
| `ListRooms.ToggleAbsentIsIdentity` | src/pages/hotelOwner/ListRooms.jsx:48-52 | toggling an id no room has changes nothing |
| `ListRooms.ToggleChangesOnlyAvailability` | src/pages/hotelOwner/ListRooms.jsx:50 | a toggle changes no field but availability, and changes it exactly for the id |
| `ListRooms.ClickToggle` | src/pages/hotelOwner/ListRooms.jsx:46-52 | a click while that room's toggle is pending is ignored; otherwise the room flips and becomes pending |
| `ListRooms.ToggleDone` | src/pages/hotelOwner/ListRooms.jsx:54-57 | the confirmation clears the pending marker and keeps the rooms |
| `ListRooms.DoubleClickFlipsOnce` | src/pages/hotelOwner/ListRooms.jsx:46-57 | a second click before the confirmation does nothing; a click after it undoes the first |
| `ListRooms.CountLabel` | src/pages/hotelOwner/ListRooms.jsx:97 | the word is "Room" exactly for one room, "Rooms" otherwise |
| `ListRooms.AmenityChipsAccountForAll` | src/pages/hotelOwner/ListRooms.jsx:131-138 | at most five chips are shown, and the "+k more" badge appears exactly when there are more, k counting the rest |
| `ListRooms.IconKey` | src/pages/hotelOwner/ListRooms.jsx:133 | the icon key is the amenity with its whitespace removed, then folded; it has no whitespace and no capital; a name without whitespace is only folded |
| `ListRooms.IconKeyIdempotent` | src/pages/hotelOwner/ListRooms.jsx:133 | normalising a key again leaves it unchanged |
| `ListRooms.MixedCaseMembers` | src/pages/hotelOwner/ListRooms.jsx:133 | every member of `Object.prototype` but `constructor` and `__proto__` has a capital letter |
| `ListRooms.FoldedKeyInheritsLowerCaseOnly` | src/pages/hotelOwner/ListRooms.jsx:133 | a key without capitals can name only `constructor` or `__proto__` among the inherited members |
| `ListRooms.IconKeysNotInherited` | src/pages/hotelOwner/ListRooms.jsx:28-36 | the table's seven keys are none of the inherited names |
| `ListRooms.IconFor` | src/pages/hotelOwner/ListRooms.jsx:28-36 | a chip gets the table's icon exactly when its key is one of the seven; its key finds an inherited member exactly when it is `constructor` or `__proto__`; it gets the bed icon otherwise |
| `ListRooms.FreeWiFiKey` | src/pages/hotelOwner/ListRooms.jsx:133 | "Free WiFi" keys to "freewifi" |
| `ListRooms.FreeWiFiGetsBedIcon` | src/pages/hotelOwner/ListRooms.jsx:133 | so its chip gets the bed icon |
| `ListRooms.SplitAtSpace` | src/pages/hotelOwner/ListRooms.jsx:133 | two space-free words around one space strip to the words joined |
| `ListRooms.TwoWordKey` | src/pages/hotelOwner/ListRooms.jsx:133 | the key of such a name is the joined words, folded |
| `ListRooms.SpacedAndCapitalWiFiFindIcon` | src/pages/hotelOwner/ListRooms.jsx:133 | "Wi Fi" and "WIFI" both find the Wi-Fi icon |
| `ListRooms.ConstructorFindsInheritedMember` | src/pages/hotelOwner/ListRooms.jsx:133 | "Constructor" folds onto the inherited `constructor` member, so no bed icon is shown |
| `ListRooms.IconKeyIgnoresCaseAndSpacing` | src/pages/hotelOwner/ListRooms.jsx:133 | amenities that differ only in letter case or spacing share a key and an icon |
| `AddRooms.SubmitAsWritten` | src/pages/hotelOwner/AddRooms.jsx:29-61 | the submit with the image check as written: accepted exactly when the type and price are non-empty and no slot is `null`; rejected leaves the form, accepted resets it |
| `AddRooms.EmptiedSlotSlipsThrough` | src/pages/hotelOwner/AddRooms.jsx:35 | a form with a slot emptied by the file picker passes the written check and fails the intended one |
| `AddRooms.Submit` | src/pages/hotelOwner/AddRooms.jsx:29-61 | accepted exactly when the type and price are non-empty and every slot holds a file; a rejected form is untouched; an accepted one resets type, price, the five amenities and the four slots, with loading off |
| `AddRooms.ChecksAgreeWithoutEmptiedSlots` | src/pages/hotelOwner/AddRooms.jsx:35 | the intended check is never more permissive, and agrees with the written one when no slot was emptied |
| `AddRooms.ZeroPriceAccepted` | src/pages/hotelOwner/AddRooms.jsx:34 | the price "0" counts as given |
| `AddRooms.ToggleAmenity` | src/pages/hotelOwner/AddRooms.jsx:208-216 | an amenity switch flips exactly the named amenity and leaves every other field alone |
| `AddRooms.ToggleAmenityTwiceRestores` | src/pages/hotelOwner/AddRooms.jsx:208-216 | switching a listed amenity twice restores the form |
| `AddRooms.ToggleAmenityKeepsNames` | src/pages/hotelOwner/AddRooms.jsx:211-214 | switching keeps the set of amenity names |
| `AddRooms.Upload` | src/pages/hotelOwner/AddRooms.jsx:147-149 | the file input writes only its own slot: the file, or `undefined` when the picker returned none |
| `AddRooms.UploadKeepsSlotKeys` | src/pages/hotelOwner/AddRooms.jsx:15 | the slot keys stay 1 to 4 |
| `AddRooms.FilledFormAccepted` | src/pages/hotelOwner/AddRooms.jsx:29-39 | filling the four slots of the blank form and giving a type and a price makes the submit accept |
| `AddRooms.SetRoomType` | src/pages/hotelOwner/AddRooms.jsx:163-166 | the type select writes only the type |
| `AddRooms.SetPrice` | src/pages/hotelOwner/AddRooms.jsx:184-187 | the price input writes only the price |
| `RoomDetails.CheckAvailability` | src/pages/RoomDetails.jsx:28-50 | a missing date, or a check-in after the check-out, reports an error and changes nothing; otherwise availability becomes the oracle's answer |
| `RoomDetails.CheckChangesOnlyAvailability` | src/pages/RoomDetails.jsx:28-50 | the check touches only availability, and changes it only when the dates passed |
| `RoomDetails.SameDayPasses` | src/pages/RoomDetails.jsx:34 | equal dates pass the order check |
| `RoomDetails.OnSubmit` | src/pages/RoomDetails.jsx:52-65 | while not available the submit runs the check; once available it books and goes to "/my-bookings"; it books exactly when available |
| `RoomDetails.BookingNeedsTwoSubmits` | src/pages/RoomDetails.jsx:52-65 | from "not available", the first submit never books, and the second books exactly when the dates passed and the oracle said yes |
| `RoomDetails.SetCheckIn` | src/pages/RoomDetails.jsx:213 | the check-in input writes only the check-in date |
| `RoomDetails.SetCheckOut` | src/pages/RoomDetails.jsx:228 | the check-out input writes only the check-out date |
| `RoomDetails.DateChangeKeepsAvailability` | src/pages/RoomDetails.jsx:55-60 | changing the dates after the room was found available keeps it available, and the next submit books without checking them |
| `RoomDetails.FindRoom` | src/pages/RoomDetails.jsx:68 | `find` returns the first room with the id, or none when no room has it |
| `RoomDetails.FirstImage` | src/pages/RoomDetails.jsx:70 | `images[0]` is the first image, absent when there are none |
| `RoomDetails.LookupAsWritten` | src/pages/RoomDetails.jsx:67-71 | the effect as written: with a match, the shown room has the id and its first image is the main image; without one, the state is left as it was, whatever room it shows |
| `RoomDetails.StaleRoomShownForUnknownId` | src/pages/RoomDetails.jsx:69-70 | after a known id, an unknown id keeps showing the earlier room under the written effect, and shows no room under the intended one |
| `RoomDetails.Lookup` | src/pages/RoomDetails.jsx:67-77 | a room is shown exactly when one has the id, and it is the first such; its first image is the main image; no match shows "Room not found"; dates and availability are kept |
| `RoomDetails.NotFoundAfterLookup` | src/pages/RoomDetails.jsx:67-77 | under the written effect "Room not found" never comes back once a room is shown; under the intended one it shows exactly for an id no room has |
| `RoomDetails.LookupAgreesOnFirstVisit` | src/pages/RoomDetails.jsx:21-22 | from the page's first state the written and the intended lookup agree |
| `RoomDetails.Thumbnails` | src/pages/RoomDetails.jsx:133 | the thumbnails are the first four images, in order |
| `RoomDetails.SelectImage` | src/pages/RoomDetails.jsx:140 | clicking a thumbnail changes only the main image |
| `RoomDetails.MainImageIsFirstThumbnail` | src/pages/RoomDetails.jsx:133-138 | a found room's main image is its first thumbnail |
| `RoomDetails.TripleOrder` | src/pages/RoomDetails.jsx:34 | year-month-day weighted sums compare like the triples, year first |
| `RoomDetails.IsoParts` | src/pages/RoomDetails.jsx:212 | a `YYYY-MM-DD` date is its year, a dash, its month, a dash and its day |
| `RoomDetails.IsoStringOrderIsCalendarOrder` | src/pages/RoomDetails.jsx:34 | for `YYYY-MM-DD` dates, string order is calendar order |
| `RoomDetails.OrderCheckIsCalendarOrder` | src/pages/RoomDetails.jsx:34-37 | with ISO dates, the check rejects exactly a check-in later in the calendar than the check-out |
| `HotelReg.Submit` | src/components/HotelReg.jsx:20-34 | the user becomes an owner and the dialog closes exactly when all four fields are filled; otherwise nothing changes; the fields are kept either way |
| `HotelReg.AnyEmptyFieldRefuses` | src/components/HotelReg.jsx:24 | one empty field refuses the registration and leaves owner status as it was |
| `HotelReg.EmptyFormRefuses` | src/components/HotelReg.jsx:15-18 | the dialog as first shown does not register |
| `HotelReg.SubmitIdempotent` | src/components/HotelReg.jsx:24-27 | registering again after a registration changes nothing |
| `HotelReg.Close` | src/components/HotelReg.jsx:38 | the backdrop and the close icon close the dialog and keep owner status and everything else |
| `HotelReg.SetName` | src/components/HotelReg.jsx:81-82 | the name input writes only the name |
| `HotelReg.SetContact` | src/components/HotelReg.jsx:100-101 | the contact input writes only the contact |
| `HotelReg.SetAddress` | src/components/HotelReg.jsx:119-120 | the address input writes only the address |
| `HotelReg.SetCity` | src/components/HotelReg.jsx:137-138 | the city select writes only the city |
| `HotelReg.FilledDialogRegisters` | src/components/HotelReg.jsx:24-27 | filling all four fields, in any order, makes the submit register |
| `ExclusiveOffers.Countdown` | src/components/ExclusiveOffers.jsx:29-45 | at or past the deadline the display is zero and the timer stops; otherwise hours are below 24 and minutes and seconds below 60 |
| `ExclusiveOffers.CountdownRecomposes` | src/components/ExclusiveOffers.jsx:39-42 | days, hours, minutes and seconds add back up to the whole seconds left |
| `ExclusiveOffers.CountdownUnits` | src/components/ExclusiveOffers.jsx:39-42 | under a minute only seconds show; a full day or more shows in the days field |
| `ExclusiveOffers.CountdownMonotone` | src/components/ExclusiveOffers.jsx:31-42 | the displayed time never goes up as the deadline approaches |
| `ExclusiveOffers.ExactStepMatchesIntegers` | src/components/ExclusiveOffers.jsx:40-42 | `Math.floor((n / unit) % m)` over exact reals is `(n div unit) mod m` |
| `ExclusiveOffers.CountdownMatchesExactFormulas` | src/components/ExclusiveOffers.jsx:39-42 | the four formulas over exact reals give the integer countdown |
| `ExclusiveOffers.NextBg` | src/components/ExclusiveOffers.jsx:17-22 | the next background index is below three, one more than the last, and wraps to 0 after the third |
| `ExclusiveOffers.RotationPeriod` | src/components/ExclusiveOffers.jsx:11-19 | from a valid index, three ticks come back to it and fewer do not |

## Left out

- Rendering: JSX, styling, animations and icons are presentation only. The
  icon table is modelled by its keys.
- Timers: `setInterval` and `setTimeout` in the countdown, the background
  rotation, and the owner list's load and toggle confirmation. Each tick is
  modelled as one pure step, and the caller decides when a tick happens.
- Randomness: `Math.random() > 0.3` in the booking check is the `oracle`
  parameter.
- Foreign calls:
  - Clerk sign-in is the `signedIn` flag;
  - react-router's location and query string are the `path` and
    `destination` parameters;
  - navigation is the `navigateTo` field of a booking step;
  - toasts are the `Notice` and `Outcome` values;
  - `URL.createObjectURL` and `scrollTo` are not modelled.
- React's hook scheduling and batching: each handler is a function from the
  state before to the state after.
- The fixture catalog and the image assets: the catalog is a parameter.
  `assets.js` is not part of this model.
- `Date`: `createdAt` is an integer timestamp, and the countdown works on
  integer milliseconds. Floating-point rounding is not modelled. The
  countdown's formulas are shown to agree with it over exact reals.
- `toLowerCase` folds ASCII letters only, not the full Unicode case mapping.
- `Number()` is modelled for the empty string and decimal digit strings, the
  forms a price label's halves take. Signs, exponents, fractions and
  surrounding whitespace are not modelled; such a half reads as `NaN`.
- The catalog is always an array. The `rooms?.length` guard for a missing
  catalog is modelled only as the empty-catalog case.
- The destination reaches the page through the query string. URL encoding
  and decoding of it are not modelled.
- The browser's own constraint validation (`required`, `min` and `max` on the
  date and guest inputs) is not modelled. The handlers are modelled as if
  the form could always be submitted.
- The guest count is held by the room page but read by no handler, so it is
  not modelled.
- The owner list's confirmation timer clears the pending marker whatever
  room it was set for. The model's `ToggleDone` does the same.
- `pricePerNight` is a whole number that every room has. JavaScript compares
  numbers, so a fractional price is possible there. A room without a price
  fails every non-empty range, because `undefined >= n` is false. It also
  makes the comparator return `NaN`, which `sort` reads as 0, so the
  comparator is no longer consistent. None of this is modelled.
- Every room has an `amenities` array. The listing's `room.amenities?.`
  guard for a missing array is not modelled.
- An amenity whose key names an inherited member of `Object.prototype` is
  modelled as finding that member, so no fallback icon is shown. What React
  then does with the member is not modelled. The owner list renders it as a
  child, and the listing card uses it as a component.
- Pages with no logic beyond what is modelled here:
  - the dashboard's static data;
  - the footer;
  - the newsletter's timer;
  - the navbar's scroll flag;
  - the featured destinations (a first-four slice and the same rotation);
  - the owner layout, whose one effect sets owner status as the route
    listener does.

## Findings

| source | as written | input that shows it | evidently intended | confidence | as-written member | corrected member |
|---|---|---|---|---|---|---|
| src/pages/hotelOwner/AddRooms.jsx:35 | the image check accepts any slot that is not `null`, including `undefined` | a file picker closed without a file stores `files[0]`, which is `undefined`, in slot 4; with three files, the type "single" and the price "0" the form is accepted, although slot 4 still shows the "Upload" placeholder | every slot holds a file, as the error message "upload images" asks | not executed; medium, since it depends on the browser firing a change event with no file | `AddRooms.EmptiedSlotSlipsThrough` | `AddRooms.Submit` |
| src/pages/RoomDetails.jsx:69-70 | the lookup sets the room only when one matches, and never clears it | the room page is shown for id "a" of a catalog holding only room "a", then the address changes to id "b"; the page keeps its state and still shows room "a" | an id no room has shows "Room not found", as the page's null check intends | not executed; medium, since it depends on the router keeping the page mounted across id changes | `RoomDetails.StaleRoomShownForUnknownId` | `RoomDetails.Lookup` |
