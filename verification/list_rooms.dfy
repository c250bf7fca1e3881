/** The owner's room list: loading the rooms, flipping a room's
    availability by id while a pending marker disables that room's button,
    the "N Room(s)" count, and the amenity chips with their icon lookup. */
module ListRooms {
  import opened Base
  import opened Text
  import opened Catalog

  /** `rooms`, `loading`, and `toggleLoading` (the id whose toggle is
      pending, if any). */
  datatype OwnerList = OwnerList(rooms: seq<Room>, loading: bool, toggling: Option<string>)

  /** Amenity chips shown per room before the "+k more" badge. */
  const ChipLimit := 5

  /** The page's first state: no rooms, loading, nothing pending. */
  const Initial := OwnerList([], true, None)

  /** `fetchRooms` when it starts: loading is shown, rooms are kept. */
  function FetchStart(s: OwnerList): (r: OwnerList)
    ensures r.loading && r.rooms == s.rooms && r.toggling == s.toggling
  {
    s.(loading := true)
  }

  /** `fetchRooms` when its timer fires: the fixture is shown. */
  function FetchDone(s: OwnerList, fixture: seq<Room>): (r: OwnerList)
    ensures !r.loading && r.rooms == fixture && r.toggling == s.toggling
  {
    s.(rooms := fixture, loading := false)
  }

  /** `rooms.map(room => room._id === id ? {...room, isAvailable: !room.isAvailable} : room)`. */
  function Toggle(rooms: seq<Room>, id: string): (r: seq<Room>)
    ensures |r| == |rooms|
    ensures forall i :: 0 <= i < |rooms| && rooms[i].id == id ==>
      r[i] == rooms[i].(isAvailable := !rooms[i].isAvailable)
    ensures forall i :: 0 <= i < |rooms| && rooms[i].id != id ==> r[i] == rooms[i]
  {
    if |rooms| == 0 then []
    else
      var head := if rooms[0].id == id then rooms[0].(isAvailable := !rooms[0].isAvailable) else rooms[0];
      [head] + Toggle(rooms[1..], id)
  }

  /** Toggling the same id twice restores the list. */
  lemma ToggleTwiceRestores(rooms: seq<Room>, id: string)
    ensures Toggle(Toggle(rooms, id), id) == rooms
  {
    var once := Toggle(rooms, id);
    var twice := Toggle(once, id);
    forall i | 0 <= i < |rooms|
      ensures twice[i] == rooms[i]
    {
      assert once[i].id == rooms[i].id;
    }
  }

  /** Toggling an id no room has changes nothing. */
  lemma ToggleAbsentIsIdentity(rooms: seq<Room>, id: string)
    requires forall i :: 0 <= i < |rooms| ==> rooms[i].id != id
    ensures Toggle(rooms, id) == rooms
  {
  }

  /** Toggling changes availability only: ids, prices and every other
      field of every room stay as they were. */
  lemma ToggleChangesOnlyAvailability(rooms: seq<Room>, id: string)
    ensures forall i :: 0 <= i < |rooms| ==>
      Toggle(rooms, id)[i].(isAvailable := rooms[i].isAvailable) == rooms[i]
    ensures forall i :: 0 <= i < |rooms| ==>
      (Toggle(rooms, id)[i].isAvailable != rooms[i].isAvailable <==> rooms[i].id == id)
  {
  }

  /** A click on a room's toggle: ignored while that room's toggle is
      pending (the button is disabled), otherwise the room is flipped and
      marked pending. */
  function ClickToggle(s: OwnerList, id: string): (r: OwnerList)
    ensures s.toggling == Some(id) ==> r == s
    ensures s.toggling != Some(id) ==> r.rooms == Toggle(s.rooms, id) && r.toggling == Some(id)
    ensures r.loading == s.loading
  {
    if s.toggling == Some(id) then s else s.(rooms := Toggle(s.rooms, id), toggling := Some(id))
  }

  /** The confirmation timer clears the pending marker. */
  function ToggleDone(s: OwnerList): (r: OwnerList)
    ensures r.toggling.None? && r.rooms == s.rooms && r.loading == s.loading
  {
    s.(toggling := None)
  }

  /** A double click before the confirmation does not undo the first
      click; a click after it does. */
  lemma DoubleClickFlipsOnce(s: OwnerList, id: string)
    requires s.toggling.None?
    ensures ClickToggle(ClickToggle(s, id), id).rooms == Toggle(s.rooms, id)
    ensures ClickToggle(ToggleDone(ClickToggle(s, id)), id).rooms == s.rooms
  {
    ToggleTwiceRestores(s.rooms, id);
  }

  /** The word after the room count. */
  function CountLabel(n: nat): (r: string)
    ensures r == "Room" <==> n == 1
    ensures r == "Room" || r == "Rooms"
  {
    if n == 1 then "Room" else "Rooms"
  }

  /** The amenity chips: the first five, and the "+k more" badge exactly
      when there are more than five, counting the rest. */
  lemma AmenityChipsAccountForAll(room: Room)
    ensures |Preview(room.amenities, ChipLimit)| == Min(ChipLimit, |room.amenities|)
    ensures MoreBadge(room.amenities, ChipLimit).Some? <==> |room.amenities| > ChipLimit
    ensures MoreBadge(room.amenities, ChipLimit).Some? ==>
      |Preview(room.amenities, ChipLimit)| + MoreBadge(room.amenities, ChipLimit).value == |room.amenities|
  {
  }

  /** `amenity.toLowerCase().replace(/\s+/g, '')`: the key into the icon
      table. Folding first and stripping after is the same as stripping
      first, and a name without whitespace is only folded. */
  function IconKey(amenity: string): (r: string)
    ensures forall i :: 0 <= i < |r| ==> !IsSpace(r[i]) && !IsUpper(r[i])
    ensures |r| <= |amenity|
    ensures r == Lower(StripSpaces(amenity))
    ensures (forall i :: 0 <= i < |amenity| ==> !IsSpace(amenity[i])) ==> r == Lower(amenity)
  {
    var lowered := Lower(amenity);
    LowerFolds(amenity);
    StripSpacesLowerCommute(amenity);
    if forall i :: 0 <= i < |amenity| ==> !IsSpace(amenity[i]) then
      StripSpacesKeepsClean(amenity);
      StripSpaces(lowered)
    else
      StripSpaces(lowered)
  }

  /** Normalising a key again leaves it unchanged. */
  lemma IconKeyIdempotent(amenity: string)
    ensures IconKey(IconKey(amenity)) == IconKey(amenity)
  {
    var k := IconKey(amenity);
    LowerIs(k, k);
    StripSpacesKeepsClean(k);
  }

  /** The own keys of the icon table. */
  const IconKeys: set<string> := {"wifi", "parking", "breakfast", "ac", "tv", "shower", "bar"}

  /** The members of `Object.prototype` whose names have no capital
      letter, the only ones a folded key can name. */
  const LowerCaseMembers: set<string> := {"constructor", "__proto__"}

  /** Every other member of `Object.prototype` has a capital letter. */
  lemma MixedCaseMembers()
    ensures forall m :: m in ObjectPrototypeMembers && m !in LowerCaseMembers ==> HasUpper(m)
  {
    assert IsUpper("hasOwnProperty"[3]);
    assert IsUpper("isPrototypeOf"[2]);
    assert IsUpper("propertyIsEnumerable"[8]);
    assert IsUpper("toLocaleString"[2]);
    assert IsUpper("toString"[2]);
    assert IsUpper("valueOf"[5]);
    assert IsUpper("__defineGetter__"[8]);
    assert IsUpper("__defineSetter__"[8]);
    assert IsUpper("__lookupGetter__"[8]);
    assert IsUpper("__lookupSetter__"[8]);
  }

  /** A key without capital letters can name only the lower-case members
      of `Object.prototype`. */
  lemma FoldedKeyInheritsLowerCaseOnly(key: string)
    requires forall i :: 0 <= i < |key| ==> !IsUpper(key[i])
    ensures key in ObjectPrototypeMembers ==> key in LowerCaseMembers
  {
    MixedCaseMembers();
  }

  /** The table's keys are all its own: none is an inherited name, and
      the lower-case members are inherited ones. */
  lemma IconKeysNotInherited()
    ensures forall k :: k in IconKeys ==> k !in ObjectPrototypeMembers
    ensures forall k :: k in LowerCaseMembers ==> k in ObjectPrototypeMembers && k !in IconKeys
  {
  }

  /** `amenityIcons[key] || <FaBed />`: `Missing` is the bed icon and
      `Own` the table's icon. A key naming an inherited member finds that
      member, which is truthy, so the bed icon is not used either; the
      folded key can only name `constructor` or `__proto__`. */
  function IconFor(amenity: string): (r: Property)
    ensures r.Own? <==> IconKey(amenity) in IconKeys
    ensures r.Inherited? <==> IconKey(amenity) in LowerCaseMembers
    ensures r.Missing? <==> IconKey(amenity) !in IconKeys && IconKey(amenity) !in LowerCaseMembers
    ensures !r.Missing? ==> r.key == IconKey(amenity)
  {
    var key := IconKey(amenity);
    FoldedKeyInheritsLowerCaseOnly(key);
    IconKeysNotInherited();
    PropertyLookup(IconKeys, key)
  }

  /** "Free WiFi" folds to "freewifi" ... */
  lemma FreeWiFiKey(name: string)
    requires name == "Free WiFi"
    ensures IconKey(name) == "freewifi"
  {
    TwoWordKey(name, "Free", "WiFi");
    LowerIs("FreeWiFi", "freewifi");
  }

  /** ... which the table lacks, so the chip gets the bed icon. */
  lemma FreeWiFiGetsBedIcon(name: string)
    requires name == "Free WiFi"
    ensures IconFor(name) == Missing
  {
    FreeWiFiKey(name);
  }

  /** Stripping a name made of two space-free words around one space
      joins the words. */
  lemma SplitAtSpace(name: string, first: string, second: string)
    requires name == first + " " + second
    requires forall i :: 0 <= i < |first| ==> !IsSpace(first[i])
    requires forall i :: 0 <= i < |second| ==> !IsSpace(second[i])
    ensures StripSpaces(name) == first + second
  {
    var tail := " " + second;
    assert name == first + tail;
    StripSpacesAppend(first, tail);
    StripSpacesKeepsClean(first);
    assert StripSpaces(tail) == second by {
      StripSpacesAppend(" ", second);
      StripSpacesKeepsClean(second);
      assert IsSpace(' ');
    }
  }

  /** The key of such a name is its two words joined and folded. */
  lemma TwoWordKey(name: string, first: string, second: string)
    requires name == first + " " + second
    requires forall i :: 0 <= i < |first| ==> !IsSpace(first[i])
    requires forall i :: 0 <= i < |second| ==> !IsSpace(second[i])
    ensures IconKey(name) == Lower(first + second)
  {
    SplitAtSpace(name, first, second);
  }

  /** "Wi Fi" and "WIFI" both find the Wi-Fi icon. */
  lemma SpacedAndCapitalWiFiFindIcon(spaced: string, capital: string)
    requires spaced == "Wi Fi" && capital == "WIFI"
    ensures IconFor(spaced) == Own("wifi")
    ensures IconFor(capital) == Own("wifi")
  {
    assert IconKey(spaced) == "wifi" by {
      TwoWordKey(spaced, "Wi", "Fi");
      LowerIs("WiFi", "wifi");
    }
    assert IconKey(capital) == "wifi" by {
      assert forall i :: 0 <= i < |capital| ==> !IsSpace(capital[i]);
      assert Lower(capital) == "wifi" by {
        LowerIs(capital, "wifi");
      }
    }
  }

  /** "Constructor" folds onto the inherited `constructor` member. */
  lemma ConstructorFindsInheritedMember(name: string)
    requires name == "Constructor"
    ensures IconFor(name) == Inherited("constructor")
  {
    assert IconKey(name) == "constructor" by {
      assert forall i :: 0 <= i < |name| ==> !IsSpace(name[i]);
      assert Lower(name) == "constructor" by {
        LowerIs(name, "constructor");
      }
    }
  }

  /** Amenity names that differ only in letter case or in spacing share
      a key, and so an icon. */
  lemma IconKeyIgnoresCaseAndSpacing(amenity: string)
    ensures IconKey(Lower(amenity)) == IconKey(amenity)
    ensures IconKey(StripSpaces(amenity)) == IconKey(amenity)
    ensures IconFor(Lower(amenity)) == IconFor(amenity)
  {
    LowerIdempotent(amenity);
    var stripped := StripSpaces(amenity);
    StripSpacesLowerCommute(stripped);
    StripSpacesKeepsClean(stripped);
    StripSpacesLowerCommute(amenity);
  }
}
