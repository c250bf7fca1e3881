/** The room page: finding the room by id, the gallery's main image and
    thumbnails, and the booking form whose availability check validates the
    two dates before asking the (random, here oracle) availability source,
    and whose submit books once the room has been found available. */
module RoomDetails {
  import opened Base
  import opened Text
  import opened Catalog

  /** The page's state. A date is `None` before its input is first used
      and `""` after it is cleared; both count as missing. */
  datatype Booking = Booking(
    room: Option<Room>,
    mainImage: Option<string>,
    checkIn: Option<string>,
    checkOut: Option<string>,
    isAvailable: bool
  )

  /** What a handler reports: the error and success toasts, and the
      booking confirmation. */
  datatype Notice = MissingDates | CheckInAfterCheckOut | Available | Unavailable | Booked

  /** A handler's effect: the new state, the toast, and where the page
      navigates, if anywhere. */
  datatype Step = Step(state: Booking, notice: Notice, navigateTo: Option<string>)

  /** The page as first rendered: no room, no dates, not available. */
  const Initial := Booking(None, None, None, None, false)

  /** Where a booking leads. */
  const BookingsPath := "/my-bookings"

  /** Thumbnails offered under the main image. */
  const ThumbnailLimit := 4

  /** A date field is filled when it holds a non-empty string. */
  predicate Filled(date: Option<string>)
  {
    date.Some? && date.value != ""
  }

  // ---------------------------------------------------------------------
  // Availability and booking

  /** `checkAvailability`: both dates must be filled and check-in must not
      come after check-out (string order); then availability is whatever
      the oracle says. A rejected check changes nothing. */
  function CheckAvailability(s: Booking, oracle: bool): (r: Step)
    ensures r.navigateTo.None?
    ensures !(Filled(s.checkIn) && Filled(s.checkOut)) ==> r.notice == MissingDates && r.state == s
    ensures Filled(s.checkIn) && Filled(s.checkOut) && LexLess(s.checkOut.value, s.checkIn.value) ==>
      r.notice == CheckInAfterCheckOut && r.state == s
    ensures Filled(s.checkIn) && Filled(s.checkOut) && !LexLess(s.checkOut.value, s.checkIn.value) ==>
      r.state == s.(isAvailable := oracle) && (r.notice == if oracle then Available else Unavailable)
  {
    if !Filled(s.checkIn) || !Filled(s.checkOut) then Step(s, MissingDates, None)
    else if LexLess(s.checkOut.value, s.checkIn.value) then Step(s, CheckInAfterCheckOut, None)
    else Step(s.(isAvailable := oracle), if oracle then Available else Unavailable, None)
  }

  /** The check never touches the room, the image or the dates, and it
      only ever makes the room available when the dates passed. */
  lemma CheckChangesOnlyAvailability(s: Booking, oracle: bool)
    ensures CheckAvailability(s, oracle).state.(isAvailable := s.isAvailable) == s
    ensures CheckAvailability(s, oracle).state.isAvailable != s.isAvailable ==>
      Filled(s.checkIn) && Filled(s.checkOut) && !LexLess(s.checkOut.value, s.checkIn.value)
  {
  }

  /** Equal dates pass the order check: a stay may start and end on the
      same day. */
  lemma SameDayPasses(s: Booking, oracle: bool)
    requires Filled(s.checkIn) && s.checkOut == s.checkIn
    ensures CheckAvailability(s, oracle).state.isAvailable == oracle
  {
    LexLessIrreflexive(s.checkIn.value);
  }

  /** `onSubmitHandler`: while the room is not known to be available the
      submit runs the check; once it is, the submit books and goes to the
      bookings page, without looking at the dates again. */
  function OnSubmit(s: Booking, oracle: bool): (r: Step)
    ensures !s.isAvailable ==> r == CheckAvailability(s, oracle)
    ensures s.isAvailable ==> r.notice == Booked && r.navigateTo == Some(BookingsPath) && r.state == s
    ensures r.notice == Booked <==> s.isAvailable
  {
    if !s.isAvailable then CheckAvailability(s, oracle)
    else Step(s, Booked, Some(BookingsPath))
  }

  /** A booking needs two submits from the first state of the form: one
      that finds the room available, and one that books. */
  lemma BookingNeedsTwoSubmits(s: Booking, oracle: bool)
    requires !s.isAvailable
    ensures OnSubmit(s, oracle).notice != Booked
    ensures OnSubmit(s, oracle).navigateTo.None?
    ensures OnSubmit(OnSubmit(s, oracle).state, oracle).notice == Booked <==>
      Filled(s.checkIn) && Filled(s.checkOut) && !LexLess(s.checkOut.value, s.checkIn.value) && oracle
  {
  }

  /** The date inputs store what they are given and leave availability as
      it was. */
  function SetCheckIn(s: Booking, value: string): (r: Booking)
    ensures r.checkIn == Some(value)
    ensures r.(checkIn := s.checkIn) == s
  {
    s.(checkIn := Some(value))
  }

  function SetCheckOut(s: Booking, value: string): (r: Booking)
    ensures r.checkOut == Some(value)
    ensures r.(checkOut := s.checkOut) == s
  {
    s.(checkOut := Some(value))
  }

  /** Once the room has been found available, changing the dates keeps it
      so: the next submit books with the new dates, even when check-in now
      comes after check-out or a date was cleared. */
  lemma DateChangeKeepsAvailability(s: Booking, checkIn: string, checkOut: string, oracle: bool)
    requires s.isAvailable
    ensures SetCheckOut(SetCheckIn(s, checkIn), checkOut).isAvailable
    ensures OnSubmit(SetCheckOut(SetCheckIn(s, checkIn), checkOut), oracle).notice == Booked
  {
  }

  // ---------------------------------------------------------------------
  // Finding the room

  /** `rooms.find(room => room._id === id)`, as an index. */
  function FindRoom(rooms: seq<Room>, id: string): (r: Option<nat>)
    ensures r.Some? ==> r.value < |rooms| && rooms[r.value].id == id
    ensures r.Some? ==> forall j :: 0 <= j < r.value ==> rooms[j].id != id
    ensures r.None? ==> forall j :: 0 <= j < |rooms| ==> rooms[j].id != id
  {
    if |rooms| == 0 then None
    else if rooms[0].id == id then Some(0)
    else
      var rest := FindRoom(rooms[1..], id);
      if rest.Some? then Some(rest.value + 1) else None
  }

  /** The first image, or nothing when the room has none (`images[0]` is
      then `undefined`). */
  function FirstImage(room: Room): (r: Option<string>)
    ensures r.Some? <==> |room.images| > 0
    ensures r.Some? ==> r.value == room.images[0]
  {
    if |room.images| > 0 then Some(room.images[0]) else None
  }

  /** Whether the "Room not found" message is shown. */
  predicate NotFound(s: Booking)
  {
    s.room.None?
  }

  /** The lookup effect as written: a match becomes the shown room, its
      first image the main image; without a match nothing is set, so a room
      found for an earlier id stays on the page. */
  function LookupAsWritten(s: Booking, rooms: seq<Room>, id: string): (r: Booking)
    ensures (forall j :: 0 <= j < |rooms| ==> rooms[j].id != id) ==> r == s
    ensures (exists j :: 0 <= j < |rooms| && rooms[j].id == id) ==>
      r.room.Some? && r.room.value.id == id && r.room.value in rooms && r.mainImage == FirstImage(r.room.value)
    ensures r.checkIn == s.checkIn && r.checkOut == s.checkOut && r.isAvailable == s.isAvailable
  {
    var found := FindRoom(rooms, id);
    if found.Some? then s.(room := Some(rooms[found.value]), mainImage := FirstImage(rooms[found.value]))
    else s
  }

  /** The page keeps its state when the id in the address changes, so an
      unknown id after a known one still shows the earlier room instead of
      "Room not found". */
  lemma StaleRoomShownForUnknownId()
    ensures var a := Room("a", Some("Single Bed"), 100, None, 0, [], ["a.png"], true);
            var shown := LookupAsWritten(LookupAsWritten(Initial, [a], "a"), [a], "b");
            shown.room == Some(a) && NotFound(Lookup(LookupAsWritten(Initial, [a], "a"), [a], "b"))
  {
    var a := Room("a", Some("Single Bed"), 100, None, 0, [], ["a.png"], true);
    assert FindRoom([a], "a") == Some(0);
    assert [a][1..] == [];
    assert FindRoom([a], "b").None?;
  }

  /** The lookup the "Room not found" message asks for: the shown room is
      the first room with the id, or none when no room has it; the main
      image is that room's first image. Dates and availability are kept. */
  function Lookup(s: Booking, rooms: seq<Room>, id: string): (r: Booking)
    ensures r.room.Some? <==> exists j :: 0 <= j < |rooms| && rooms[j].id == id
    ensures r.room.Some? ==> r.room.value.id == id && r.room.value in rooms
    ensures r.room.Some? ==>
      exists j :: 0 <= j < |rooms| && rooms[j] == r.room.value && (forall k :: 0 <= k < j ==> rooms[k].id != id)
    ensures r.room.Some? ==> r.mainImage == FirstImage(r.room.value)
    ensures r.room.None? ==> r.mainImage.None?
    ensures r.checkIn == s.checkIn && r.checkOut == s.checkOut && r.isAvailable == s.isAvailable
  {
    var found := FindRoom(rooms, id);
    if found.Some? then s.(room := Some(rooms[found.value]), mainImage := FirstImage(rooms[found.value]))
    else s.(room := None, mainImage := None)
  }

  /** Under the written effect, once a room is shown "Room not found" never
      comes back, whatever id follows; under the intended one it comes
      back exactly for an id no room has. */
  lemma NotFoundAfterLookup(s: Booking, rooms: seq<Room>, id: string)
    ensures !NotFound(s) ==> !NotFound(LookupAsWritten(s, rooms, id))
    ensures NotFound(Lookup(s, rooms, id)) <==> forall j :: 0 <= j < |rooms| ==> rooms[j].id != id
  {
  }

  /** On the first state, which is what the page shows for the first id it
      is given, the written lookup and the intended one agree. */
  lemma LookupAgreesOnFirstVisit(rooms: seq<Room>, id: string)
    ensures LookupAsWritten(Initial, rooms, id) == Lookup(Initial, rooms, id)
  {
  }

  /** The thumbnails: the room's first four images. */
  function Thumbnails(room: Room): (r: seq<string>)
    ensures |r| == Min(ThumbnailLimit, |room.images|)
    ensures forall i :: 0 <= i < |r| ==> r[i] == room.images[i]
  {
    Preview(room.images, ThumbnailLimit)
  }

  /** Clicking a thumbnail makes it the main image. */
  function SelectImage(s: Booking, image: string): (r: Booking)
    ensures r.mainImage == Some(image)
    ensures r.(mainImage := s.mainImage) == s
  {
    s.(mainImage := Some(image))
  }

  /** The first image of a found room is both the main image and the first
      thumbnail, so it is the highlighted one. */
  lemma MainImageIsFirstThumbnail(s: Booking, rooms: seq<Room>, id: string)
    requires Lookup(s, rooms, id).room.Some?
    requires |Lookup(s, rooms, id).room.value.images| > 0
    ensures Lookup(s, rooms, id).mainImage == Some(Thumbnails(Lookup(s, rooms, id).room.value)[0])
  {
  }

  // ---------------------------------------------------------------------
  // ISO dates

  /** The `YYYY-MM-DD` form a date input produces. */
  predicate IsoDate(s: string)
  {
    |s| == 10 && s[4] == '-' && s[7] == '-' &&
    AllDigits(s[0..4]) && AllDigits(s[5..7]) && AllDigits(s[8..10])
  }

  /** The calendar position of an ISO date: year, then month, then day. */
  function DateKey(s: string): (r: nat)
    requires IsoDate(s)
  {
    DigitsValue(s[0..4]) * 10000 + DigitsValue(s[5..7]) * 100 + DigitsValue(s[8..10])
  }

  /** Weighted sums with two-digit lower parts compare like the triples
      themselves, most significant part first. */
  lemma TripleOrder(ya: nat, ma: nat, da: nat, yb: nat, mb: nat, db: nat)
    requires ma < 100 && mb < 100 && da < 100 && db < 100
    ensures ya * 10000 + ma * 100 + da < yb * 10000 + mb * 100 + db <==>
      ya < yb || (ya == yb && (ma < mb || (ma == mb && da < db)))
  {
    if ya < yb {
      LeadingDigitDecides(ya, yb, ma * 100 + da, mb * 100 + db, 10000);
    } else if yb < ya {
      LeadingDigitDecides(yb, ya, mb * 100 + db, ma * 100 + da, 10000);
    } else if ma < mb {
      LeadingDigitDecides(ma, mb, da, db, 100);
    } else if mb < ma {
      LeadingDigitDecides(mb, ma, db, da, 100);
    }
  }

  /** An ISO date is its year, a dash, its month, a dash and its day. */
  lemma IsoParts(s: string)
    requires IsoDate(s)
    ensures s == s[0..4] + ("-" + (s[5..7] + ("-" + s[8..10])))
  {
    assert s[4..5] == "-";
    assert s[7..8] == "-";
    assert s == s[0..4] + s[4..5] + s[5..7] + s[7..8] + s[8..10];
  }

  /** Comparing ISO dates as strings, as the check does, is comparing them
      in calendar order. */
  lemma {:induction false} IsoStringOrderIsCalendarOrder(a: string, b: string)
    requires IsoDate(a) && IsoDate(b)
    ensures LexLess(a, b) <==> DateKey(a) < DateKey(b)
  {
    var ya, ma, da := a[0..4], a[5..7], a[8..10];
    var yb, mb, db := b[0..4], b[5..7], b[8..10];
    IsoParts(a);
    IsoParts(b);
    LexLessIrreflexive("-");
    LexLessConcat(ya, "-" + (ma + ("-" + da)), yb, "-" + (mb + ("-" + db)));
    LexLessConcat("-", ma + ("-" + da), "-", mb + ("-" + db));
    LexLessConcat(ma, "-" + da, mb, "-" + db);
    LexLessConcat("-", da, "-", db);
    FixedWidthLexIsNumeric(ya, yb);
    FixedWidthLexIsNumeric(ma, mb);
    FixedWidthLexIsNumeric(da, db);
    DigitsValueBound(ma);
    DigitsValueBound(mb);
    DigitsValueBound(da);
    DigitsValueBound(db);
    assert Pow10(2) == 100;
    TripleOrder(DigitsValue(ya), DigitsValue(ma), DigitsValue(da), DigitsValue(yb), DigitsValue(mb), DigitsValue(db));
  }

  /** With ISO dates the order check rejects exactly a check-in later in
      the calendar than the check-out. */
  lemma OrderCheckIsCalendarOrder(s: Booking, oracle: bool)
    requires s.checkIn.Some? && s.checkOut.Some? && IsoDate(s.checkIn.value) && IsoDate(s.checkOut.value)
    ensures CheckAvailability(s, oracle).notice == CheckInAfterCheckOut <==>
      DateKey(s.checkIn.value) > DateKey(s.checkOut.value)
  {
    IsoStringOrderIsCalendarOrder(s.checkOut.value, s.checkIn.value);
  }
}
