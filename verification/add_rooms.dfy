/** The owner's "add room" form: four image slots, the room type, the
    nightly price, five amenity switches, and the submit check that either
    rejects the form untouched or accepts it and resets it. The file picker
    is a parameter: what it hands back, if anything. */
module AddRooms {
  import opened Base

  /** An image slot: never filled (`null`), emptied by a file picker that
      returned no file (`undefined`), or holding a file. */
  datatype Slot = Null | Undefined | File(name: string)

  datatype Inputs = Inputs(roomType: string, pricePerNight: string, amenities: map<string, bool>)

  datatype Form = Form(images: map<int, Slot>, inputs: Inputs, loading: bool)

  datatype Outcome = Rejected | Accepted

  datatype SubmitResult = SubmitResult(form: Form, outcome: Outcome)

  /** The slot keys 1 to 4. */
  const SlotKeys: set<int> := {1, 2, 3, 4}

  const AmenityNames: set<string> := {"Free WiFi", "Free Breakfast", "Room Service", "Mountain View", "Pool Access"}

  /** All five amenities switched off. */
  const NoAmenities: map<string, bool> := map a | a in AmenityNames :: false

  /** Four empty slots. */
  const NoImages: map<int, Slot> := map k | k in SlotKeys :: Null

  /** The form as first shown and as reset after a successful submit. */
  const Blank := Form(NoImages, Inputs("", "", NoAmenities), false)

  // ---------------------------------------------------------------------
  // Submit

  /** The image check as the form writes it: every slot is `!== null`. */
  predicate NoNullSlot(images: map<int, Slot>)
  {
    forall k :: k in images ==> images[k] != Null
  }

  /** The image check the error message asks for: every slot holds a file. */
  predicate AllUploaded(images: map<int, Slot>)
  {
    forall k :: k in images ==> images[k].File?
  }

  /** The submit handler with the image check as written. */
  function SubmitAsWritten(f: Form): (r: SubmitResult)
    ensures r.outcome == Accepted <==>
      f.inputs.roomType != "" && f.inputs.pricePerNight != "" && NoNullSlot(f.images)
    ensures r.outcome == Rejected ==> r.form == f
    ensures r.outcome == Accepted ==> r.form == Blank
  {
    if f.inputs.roomType == "" || f.inputs.pricePerNight == "" || !NoNullSlot(f.images) then
      SubmitResult(f, Rejected)
    else
      SubmitResult(Blank, Accepted)
  }

  /** The submit handler with the image check the form evidently intends:
      a rejected form is returned untouched (loading was never set); an
      accepted one is reset to the blank form, loading off again. */
  function Submit(f: Form): (r: SubmitResult)
    ensures r.outcome == Accepted <==>
      f.inputs.roomType != "" && f.inputs.pricePerNight != "" && AllUploaded(f.images)
    ensures r.outcome == Rejected ==> r.form == f
    ensures r.outcome == Accepted ==> r.form.inputs.roomType == "" && r.form.inputs.pricePerNight == ""
    ensures r.outcome == Accepted ==> forall a :: a in AmenityNames ==> a in r.form.inputs.amenities && !r.form.inputs.amenities[a]
    ensures r.outcome == Accepted ==> r.form.images.Keys == SlotKeys && forall k :: k in SlotKeys ==> r.form.images[k] == Null
    ensures r.outcome == Accepted ==> !r.form.loading
  {
    if f.inputs.roomType == "" || f.inputs.pricePerNight == "" || !AllUploaded(f.images) then
      SubmitResult(f, Rejected)
    else
      SubmitResult(Blank, Accepted)
  }

  /** A slot whose picker returned no file passes the written check: a form
      with type, price, three files and one emptied slot is accepted,
      although that slot shows the "Upload" placeholder. The intended check
      rejects it. */
  lemma EmptiedSlotSlipsThrough()
    ensures var f := Form(map[1 := File("a"), 2 := File("b"), 3 := File("c"), 4 := Undefined],
                          Inputs("single", "0", NoAmenities), false);
            SubmitAsWritten(f).outcome == Accepted && Submit(f).outcome == Rejected
  {
    var images := map[1 := File("a"), 2 := File("b"), 3 := File("c"), 4 := Undefined];
    assert images[4] == Undefined;
    assert NoNullSlot(images);
    assert !AllUploaded(images);
  }

  /** The two checks agree on every form whose slots were never emptied by
      a cancelled picker, and the intended one is never more permissive. */
  lemma ChecksAgreeWithoutEmptiedSlots(f: Form)
    ensures Submit(f).outcome == Accepted ==> SubmitAsWritten(f).outcome == Accepted
    ensures (forall k :: k in f.images ==> f.images[k] != Undefined) ==>
      Submit(f).outcome == SubmitAsWritten(f).outcome
  {
  }

  /** The price is checked as text: "0" is a price, only "" is missing. */
  lemma ZeroPriceAccepted(f: Form)
    requires f.inputs.roomType != "" && f.inputs.pricePerNight == "0" && AllUploaded(f.images)
    ensures Submit(f).outcome == Accepted
  {
  }

  // ---------------------------------------------------------------------
  // Field updates

  /** The amenity switch: `!inputs.amenities[name]`, where a name not in
      the table reads as `undefined` and so is switched on. */
  function ToggleAmenity(f: Form, name: string): (r: Form)
    ensures r.images == f.images && r.loading == f.loading
    ensures r.inputs.roomType == f.inputs.roomType && r.inputs.pricePerNight == f.inputs.pricePerNight
    ensures name in r.inputs.amenities
    ensures name in f.inputs.amenities ==> r.inputs.amenities[name] == !f.inputs.amenities[name]
    ensures forall a :: a != name ==> (a in r.inputs.amenities <==> a in f.inputs.amenities)
    ensures forall a :: a != name && a in f.inputs.amenities ==> r.inputs.amenities[a] == f.inputs.amenities[a]
  {
    var was := if name in f.inputs.amenities then f.inputs.amenities[name] else false;
    f.(inputs := f.inputs.(amenities := f.inputs.amenities[name := !was]))
  }

  /** Switching a listed amenity twice restores the form. */
  lemma ToggleAmenityTwiceRestores(f: Form, name: string)
    requires name in f.inputs.amenities
    ensures ToggleAmenity(ToggleAmenity(f, name), name) == f
  {
    var twice := ToggleAmenity(ToggleAmenity(f, name), name);
    assert twice.inputs.amenities == f.inputs.amenities;
  }

  /** Switching keeps the set of amenity names when the name is listed. */
  lemma ToggleAmenityKeepsNames(f: Form, name: string)
    requires name in f.inputs.amenities
    ensures ToggleAmenity(f, name).inputs.amenities.Keys == f.inputs.amenities.Keys
  {
  }

  /** The file input of slot `key`: `files[0]`, or `undefined` when the
      picker returned no file. */
  function Upload(f: Form, key: int, file: Option<string>): (r: Form)
    ensures r.inputs == f.inputs && r.loading == f.loading
    ensures key in r.images && r.images[key] == (if file.Some? then File(file.value) else Undefined)
    ensures forall k :: k != key ==> (k in r.images <==> k in f.images)
    ensures forall k :: k != key && k in f.images ==> r.images[k] == f.images[k]
  {
    f.(images := f.images[key := if file.Some? then File(file.value) else Undefined])
  }

  /** Uploading into one of the four slots keeps the slot keys 1 to 4. */
  lemma UploadKeepsSlotKeys(f: Form, key: int, file: Option<string>)
    requires f.images.Keys == SlotKeys && key in SlotKeys
    ensures Upload(f, key, file).images.Keys == SlotKeys
  {
  }

  /** Filling the four slots of the blank form with files, and choosing a
      type and a price, gives a form the submit accepts. */
  lemma FilledFormAccepted(t: string, price: string, a: string, b: string, c: string, d: string)
    requires t != "" && price != ""
    ensures var f := Upload(Upload(Upload(Upload(Blank, 1, Some(a)), 2, Some(b)), 3, Some(c)), 4, Some(d));
            Submit(f.(inputs := f.inputs.(roomType := t, pricePerNight := price))).outcome == Accepted
  {
    var f := Upload(Upload(Upload(Upload(Blank, 1, Some(a)), 2, Some(b)), 3, Some(c)), 4, Some(d));
    assert f.images.Keys == SlotKeys;
    assert AllUploaded(f.images);
  }

  /** The room-type select and the price input replace their field only. */
  function SetRoomType(f: Form, value: string): (r: Form)
    ensures r.inputs.roomType == value
    ensures r.(inputs := r.inputs.(roomType := f.inputs.roomType)) == f
  {
    f.(inputs := f.inputs.(roomType := value))
  }

  function SetPrice(f: Form, value: string): (r: Form)
    ensures r.inputs.pricePerNight == value
    ensures r.(inputs := r.inputs.(pricePerNight := f.inputs.pricePerNight)) == f
  {
    f.(inputs := f.inputs.(pricePerNight := value))
  }
}
