/** The hotel-registration dialog: four fields, a submit that turns the
    user into an owner and closes the dialog when all four are filled, and
    the two ways to close the dialog without registering. */
module HotelReg {
  import opened AppSession

  datatype RegForm = RegForm(name: string, contact: string, address: string, city: string)

  datatype Outcome = Registered | MissingFields

  datatype RegResult = RegResult(session: Session, form: RegForm, outcome: Outcome)

  /** The dialog's fields as first shown. */
  const EmptyForm := RegForm("", "", "", "")

  /** Every field holds a non-empty string. */
  predicate Complete(f: RegForm)
  {
    f.name != "" && f.contact != "" && f.address != "" && f.city != ""
  }

  /** `onSubmitHandler`: with every field filled the user becomes an owner
      and the dialog closes; otherwise nothing changes. The fields are kept
      either way. */
  function Submit(s: Session, f: RegForm): (r: RegResult)
    ensures r.outcome == Registered <==> Complete(f)
    ensures r.form == f
    ensures Complete(f) ==> r.session == s.(isOwner := true, showHotelReg := false)
    ensures !Complete(f) ==> r.session == s
  {
    if Complete(f) then RegResult(s.(isOwner := true, showHotelReg := false), f, Registered)
    else RegResult(s, f, MissingFields)
  }

  /** One empty field is enough to refuse the registration. */
  lemma AnyEmptyFieldRefuses(s: Session, f: RegForm)
    requires f.name == "" || f.contact == "" || f.address == "" || f.city == ""
    ensures Submit(s, f).outcome == MissingFields
    ensures !Submit(s, f).session.isOwner <==> !s.isOwner
  {
  }

  /** The dialog as first shown refuses to register. */
  lemma EmptyFormRefuses(s: Session)
    ensures Submit(s, EmptyForm).session == s
  {
  }

  /** Registering again after a successful registration changes nothing:
      the user is already an owner and the dialog already closed. */
  lemma SubmitIdempotent(s: Session, f: RegForm)
    ensures Submit(Submit(s, f).session, f).session == Submit(s, f).session
  {
  }

  /** The backdrop click and the close icon: the dialog closes, owner status
      and everything else stay. */
  function Close(s: Session): (r: Session)
    ensures !r.showHotelReg
    ensures r.isOwner == s.isOwner
    ensures r.(showHotelReg := s.showHotelReg) == s
  {
    s.(showHotelReg := false)
  }

  /** Each text input replaces its own field only. */
  function SetName(f: RegForm, v: string): (r: RegForm)
    ensures r.name == v && r.(name := f.name) == f
  {
    f.(name := v)
  }

  function SetContact(f: RegForm, v: string): (r: RegForm)
    ensures r.contact == v && r.(contact := f.contact) == f
  {
    f.(contact := v)
  }

  function SetAddress(f: RegForm, v: string): (r: RegForm)
    ensures r.address == v && r.(address := f.address) == f
  {
    f.(address := v)
  }

  function SetCity(f: RegForm, v: string): (r: RegForm)
    ensures r.city == v && r.(city := f.city) == f
  {
    f.(city := v)
  }

  /** Filling all four fields of the empty dialog with non-empty text makes
      the submit register, whatever the order of typing. */
  lemma FilledDialogRegisters(s: Session, name: string, contact: string, address: string, city: string)
    requires name != "" && contact != "" && address != "" && city != ""
    ensures Submit(s, SetCity(SetAddress(SetContact(SetName(EmptyForm, name), contact), address), city)).outcome == Registered
    ensures Submit(s, SetName(SetContact(SetAddress(SetCity(EmptyForm, city), address), contact), name)).outcome == Registered
  {
  }
}
