/** The application-wide state shared through the context provider: owner
    status, the hotel-registration dialog flag, the searched destinations
    and the room catalog, with the transitions the provider performs. The
    current path and the fixture catalog are parameters. */
module AppSession {
  import opened Text
  import opened Catalog
  import SearchHistory

  datatype Session = Session(
    isOwner: bool,
    showHotelReg: bool,
    searchedCities: seq<string>,
    rooms: seq<Room>
  )

  /** The demo history the provider starts with. */
  const DefaultCities: seq<string> := ["Kathmandu", "Pokhara"]

  /** Paths under this prefix belong to the owner dashboard. */
  const OwnerPrefix := "/owner"

  /** The provider's initial state, with `fixture` for the bundled rooms. */
  function Initial(fixture: seq<Room>): (r: Session)
    ensures !r.isOwner && !r.showHotelReg
    ensures r.searchedCities == DefaultCities
    ensures r.rooms == fixture
  {
    Session(false, false, DefaultCities, fixture)
  }

  /** The starting history is already within the history's capacity. */
  lemma InitialHistoryWithinCapacity(fixture: seq<Room>)
    ensures |Initial(fixture).searchedCities| == 2 <= SearchHistory.Capacity
  {
  }

  /** The route listener: an owner path makes the user an owner; any other
      path changes nothing. */
  function OnRouteChange(s: Session, path: string): (r: Session)
    ensures StartsWith(path, OwnerPrefix) ==> r == s.(isOwner := true)
    ensures !StartsWith(path, OwnerPrefix) ==> r == s
  {
    if StartsWith(path, OwnerPrefix) then s.(isOwner := true) else s
  }

  /** The route listener never takes owner status away. */
  lemma RouteNeverRevokesOwner(s: Session, path: string)
    requires s.isOwner
    ensures OnRouteChange(s, path).isOwner
  {
  }

  /** `fetchUser`: owner status becomes exactly "the path is an owner
      path", and the searched destinations are emptied. */
  function FetchUser(s: Session, path: string): (r: Session)
    ensures r.isOwner <==> StartsWith(path, OwnerPrefix)
    ensures r.searchedCities == []
    ensures r.showHotelReg == s.showHotelReg && r.rooms == s.rooms
  {
    s.(isOwner := StartsWith(path, OwnerPrefix), searchedCities := [])
  }

  /** Unlike the route listener, `fetchUser` revokes owner status off the
      owner paths. */
  lemma FetchUserRevokesOffOwnerPaths(s: Session, path: string)
    requires s.isOwner && !StartsWith(path, OwnerPrefix)
    ensures !FetchUser(s, path).isOwner
    ensures OnRouteChange(s, path).isOwner
  {
  }

  /** The sign-in listener runs `fetchUser` only when a user is present. */
  function OnUserChange(s: Session, signedIn: bool, path: string): (r: Session)
    ensures signedIn ==> r == FetchUser(s, path)
    ensures !signedIn ==> r == s
  {
    if signedIn then FetchUser(s, path) else s
  }

  /** `fetchRooms`: the catalog becomes the fixture, nothing else changes. */
  function FetchRooms(s: Session, fixture: seq<Room>): (r: Session)
    ensures r.rooms == fixture
    ensures r.(rooms := s.rooms) == s
  {
    s.(rooms := fixture)
  }

  lemma FetchRoomsIdempotent(s: Session, fixture: seq<Room>)
    ensures FetchRooms(FetchRooms(s, fixture), fixture) == FetchRooms(s, fixture)
  {
  }

  /** The hero search box records the destination in the shared history. */
  function RecordSearch(s: Session, destination: string): (r: Session)
    ensures r.searchedCities == SearchHistory.Push(s.searchedCities, destination)
    ensures r.(searchedCities := s.searchedCities) == s
  {
    s.(searchedCities := SearchHistory.Push(s.searchedCities, destination))
  }

  /** Every state reachable from the initial one by searches, sign-ins,
      route changes and catalog reloads keeps at most three destinations. */
  lemma HistoryStaysBounded(s: Session, destination: string, signedIn: bool, path: string, fixture: seq<Room>)
    requires |s.searchedCities| <= SearchHistory.Capacity
    ensures |RecordSearch(s, destination).searchedCities| <= SearchHistory.Capacity
    ensures |OnUserChange(s, signedIn, path).searchedCities| <= SearchHistory.Capacity
    ensures |OnRouteChange(s, path).searchedCities| <= SearchHistory.Capacity
    ensures |FetchRooms(s, fixture).searchedCities| <= SearchHistory.Capacity
  {
  }
}
