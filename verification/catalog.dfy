/** The room records every page reads. Fields the components read through
    optional chaining (`room.roomType?`, `room.hotel?.city?`) are optional
    here, so the "field missing" behaviour of each check can be stated. */
module Catalog {
  import opened Base

  datatype Hotel = Hotel(name: string, address: string, city: Option<string>)

  /** One room: `_id`, `roomType`, `pricePerNight`, `hotel`, `createdAt`
      (as an integer timestamp), `amenities`, `images`, `isAvailable`. */
  datatype Room = Room(
    id: string,
    roomType: Option<string>,
    pricePerNight: int,
    hotel: Option<Hotel>,
    createdAt: int,
    amenities: seq<string>,
    images: seq<string>,
    isAvailable: bool
  )

  /** `room.hotel?.city`: absent when either the hotel or its city is. */
  function CityOf(room: Room): Option<string>
  {
    if room.hotel.Some? then room.hotel.value.city else None
  }
}
