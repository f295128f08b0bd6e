/** The records of the reservation service. Each record is a value; the
    field constraints the records declare are range predicates, and building a
    constrained record goes through a checking function that names every
    field that is out of range, in declaration order, the way the record
    library reports a validation error. Floating-point fields are `real`. */
module ReservationSchemas {
  import opened Wrappers

  /** A geographic location; `country` defaults to "USA". */
  datatype Location = Location(
    latitude: real,
    longitude: real,
    address: string,
    city: string,
    state: string,
    postalCode: string,
    country: string := "USA")

  /** A restaurant; `description` is absent and `acceptsReservations` is true
      unless given. */
  datatype Restaurant = Restaurant(
    id: string,
    name: string,
    cuisine: string,
    priceTier: int,
    rating: real,
    location: Location,
    phone: string,
    description: Option<string> := None,
    acceptsReservations: bool := true)

  /** One bookable time of a day. */
  datatype AvailabilitySlot = AvailabilitySlot(time: string, maxPartySize: int, available: bool)

  /** A booking; `notes` is absent and `status` is "confirmed" unless given. */
  datatype Reservation = Reservation(
    id: string,
    restaurantId: string,
    restaurantName: string,
    dateTime: string,
    partySize: int,
    guestName: string,
    guestPhone: string,
    guestEmail: string,
    confirmationCode: string,
    createdAt: string,
    notes: Option<string> := None,
    status: string := "confirmed")

  const DefaultRefundPolicy := "No charge for cancellations"

  /** What a cancellation hands back; `reason` is absent and the refund policy
      is the default text unless given. */
  datatype CancellationReceipt = CancellationReceipt(
    reservationId: string,
    restaurantName: string,
    originalDateTime: string,
    cancelledAt: string,
    reason: Option<string> := None,
    refundPolicy: string := DefaultRefundPolicy)

  /** A rejected record: its model name and the fields out of range. */
  datatype ValidationError = ValidationError(model: string, fields: seq<string>)

  // ---------------------------------------------------------------- ranges

  predicate TierInRange(tier: int) { 1 <= tier <= 4 }

  predicate RatingInRange(rating: real) { 0.0 <= rating <= 5.0 }

  predicate ValidRestaurant(r: Restaurant) {
    TierInRange(r.priceTier) && RatingInRange(r.rating)
  }

  predicate ValidSlot(s: AvailabilitySlot) {
    s.maxPartySize >= 1
  }

  predicate ValidReservation(r: Reservation) {
    r.partySize >= 1
  }

  /** `name` when `bad` holds, else nothing. */
  function FieldIf(bad: bool, name: string): seq<string> {
    if bad then [name] else []
  }

  // ---------------------------------------------------------------- checked construction

  /** `Restaurant(...)`: accepted exactly when the tier and the rating are in
      range; otherwise the error lists the offending fields in order. */
  function NewRestaurant(
    id: string, name: string, cuisine: string, priceTier: int, rating: real,
    location: Location, phone: string,
    description: Option<string> := None, acceptsReservations: bool := true): (r: Result<Restaurant, ValidationError>)
    ensures r.Success? <==> TierInRange(priceTier) && RatingInRange(rating)
    ensures r.Success? ==> (ValidRestaurant(r.value)
                            && r.value == Restaurant(id, name, cuisine, priceTier, rating, location, phone,
                                                     description, acceptsReservations))
    ensures r.Failure? ==> (r.error.model == "Restaurant"
                            && ("price_tier" in r.error.fields <==> !TierInRange(priceTier))
                            && ("rating" in r.error.fields <==> !RatingInRange(rating)))
  {
    var bad := FieldIf(!TierInRange(priceTier), "price_tier") + FieldIf(!RatingInRange(rating), "rating");
    if bad != [] then Failure(ValidationError("Restaurant", bad))
    else Success(Restaurant(id, name, cuisine, priceTier, rating, location, phone, description, acceptsReservations))
  }

  /** `AvailabilitySlot(...)`: accepted exactly when at least one guest fits. */
  function NewSlot(time: string, maxPartySize: int, available: bool): (r: Result<AvailabilitySlot, ValidationError>)
    ensures r.Success? <==> maxPartySize >= 1
    ensures r.Success? ==> ValidSlot(r.value) && r.value == AvailabilitySlot(time, maxPartySize, available)
    ensures r.Failure? ==> r.error == ValidationError("AvailabilitySlot", ["max_party_size"])
  {
    if maxPartySize < 1 then Failure(ValidationError("AvailabilitySlot", ["max_party_size"]))
    else Success(AvailabilitySlot(time, maxPartySize, available))
  }

  /** `Reservation(...)`: accepted exactly when the party has a guest. */
  function NewReservation(
    id: string, restaurantId: string, restaurantName: string, dateTime: string,
    partySize: int, guestName: string, guestPhone: string, guestEmail: string,
    confirmationCode: string, createdAt: string,
    notes: Option<string> := None, status: string := "confirmed"): (r: Result<Reservation, ValidationError>)
    ensures r.Success? <==> partySize >= 1
    ensures r.Success? ==> (ValidReservation(r.value)
                            && r.value == Reservation(id, restaurantId, restaurantName, dateTime, partySize,
                                                      guestName, guestPhone, guestEmail, confirmationCode,
                                                      createdAt, notes, status))
    ensures r.Failure? ==> r.error == ValidationError("Reservation", ["party_size"])
  {
    if partySize < 1 then Failure(ValidationError("Reservation", ["party_size"]))
    else Success(Reservation(id, restaurantId, restaurantName, dateTime, partySize, guestName, guestPhone,
                             guestEmail, confirmationCode, createdAt, notes, status))
  }

  /** The defaults the records declare. */
  lemma Defaults(lat: real, lon: real, id: string, s: string)
    ensures Location(lat, lon, s, s, s, s).country == "USA"
    ensures var loc := Location(lat, lon, s, s, s, s);
            var r := NewRestaurant(id, s, s, 2, 4.0, loc, s);
            r.Success? && r.value.description == None && r.value.acceptsReservations
    ensures var r := NewReservation(id, id, s, s, 2, s, s, s, s, s);
            r.Success? && r.value.status == "confirmed" && r.value.notes == None
    ensures var c := CancellationReceipt(id, s, s, s);
            c.reason == None && c.refundPolicy == "No charge for cancellations"
  {
  }

  /** A fifth price tier is refused, as is a slot for no guests. */
  lemma RangeExamples(loc: Location)
    ensures NewRestaurant("test_002", "Test", "Italian", 5, 4.5, loc, "555-1234").Failure?
    ensures NewRestaurant("test_001", "Test Restaurant", "Italian", 3, 4.5, loc, "555-1234").Success?
    ensures NewSlot("2025-03-15T19:00:00", 0, true).Failure?
    ensures NewSlot("2025-03-15T19:00:00", 8, true).Success?
  {
  }
}
