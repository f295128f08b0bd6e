/** The mock reservation provider: a fixed catalog of ten restaurants, a
    deterministic availability generator, and an in-memory ledger of
    reservations keyed by id with a running confirmation counter.

    SHA-256 and the ISO-8601 conversions of `datetime` are not modelled; they
    are the fields of a `Platform` value that every operation receives, so
    every result is a function of its inputs and of those primitives. The
    clock is a parameter: `now` is the ISO text of the current UTC time. */
module MockReservations {
  import opened Wrappers
  import opened Seqs
  import opened Strings
  import opened ReservationSchemas

  // ---------------------------------------------------------------- primitives

  predicate IsHexDigit(c: char) {
    '0' <= c <= '9' || 'a' <= c <= 'f'
  }

  /** What `hexdigest()` of SHA-256 looks like: 64 lower-case hex digits. */
  predicate IsHexDigest(s: string) {
    |s| == 64 && forall i :: 0 <= i < |s| ==> IsHexDigit(s[i])
  }

  type HexDigest = s: string | IsHexDigest(s)
    witness seq(64, i => '0')

  function HexDigitValue(c: char): (d: nat)
    requires IsHexDigit(c)
    ensures d < 16
  {
    if c <= '9' then c as int - '0' as int else c as int - 'a' as int + 10
  }

  /** `int(s, 16)` for a string of hex digits. */
  function HexValue(s: string): nat
    requires forall i :: 0 <= i < |s| ==> IsHexDigit(s[i])
  {
    if s == [] then 0 else HexValue(s[..|s| - 1]) * 16 + HexDigitValue(s[|s| - 1])
  }

  /** A `datetime`; `utcOffset` is the offset in seconds of an aware value. */
  datatype DateTime = DateTime(
    year: int, month: int, day: int,
    hour: int, minute: int, second: int, microsecond: int,
    utcOffset: Option<int>)

  /** The library primitives the provider calls:
      `hashlib.sha256(s.encode()).hexdigest()`, `datetime.fromisoformat`
      (`None` where it raises `ValueError`) and `datetime.isoformat`. */
  datatype Platform = Platform(
    sha256Hex: string -> HexDigest,
    fromIsoFormat: string -> Option<DateTime>,
    isoFormat: DateTime -> string)

  /** The errors the provider raises, all `ValueError`s. */
  datatype ProviderError =
    | RestaurantNotFound(restaurantId: string)
    | InvalidDateTime(dateTime: string)
    | ReservationNotFound(reservationId: string)
    | Invalid(error: ValidationError)

  function ErrorMessage(e: ProviderError): string {
    match e
    case RestaurantNotFound(id) => "Restaurant " + id + " not found"
    case InvalidDateTime(dt) => "Invalid date_time format: " + dt
    case ReservationNotFound(id) => "Reservation " + id + " not found"
    case Invalid(v) => v.model + " validation failed"
  }

  // ---------------------------------------------------------------- catalog

  /** The ten restaurants the provider is built with, in this order. */
  const Catalog: seq<Restaurant> := [
    Restaurant("rest_001", "Trattoria di Mare", "Italian", 3, 4.5,
      Location(42.3656, -71.0534, "123 Hanover St", "Boston", "MA", "02113"),
      "(617) 555-0101", Some("Authentic Italian seafood in the North End")),
    Restaurant("rest_002", "The Steakhouse", "American", 4, 4.7,
      Location(42.3601, -71.0589, "456 Newbury St", "Boston", "MA", "02115"),
      "(617) 555-0102", Some("Premium steaks and fine dining")),
    Restaurant("rest_003", "Sakura Sushi", "Japanese", 2, 4.3,
      Location(42.3505, -71.0759, "789 Commonwealth Ave", "Boston", "MA", "02215"),
      "(617) 555-0103", Some("Fresh sushi and traditional Japanese cuisine")),
    Restaurant("rest_004", "Le Petit Bistro", "French", 3, 4.6,
      Location(42.3581, -71.0636, "321 Beacon St", "Boston", "MA", "02116"),
      "(617) 555-0104", Some("Classic French bistro fare")),
    Restaurant("rest_005", "Taqueria Azteca", "Mexican", 1, 4.1,
      Location(42.3736, -71.1097, "555 Cambridge St", "Boston", "MA", "02134"),
      "(617) 555-0105", Some("Authentic Mexican street food")),
    Restaurant("rest_006", "Golden Dragon", "Chinese", 2, 4.4,
      Location(40.7589, -73.9851, "100 Mott St", "New York", "NY", "10013"),
      "(212) 555-0201", Some("Szechuan and Cantonese specialties")),
    Restaurant("rest_007", "Bella Napoli", "Italian", 2, 4.2,
      Location(40.7614, -73.9776, "250 Mulberry St", "New York", "NY", "10012"),
      "(212) 555-0202", Some("Wood-fired Neapolitan pizza")),
    Restaurant("rest_008", "Spice Route", "Indian", 2, 4.5,
      Location(37.7749, -122.4194, "88 Mission St", "San Francisco", "CA", "94105"),
      "(415) 555-0301", Some("Modern Indian cuisine with California flair")),
    Restaurant("rest_009", "The Garden Café", "Vegetarian", 2, 4.4,
      Location(37.7833, -122.4167, "456 Valencia St", "San Francisco", "CA", "94110"),
      "(415) 555-0302", Some("Farm-to-table vegetarian dining")),
    Restaurant("rest_010", "BBQ Pit Masters", "BBQ", 2, 4.6,
      Location(30.2672, -97.7431, "123 Sixth St", "Austin", "TX", "78701"),
      "(512) 555-0401", Some("Texas-style smoked meats"))
  ]

  function RestaurantId(r: Restaurant): string { r.id }

  /** Every catalog entry passes the record's range checks. */
  lemma CatalogValid()
    ensures forall r :: r in Catalog ==> ValidRestaurant(r)
  {
  }

  /** No two catalog entries share an id. */
  lemma CatalogIdsDistinct()
    ensures DistinctBy(Catalog, RestaurantId)
  {
  }

  /** `next((r for r in restaurants if r.id == restaurant_id), None)`. */
  function FindRestaurant(catalog: seq<Restaurant>, id: string): (r: Option<Restaurant>)
    ensures r.Some? ==> r.value in catalog && r.value.id == id
    ensures r.None? <==> forall x :: x in catalog ==> x.id != id
  {
    if catalog == [] then None
    else if catalog[0].id == id then Some(catalog[0])
    else
      var r := FindRestaurant(catalog[1..], id);
      assert forall x :: x in catalog ==> x == catalog[0] || x in catalog[1..];
      r
  }

  // ---------------------------------------------------------------- search

  /** Python truthiness of an optional string or number filter. */
  predicate GivenText(s: Option<string>) { s.Some? && s.value != [] }

  predicate GivenNumber(n: Option<int>) { n.Some? && n.value != 0 }

  /** The four filters of `search_restaurants`, in the order they are tried. */
  predicate SearchMatches(r: Restaurant, city: string, cuisine: Option<string>,
                          partySize: Option<int>, priceTier: Option<int>)
  {
    && Lower(r.location.city) == Lower(city)
    && (GivenText(cuisine) ==> Lower(r.cuisine) == Lower(cuisine.value))
    && (GivenNumber(priceTier) ==> r.priceTier == priceTier.value)
    && !(GivenNumber(partySize) && partySize.value > 12)
  }

  /** The restaurants of `catalog` that pass every filter, in catalog order. */
  function SearchCatalog(catalog: seq<Restaurant>, city: string, cuisine: Option<string>,
                         partySize: Option<int>, priceTier: Option<int>): (found: seq<Restaurant>)
    ensures |found| <= |catalog|
    ensures forall r :: r in found ==> r in catalog
  {
    Filter(catalog, r => SearchMatches(r, city, cuisine, partySize, priceTier))
  }

  /** A restaurant is found exactly when it is in the catalog and passes
      every filter. */
  lemma SearchExactly(catalog: seq<Restaurant>, city: string, cuisine: Option<string>,
                      partySize: Option<int>, priceTier: Option<int>, r: Restaurant)
    ensures r in SearchCatalog(catalog, city, cuisine, partySize, priceTier)
        <==> r in catalog && SearchMatches(r, city, cuisine, partySize, priceTier)
  {
    FilterMembership(catalog, r => SearchMatches(r, city, cuisine, partySize, priceTier), r);
  }

  /** A party of more than twelve finds nothing. */
  lemma LargePartyFindsNothing(catalog: seq<Restaurant>, city: string, cuisine: Option<string>,
                               n: int, priceTier: Option<int>)
    requires n > 12
    ensures SearchCatalog(catalog, city, cuisine, Some(n), priceTier) == []
  {
    FilterNone(catalog, r => SearchMatches(r, city, cuisine, Some(n), priceTier));
  }

  /** Any other party size, or none, excludes nothing. */
  lemma PartySizeOtherwiseIgnored(catalog: seq<Restaurant>, city: string, cuisine: Option<string>,
                                  partySize: Option<int>, priceTier: Option<int>)
    requires partySize.None? || partySize.value <= 12
    ensures SearchCatalog(catalog, city, cuisine, partySize, priceTier)
         == SearchCatalog(catalog, city, cuisine, None, priceTier)
  {
    FilterCongruent(catalog, r => SearchMatches(r, city, cuisine, partySize, priceTier),
                    r => SearchMatches(r, city, cuisine, None, priceTier));
  }

  /** An empty cuisine and a zero tier are no filter at all. */
  lemma EmptyFiltersIgnored(catalog: seq<Restaurant>, city: string, partySize: Option<int>)
    ensures SearchCatalog(catalog, city, Some(""), partySize, Some(0))
         == SearchCatalog(catalog, city, None, partySize, None)
  {
    FilterCongruent(catalog, r => SearchMatches(r, city, Some(""), partySize, Some(0)),
                    r => SearchMatches(r, city, None, partySize, None));
  }

  /** A city the catalog does not serve finds nothing. */
  lemma NoSuchCity()
    ensures SearchCatalog(Catalog, "NonExistentCity", None, None, None) == []
  {
    var p := r => SearchMatches(r, "NonExistentCity", None, None, None);
    forall r | r in Catalog ensures !p(r) {
      // no catalog city has fifteen letters
      assert |Lower(r.location.city)| != |Lower("NonExistentCity")|;
    }
    FilterNone(Catalog, p);
  }

  lemma BostonNonItalian()
    ensures forall k :: 1 <= k < 5 ==> !SearchMatches(Catalog[k], "Boston", Some("Italian"), None, None)
  {
    assert Lower("Italian") == "italian";
    assert Lower("American")[0] == 'a';
    assert Lower("Japanese")[0] == 'j';
    assert Lower("Mexican")[0] == 'm';
  }

  lemma OutsideBoston()
    ensures forall k :: 5 <= k < 10 ==> Lower(Catalog[k].location.city) != Lower("Boston")
  {
    assert Lower("Boston")[0] == 'b';
    assert Lower("Austin")[0] == 'a';
  }

  /** The only Italian restaurant in Boston is the first one. */
  lemma BostonItalian()
    ensures SearchCatalog(Catalog, "Boston", Some("Italian"), None, None) == [Catalog[0]]
    ensures Catalog[0].name == "Trattoria di Mare"
  {
    var p := r => SearchMatches(r, "Boston", Some("Italian"), None, None);
    assert Lower("Boston") == "boston";
    assert Lower("Italian") == "italian";
    assert p(Catalog[0]);
    BostonNonItalian();
    OutsideBoston();
    FilterOnlyFirst(Catalog, p);
  }

  // ---------------------------------------------------------------- availability

  /** The lunch times, then the dinner times, as (hour, minute). */
  const SlotTimes: seq<(int, int)> := [
    (11, 30), (12, 0), (12, 30), (13, 0), (13, 30),
    (17, 0), (17, 30), (18, 0), (18, 30), (19, 0), (19, 30), (20, 0), (20, 30)
  ]

  /** `base.replace(hour=h, minute=m, second=0, microsecond=0)`. */
  function SlotStart(base: DateTime, t: (int, int)): DateTime {
    base.(hour := t.0, minute := t.1, second := 0, microsecond := 0)
  }

  /** The hash behind a slot: of `f"{restaurant_id}_{slot_time}_{party_size}"`. */
  function SlotHash(p: Platform, restaurantId: string, slotTime: string, partySize: int): nat {
    var digest := p.sha256Hex(restaurantId + "_" + slotTime + "_" + IntToString(partySize));
    HexValue(digest)
  }

  /** Bigger tables at the pricier restaurants. */
  function TableBase(priceTier: int): int {
    if priceTier >= 3 then 8 else 6
  }

  /** One slot of the day for `restaurant`. */
  function MakeSlot(p: Platform, restaurant: Restaurant, start: DateTime, partySize: int): AvailabilitySlot {
    var time := p.isoFormat(start);
    var h := SlotHash(p, restaurant.id, time, partySize);
    var maxParty := TableBase(restaurant.priceTier) + h % 3;
    AvailabilitySlot(time, maxParty, h % 10 < 7 && partySize <= maxParty)
  }

  /** The thirteen slots of the day of `base`, in `SlotTimes` order. */
  function DaySlots(p: Platform, restaurant: Restaurant, base: DateTime, partySize: int): (slots: seq<AvailabilitySlot>)
    ensures |slots| == |SlotTimes|
  {
    seq(|SlotTimes|, k requires 0 <= k < |SlotTimes| => MakeSlot(p, restaurant, SlotStart(base, SlotTimes[k]), partySize))
  }

  /** `check_availability`: the restaurant must exist, then the date must
      parse once every "Z" has become "+00:00". */
  function Availability(p: Platform, catalog: seq<Restaurant>, restaurantId: string,
                        dateTime: string, partySize: int): (r: Result<seq<AvailabilitySlot>, ProviderError>)
    ensures r.Success? ==> FindRestaurant(catalog, restaurantId).Some? && |r.value| == |SlotTimes|
  {
    match FindRestaurant(catalog, restaurantId)
    case None => Failure(RestaurantNotFound(restaurantId))
    case Some(restaurant) =>
      match p.fromIsoFormat(ReplaceAll(dateTime, "Z", "+00:00"))
      case None => Failure(InvalidDateTime(dateTime))
      case Some(base) => Success(DaySlots(p, restaurant, base, partySize))
  }

  /** An unknown restaurant is reported whatever the date text and whatever
      the primitives answer. */
  lemma UnknownRestaurantFirst(p: Platform, q: Platform, catalog: seq<Restaurant>, restaurantId: string,
                               dateTime: string, dateTime': string, partySize: int)
    requires forall x :: x in catalog ==> x.id != restaurantId
    ensures Availability(p, catalog, restaurantId, dateTime, partySize) == Failure(RestaurantNotFound(restaurantId))
    ensures Availability(p, catalog, restaurantId, dateTime, partySize)
         == Availability(q, catalog, restaurantId, dateTime', partySize)
  {
  }

  /** The answer is a list of slots exactly when the restaurant exists and
      the date parses. */
  lemma AvailabilitySucceedsIff(p: Platform, catalog: seq<Restaurant>, restaurantId: string,
                                dateTime: string, partySize: int)
    ensures Availability(p, catalog, restaurantId, dateTime, partySize).Success?
        <==> FindRestaurant(catalog, restaurantId).Some?
             && p.fromIsoFormat(ReplaceAll(dateTime, "Z", "+00:00")).Some?
    ensures Availability(p, catalog, restaurantId, dateTime, partySize) == Failure(InvalidDateTime(dateTime))
        <==> FindRestaurant(catalog, restaurantId).Some?
             && p.fromIsoFormat(ReplaceAll(dateTime, "Z", "+00:00")).None?
  {
  }

  /** Every one of the thirteen slots is at its listed time of the requested
      day; its capacity is the table base plus the hash modulo 3, so between
      6 and 10 and valid for the record; and it is available exactly when the
      hash modulo 10 is below 7 and the party fits. */
  lemma SlotShape(p: Platform, restaurant: Restaurant, base: DateTime, partySize: int, k: int)
    requires 0 <= k < |SlotTimes|
    ensures var s := DaySlots(p, restaurant, base, partySize)[k];
            var h := SlotHash(p, restaurant.id, s.time, partySize);
            && s.time == p.isoFormat(SlotStart(base, SlotTimes[k]))
            && s.maxPartySize == TableBase(restaurant.priceTier) + h % 3
            && 6 <= s.maxPartySize <= 10
            && (restaurant.priceTier >= 3 ==> s.maxPartySize >= 8)
            && ValidSlot(s)
            && (s.available <==> h % 10 < 7 && partySize <= s.maxPartySize)
  {
  }

  /** A slot depends only on the restaurant, the text of its time and the
      party size: two days whose slot times print alike get equal slots. */
  lemma SlotDependsOnSeed(p: Platform, restaurant: Restaurant, base1: DateTime, base2: DateTime,
                          partySize: int, k: int)
    requires 0 <= k < |SlotTimes|
    requires p.isoFormat(SlotStart(base1, SlotTimes[k])) == p.isoFormat(SlotStart(base2, SlotTimes[k]))
    ensures DaySlots(p, restaurant, base1, partySize)[k] == DaySlots(p, restaurant, base2, partySize)[k]
  {
  }

  /** The slot starts keep the date and offset of the request, are at
      whole minutes, and run strictly forward through the day. */
  lemma SlotStartsOrdered(base: DateTime, k: int, m: int)
    requires 0 <= k < m < |SlotTimes|
    ensures var a := SlotStart(base, SlotTimes[k]);
            var b := SlotStart(base, SlotTimes[m]);
            && a.(hour := base.hour, minute := base.minute, second := base.second, microsecond := base.microsecond) == base
            && a.second == 0 && a.microsecond == 0
            && a.hour * 60 + a.minute < b.hour * 60 + b.minute
  {
  }

  // ---------------------------------------------------------------- ledger

  /** The stored reservations, in insertion order: the values of the
      provider's dictionary, which is keyed by reservation id. */
  function ReservationIdOf(r: Reservation): string { r.id }

  function CodeOf(r: Reservation): string { r.confirmationCode }

  /** The position of the entry stored under `id`, or -1. */
  function IndexOf(ledger: seq<Reservation>, id: string): int {
    FirstIndex(ledger, (r: Reservation) => r.id == id)
  }

  /** `reservations.get(id)`. */
  function Lookup(ledger: seq<Reservation>, id: string): (r: Option<Reservation>)
    ensures r.Some? ==> r.value in ledger && r.value.id == id
    ensures r.None? <==> forall x :: x in ledger ==> x.id != id
  {
    var k := IndexOf(ledger, id);
    if k < 0 then None else Some(ledger[k])
  }

  /** `reservations[r.id] = r`: an existing key keeps its place and takes the
      new value; a new key goes to the end. */
  function Put(ledger: seq<Reservation>, r: Reservation): seq<Reservation> {
    var k := IndexOf(ledger, r.id);
    if k < 0 then ledger + [r] else ledger[k := r]
  }

  /** `del reservations[id]`. */
  function Remove(ledger: seq<Reservation>, id: string): seq<Reservation> {
    Filter(ledger, (r: Reservation) => r.id != id)
  }

  /** The text the provider compares to recognise a repeated booking. */
  function DedupKey(email: string, dateTime: string, restaurantId: string): string {
    email + "_" + dateTime + "_" + restaurantId
  }

  function KeyOf(r: Reservation): string {
    DedupKey(r.guestEmail, r.dateTime, r.restaurantId)
  }

  /** Selects the reservations stored under the repeated-booking key `key`. */
  function HasKey(key: string): Reservation -> bool {
    (r: Reservation) => KeyOf(r) == key
  }

  /** `f"RES{n:06d}"`. */
  function ConfirmationCode(n: nat): string {
    "RES" + ZeroPad(NatToDecimal(n), 6)
  }

  /** The counter value a confirmation code was made from, if it is one. */
  function CodeNumber(code: string): Option<nat> {
    if |code| >= 3 && code[..3] == "RES" && AllDigits(code[3..]) then Some(DecimalValue(code[3..]))
    else None
  }

  /** A confirmation code gives back the counter value it was made from. */
  lemma CodeNumberOf(n: nat)
    ensures CodeNumber(ConfirmationCode(n)) == Some(n)
  {
    var d := NatToDecimal(n);
    var c := ConfirmationCode(n);
    assert c[..3] == "RES";
    assert c[3..] == ZeroPad(d, 6);
    ZeroPadValue(d, 6);
    DecimalRoundTrip(n);
  }

  /** Distinct counter values give distinct confirmation codes. */
  lemma ConfirmationCodeInjective(a: nat, b: nat)
    ensures ConfirmationCode(a) == ConfirmationCode(b) ==> a == b
  {
    CodeNumberOf(a);
    CodeNumberOf(b);
  }

  /** The first code handed out, and one past six digits. */
  lemma CodeExamples()
    ensures ConfirmationCode(1000) == "RES001000"
    ensures ConfirmationCode(1234567) == "RES1234567"
  {
    assert NatToDecimal(1000) == "1000";
    assert ZeroPad("1000", 6) == ZeroPad("01000", 6) == ZeroPad("001000", 6) == "001000";
    assert NatToDecimal(1234567) == "1234567";
  }

  /** The arguments of `place_reservation`. */
  datatype PlaceRequest = PlaceRequest(
    restaurantId: string, dateTime: string, partySize: int,
    name: string, phone: string, email: string, notes: Option<string>)

  function RequestKey(req: PlaceRequest): string {
    DedupKey(req.email, req.dateTime, req.restaurantId)
  }

  /** The provider's mutable state: the ledger and the confirmation counter. */
  datatype LedgerState = LedgerState(reservations: seq<Reservation>, counter: nat)

  /** A state after an operation, and what the operation returned or raised. */
  datatype Outcome<T> = Outcome(state: LedgerState, result: Result<T, ProviderError>)

  const FirstCounter: nat := 1000

  function InitialState(): LedgerState {
    LedgerState([], FirstCounter)
  }

  /** The reservation `place_reservation` would build for `req` from counter
      value `n`; `Failure` where the record refuses the party size. */
  function Booking(p: Platform, restaurant: Restaurant, req: PlaceRequest, n: nat, now: string): Result<Reservation, ValidationError> {
    var code := ConfirmationCode(n);
    var id := "reservation_" + p.sha256Hex(code)[..12];
    NewReservation(id, req.restaurantId, restaurant.name, req.dateTime, req.partySize,
                   req.name, req.phone, req.email, code, now, req.notes, "confirmed")
  }

  /** `place_reservation`: an unknown restaurant is refused; a stored
      reservation with the same key is returned as it is; otherwise the
      counter is spent (also when the record then refuses the party size)
      and the new reservation is stored under its id. */
  function Place(p: Platform, catalog: seq<Restaurant>, s: LedgerState, req: PlaceRequest, now: string): (o: Outcome<Reservation>)
    ensures o.result.Failure? ==> o.state.reservations == s.reservations
  {
    match FindRestaurant(catalog, req.restaurantId)
    case None => Outcome(s, Failure(RestaurantNotFound(req.restaurantId)))
    case Some(restaurant) =>
      var dup := FirstIndex(s.reservations, HasKey(RequestKey(req)));
      if dup >= 0 then Outcome(s, Success(s.reservations[dup]))
      else
        var counter := s.counter + 1;
        match Booking(p, restaurant, req, s.counter, now)
        case Failure(e) => Outcome(LedgerState(s.reservations, counter), Failure(Invalid(e)))
        case Success(r) => Outcome(LedgerState(Put(s.reservations, r), counter), Success(r))
  }

  const RefundPolicy := "No charge for cancellations made more than 24 hours in advance"

  /** `cancel_reservation`: an unknown id is refused; otherwise the receipt
      describes the stored reservation and the entry is removed. */
  function Cancel(s: LedgerState, id: string, reason: Option<string>, now: string): (o: Outcome<CancellationReceipt>)
    ensures o.state.counter == s.counter
    ensures o.result.Failure? ==> o.state == s
  {
    match Lookup(s.reservations, id)
    case None => Outcome(s, Failure(ReservationNotFound(id)))
    case Some(r) =>
      Outcome(LedgerState(Remove(s.reservations, id), s.counter),
              Success(CancellationReceipt(id, r.restaurantName, r.dateTime, now, reason, RefundPolicy)))
  }

  /** Whether a reservation belongs to `userId`, by email or by phone. */
  predicate BelongsTo(r: Reservation, userId: string) {
    r.guestEmail == userId || r.guestPhone == userId
  }

  /** `list_reservations`: the user's reservations, in ledger order. */
  function ListFor(ledger: seq<Reservation>, userId: string): (listed: seq<Reservation>)
    ensures forall r :: r in listed ==> r in ledger && BelongsTo(r, userId)
  {
    Filter(ledger, (r: Reservation) => BelongsTo(r, userId))
  }

  // ---------------------------------------------------------------- ledger invariant

  /** A stored reservation as the provider issues it: confirmed, for at least
      one guest, at a catalog restaurant under that restaurant's name, with a
      code made from a counter value already spent. */
  predicate WellIssued(catalog: seq<Restaurant>, r: Reservation, counter: nat) {
    && r.status == "confirmed"
    && ValidReservation(r)
    && CodeNumber(r.confirmationCode).Some?
    && FirstCounter <= CodeNumber(r.confirmationCode).value < counter
    && FindRestaurant(catalog, r.restaurantId).Some?
    && FindRestaurant(catalog, r.restaurantId).value.name == r.restaurantName
  }

  /** What every reachable state satisfies: the counter never drops below its
      start, ids are keys, no two stored reservations share a code, and every
      entry is well issued. */
  predicate LedgerValid(catalog: seq<Restaurant>, s: LedgerState) {
    && s.counter >= FirstCounter
    && DistinctBy(s.reservations, ReservationIdOf)
    && DistinctBy(s.reservations, CodeOf)
    && forall r :: r in s.reservations ==> WellIssued(catalog, r, s.counter)
  }

  lemma InitialValid(catalog: seq<Restaurant>)
    ensures LedgerValid(catalog, InitialState())
  {
  }

  /** `issued` holds the codes the counter has handed out: each was made
      from a smaller counter value, and every stored reservation's code is
      one of them. */
  ghost predicate IssuedCodes(issued: set<string>, s: LedgerState) {
    && (forall c :: c in issued ==> CodeNumber(c).Some? && CodeNumber(c).value < s.counter)
    && (forall r :: r in s.reservations ==> r.confirmationCode in issued)
  }

  /** Taking the counter's code issues a code not issued before. */
  lemma TakeCode(issued: set<string>, s: LedgerState)
    requires IssuedCodes(issued, s)
    ensures ConfirmationCode(s.counter) !in issued
    ensures IssuedCodes(issued + {ConfirmationCode(s.counter)}, LedgerState(s.reservations, s.counter + 1))
  {
    CodeNumberOf(s.counter);
  }

  /** Storing a reservation with an issued code keeps `issued` complete. */
  lemma StoreIssued(issued: set<string>, s: LedgerState, r: Reservation)
    requires IssuedCodes(issued, s) && r.confirmationCode in issued
    ensures IssuedCodes(issued, LedgerState(Put(s.reservations, r), s.counter))
  {
    PutFacts(s.reservations, r);
  }

  /** Removing a reservation keeps `issued` complete. */
  lemma RemoveIssued(issued: set<string>, s: LedgerState, id: string)
    requires IssuedCodes(issued, s)
    ensures IssuedCodes(issued, LedgerState(Remove(s.reservations, id), s.counter))
  {
  }

  /** What a dictionary store does to the values. */
  lemma PutFacts(ledger: seq<Reservation>, r: Reservation)
    ensures r in Put(ledger, r)
    ensures forall x :: x in Put(ledger, r) ==> x == r || x in ledger
    ensures forall x :: x in ledger && x.id != r.id ==> x in Put(ledger, r)
    ensures IndexOf(ledger, r.id) < 0 ==> Put(ledger, r) == ledger + [r]
  {
    var k := IndexOf(ledger, r.id);
    if k >= 0 {
      var l' := ledger[k := r];
      assert l'[k] == r;
      forall x | x in l' ensures x == r || x in ledger {
        var j :| 0 <= j < |l'| && l'[j] == x;
        if j != k { assert ledger[j] == x; }
      }
      forall x | x in ledger && x.id != r.id ensures x in l' {
        var j :| 0 <= j < |ledger| && ledger[j] == x;
        assert j != k;
        assert l'[j] == x;
      }
    } else {
      assert (ledger + [r])[|ledger|] == r;
    }
  }

  /** Storing keeps ids distinct. */
  lemma PutDistinctIds(ledger: seq<Reservation>, r: Reservation)
    requires DistinctBy(ledger, ReservationIdOf)
    ensures DistinctBy(Put(ledger, r), ReservationIdOf)
  {
    var k := IndexOf(ledger, r.id);
    var l' := Put(ledger, r);
    forall i, j | 0 <= i < j < |l'| ensures l'[i].id != l'[j].id {
      if k >= 0 {
        if i != k && j != k { assert l'[i] == ledger[i] && l'[j] == ledger[j]; }
        else if i == k { assert ReservationIdOf(ledger[k]) != ReservationIdOf(ledger[j]); }
        else { assert ReservationIdOf(ledger[i]) != ReservationIdOf(ledger[k]); }
      } else if j == |ledger| {
        assert ledger[i].id != r.id;
      } else {
        assert l'[i] == ledger[i] && l'[j] == ledger[j];
      }
    }
  }

  /** Storing a reservation whose code is new keeps codes distinct. */
  lemma PutDistinctCodes(ledger: seq<Reservation>, r: Reservation)
    requires DistinctBy(ledger, CodeOf)
    requires forall x :: x in ledger ==> x.confirmationCode != r.confirmationCode
    ensures DistinctBy(Put(ledger, r), CodeOf)
  {
    var k := IndexOf(ledger, r.id);
    var l' := Put(ledger, r);
    forall i, j | 0 <= i < j < |l'| ensures l'[i].confirmationCode != l'[j].confirmationCode {
      if k >= 0 {
        if i != k && j != k { assert l'[i] == ledger[i] && l'[j] == ledger[j]; }
        else if i == k { assert l'[j] == ledger[j] && ledger[j] in ledger; }
        else { assert l'[i] == ledger[i] && ledger[i] in ledger; }
      } else if j == |ledger| {
        assert ledger[i] in ledger;
      } else {
        assert l'[i] == ledger[i] && l'[j] == ledger[j];
      }
    }
  }

  /** A well-issued entry stays well issued as the counter grows. */
  lemma WellIssuedLater(catalog: seq<Restaurant>, ledger: seq<Reservation>, counter: nat, counter': nat)
    requires counter <= counter'
    requires forall r :: r in ledger ==> WellIssued(catalog, r, counter)
    ensures forall r :: r in ledger ==> WellIssued(catalog, r, counter')
  {
  }

  /** `place_reservation` keeps the ledger invariant. */
  lemma PlacePreservesValid(p: Platform, catalog: seq<Restaurant>, s: LedgerState, req: PlaceRequest, now: string)
    requires LedgerValid(catalog, s)
    ensures LedgerValid(catalog, Place(p, catalog, s, req, now).state)
  {
    var restaurant := FindRestaurant(catalog, req.restaurantId);
    if restaurant.Some? && FirstIndex(s.reservations, HasKey(RequestKey(req))) < 0 {
      var c := s.counter + 1;
      WellIssuedLater(catalog, s.reservations, s.counter, c);
      var b := Booking(p, restaurant.value, req, s.counter, now);
      if b.Success? {
        var r := b.value;
        CodeNumberOf(s.counter);
        assert WellIssued(catalog, r, c);
        forall x | x in s.reservations ensures x.confirmationCode != r.confirmationCode {
          assert CodeNumber(x.confirmationCode).value < s.counter;
        }
        PutFacts(s.reservations, r);
        PutDistinctIds(s.reservations, r);
        PutDistinctCodes(s.reservations, r);
        assert Place(p, catalog, s, req, now).state == LedgerState(Put(s.reservations, r), c);
      }
    }
  }

  /** An unknown restaurant is refused and nothing changes. */
  lemma PlaceUnknownRestaurant(p: Platform, catalog: seq<Restaurant>, s: LedgerState, req: PlaceRequest, now: string)
    requires forall r :: r in catalog ==> r.id != req.restaurantId
    ensures Place(p, catalog, s, req, now) == Outcome(s, Failure(RestaurantNotFound(req.restaurantId)))
  {
  }

  /** A request whose email, date text and restaurant match a stored
      reservation gets the first such reservation back, unchanged, and the
      state is left as it was: the counter is not spent. */
  lemma PlaceDuplicate(p: Platform, catalog: seq<Restaurant>, s: LedgerState, req: PlaceRequest, now: string, j: int)
    requires FindRestaurant(catalog, req.restaurantId).Some?
    requires 0 <= j < |s.reservations| && KeyOf(s.reservations[j]) == RequestKey(req)
    ensures var o := Place(p, catalog, s, req, now);
            && o.state == s
            && o.result.Success?
            && o.result.value in s.reservations
            && KeyOf(o.result.value) == RequestKey(req)
  {
  }

  /** A new request at a known restaurant with at least one guest is stored
      under a fresh code made from the counter, which moves on by one; the
      reservation carries the request, the restaurant's name and the time. */
  lemma PlaceNew(p: Platform, catalog: seq<Restaurant>, s: LedgerState, req: PlaceRequest, now: string)
    requires FindRestaurant(catalog, req.restaurantId).Some?
    requires forall x :: x in s.reservations ==> KeyOf(x) != RequestKey(req)
    requires req.partySize >= 1
    ensures var o := Place(p, catalog, s, req, now);
            && o.result.Success?
            && o.state.counter == s.counter + 1
            && o.state.reservations == Put(s.reservations, o.result.value)
            && var r := o.result.value;
               && r.confirmationCode == ConfirmationCode(s.counter)
               && r.id == "reservation_" + p.sha256Hex(r.confirmationCode)[..12]
               && r.restaurantName == FindRestaurant(catalog, req.restaurantId).value.name
               && r.restaurantId == req.restaurantId && r.dateTime == req.dateTime
               && r.partySize == req.partySize && r.guestName == req.name
               && r.guestPhone == req.phone && r.guestEmail == req.email
               && r.notes == req.notes && r.status == "confirmed" && r.createdAt == now
  {
  }

  /** A new request for no guests is refused by the record, but only after
      its confirmation code was taken: the counter moves on and the ledger is
      unchanged. */
  lemma PlaceRejectedSpendsCode(p: Platform, catalog: seq<Restaurant>, s: LedgerState, req: PlaceRequest, now: string)
    requires FindRestaurant(catalog, req.restaurantId).Some?
    requires forall x :: x in s.reservations ==> KeyOf(x) != RequestKey(req)
    requires req.partySize < 1
    ensures Place(p, catalog, s, req, now)
         == Outcome(LedgerState(s.reservations, s.counter + 1),
                    Failure(Invalid(ValidationError("Reservation", ["party_size"]))))
  {
  }

  /** The first booking of a fresh provider gets code RES001000 and the
      restaurant's catalog name. */
  lemma FirstBooking(p: Platform, req: PlaceRequest, now: string)
    requires req.restaurantId == "rest_001" && req.partySize >= 1
    ensures var o := Place(p, Catalog, InitialState(), req, now);
            && o.result.Success?
            && o.result.value.confirmationCode == "RES001000"
            && o.result.value.restaurantName == "Trattoria di Mare"
            && o.state == LedgerState([o.result.value], 1001)
  {
    assert FindRestaurant(Catalog, "rest_001") == Some(Catalog[0]);
    CodeExamples();
  }

  /** The counter never goes back, and it moves by at most one per call. */
  lemma PlaceCounter(p: Platform, catalog: seq<Restaurant>, s: LedgerState, req: PlaceRequest, now: string)
    ensures var c := Place(p, catalog, s, req, now).state.counter;
            c == s.counter || c == s.counter + 1
  {
  }

  /** A reservation made now has a code no reservation ever had before: its
      number is the counter, and every code issued earlier came from a
      smaller counter value, whether or not it has since been cancelled. */
  lemma NewCodeIsFresh(p: Platform, catalog: seq<Restaurant>, s: LedgerState, req: PlaceRequest, now: string)
    requires Place(p, catalog, s, req, now).state.counter == s.counter + 1
    requires Place(p, catalog, s, req, now).result.Success?
    ensures CodeNumber(Place(p, catalog, s, req, now).result.value.confirmationCode) == Some(s.counter)
    ensures forall m: nat :: m < s.counter ==>
              Place(p, catalog, s, req, now).result.value.confirmationCode != ConfirmationCode(m)
    ensures LedgerValid(catalog, s) ==>
              forall x :: x in s.reservations ==>
                x.confirmationCode != Place(p, catalog, s, req, now).result.value.confirmationCode
  {
    CodeNumberOf(s.counter);
    var code := Place(p, catalog, s, req, now).result.value.confirmationCode;
    forall m: nat | m < s.counter ensures code != ConfirmationCode(m) {
      ConfirmationCodeInjective(m, s.counter);
    }
  }

  /** Idempotency: repeating a request that was served — with the same email,
      date text and restaurant, whatever the other fields and the time — gets
      the same reservation back and changes nothing. */
  lemma PlaceIdempotent(p: Platform, catalog: seq<Restaurant>, s: LedgerState, req: PlaceRequest, req': PlaceRequest,
                        now: string, now': string)
    requires Place(p, catalog, s, req, now).result.Success?
    requires req'.email == req.email && req'.dateTime == req.dateTime && req'.restaurantId == req.restaurantId
    ensures var o := Place(p, catalog, s, req, now);
            Place(p, catalog, o.state, req', now') == Outcome(o.state, o.result)
  {
    var o := Place(p, catalog, s, req, now);
    var r := o.result.value;
    var l' := o.state.reservations;
    assert RequestKey(req') == RequestKey(req);
    assert KeyOf(r) == RequestKey(req);
    var k := FirstIndex(s.reservations, HasKey(RequestKey(req)));
    if k < 0 {
      PutFacts(s.reservations, r);
      assert l' == Put(s.reservations, r);
      var k' := FirstIndex(l', HasKey(RequestKey(req')));
      var j :| 0 <= j < |l'| && l'[j] == r;
      assert k' >= 0;
      assert l'[k'] in l';
      assert l'[k'] == r;
    }
  }

  /** Cancelling an unknown id is refused and changes nothing. */
  lemma CancelUnknown(s: LedgerState, id: string, reason: Option<string>, now: string)
    requires forall x :: x in s.reservations ==> x.id != id
    ensures Cancel(s, id, reason, now) == Outcome(s, Failure(ReservationNotFound(id)))
  {
  }

  /** Cancelling a stored reservation returns its receipt and removes exactly
      that entry: the others keep their order, and the counter is untouched. */
  lemma CancelRemovesExactly(s: LedgerState, id: string, reason: Option<string>, now: string, k: int)
    requires DistinctBy(s.reservations, ReservationIdOf)
    requires 0 <= k < |s.reservations| && s.reservations[k].id == id
    ensures var o := Cancel(s, id, reason, now);
            var r := s.reservations[k];
            && o.state == LedgerState(s.reservations[..k] + s.reservations[k + 1..], s.counter)
            && o.result == Success(CancellationReceipt(id, r.restaurantName, r.dateTime, now, reason, RefundPolicy))
  {
    var l := s.reservations;
    forall j | 0 <= j < |l| && j != k ensures l[j].id != id {
      if j < k {
        assert ReservationIdOf(l[j]) != ReservationIdOf(l[k]);
      } else {
        assert ReservationIdOf(l[k]) != ReservationIdOf(l[j]);
      }
    }
    FilterDropsOne(l, k, (x: Reservation) => x.id != id);
  }

  /** Once cancelled, an id is unknown: cancelling it again is refused. */
  lemma CancelTwiceFails(s: LedgerState, id: string, reason: Option<string>, reason': Option<string>,
                         now: string, now': string)
    ensures var s' := Cancel(s, id, reason, now).state;
            Cancel(s', id, reason', now') == Outcome(s', Failure(ReservationNotFound(id)))
  {
    var s' := Cancel(s, id, reason, now).state;
    forall x | x in s'.reservations ensures x.id != id {
      if Lookup(s.reservations, id).Some? {
        FilterMembership(s.reservations, (r: Reservation) => r.id != id, x);
      }
    }
  }

  /** `cancel_reservation` keeps the ledger invariant. */
  lemma CancelPreservesValid(catalog: seq<Restaurant>, s: LedgerState, id: string, reason: Option<string>, now: string)
    requires LedgerValid(catalog, s)
    ensures LedgerValid(catalog, Cancel(s, id, reason, now).state)
  {
    var p := (r: Reservation) => r.id != id;
    FilterDistinct(s.reservations, p, ReservationIdOf);
    FilterDistinct(s.reservations, p, CodeOf);
  }

  /** A user's list is exactly the stored reservations with that email or
      phone. */
  lemma ListExactly(ledger: seq<Reservation>, userId: string, r: Reservation)
    ensures r in ListFor(ledger, userId) <==> r in ledger && BelongsTo(r, userId)
  {
    FilterMembership(ledger, (x: Reservation) => BelongsTo(x, userId), r);
  }

  /** A user with no reservation gets an empty list. */
  lemma ListUnknownEmpty(ledger: seq<Reservation>, userId: string)
    requires forall r :: r in ledger ==> !BelongsTo(r, userId)
    ensures ListFor(ledger, userId) == []
  {
    FilterNone(ledger, (x: Reservation) => BelongsTo(x, userId));
  }

  /** A cancelled reservation no longer appears in any user's list. */
  lemma CancelledNotListed(s: LedgerState, id: string, reason: Option<string>, now: string, userId: string)
    ensures forall r :: r in ListFor(Cancel(s, id, reason, now).state.reservations, userId) ==> r.id != id
  {
    var l' := Cancel(s, id, reason, now).state.reservations;
    forall r | r in ListFor(l', userId) ensures r.id != id {
      ListExactly(l', userId, r);
      if Lookup(s.reservations, id).Some? {
        FilterMembership(s.reservations, (x: Reservation) => x.id != id, r);
      }
    }
  }

  /** The dedup key tells requests apart as long as neither the email nor the
      date text holds an underscore. */
  lemma DedupKeyInjective(e1: string, d1: string, r1: string, e2: string, d2: string, r2: string)
    requires '_' !in e1 && '_' !in e2 && '_' !in d1 && '_' !in d2
    requires DedupKey(e1, d1, r1) == DedupKey(e2, d2, r2)
    ensures e1 == e2 && d1 == d2 && r1 == r2
  {
    assert DedupKey(e1, d1, r1) == e1 + "_" + (d1 + "_" + r1);
    assert DedupKey(e2, d2, r2) == e2 + "_" + (d2 + "_" + r2);
    CutUnique(e1, d1 + "_" + r1, e2, d2 + "_" + r2, '_');
    CutUnique(d1, r1, d2, r2, '_');
  }

  /** With an underscore in the email, two different requests share a key:
      the second is answered with the first guest's reservation. */
  lemma DedupKeyCollision()
    ensures DedupKey("a_b@x.com", "2025-03-15T19:00:00", "rest_001")
         == DedupKey("a", "b@x.com_2025-03-15T19:00:00", "rest_001")
  {
  }

  // ---------------------------------------------------------------- the provider object

  /** The provider as the service holds it: the catalog it was built with, the
      ledger and the counter, updated in place by bookings and cancellations. */
  class MockProvider {
    const platform: Platform
    const restaurants: seq<Restaurant>
    var reservations: seq<Reservation>
    var counter: nat
    /** Every confirmation code ever taken from the counter, including codes
        of reservations since cancelled and of records refused after their
        code was taken. */
    ghost var issued: set<string>

    function State(): LedgerState
      reads this
    {
      LedgerState(reservations, counter)
    }

    ghost predicate Valid()
      reads this
    {
      && LedgerValid(restaurants, State())
      && IssuedCodes(issued, State())
    }

    /** A fresh provider: the fixed catalog, no reservations, counter 1000. */
    constructor(platform: Platform)
      ensures Valid()
      ensures this.platform == platform && restaurants == Catalog
      ensures State() == InitialState() && issued == {}
    {
      this.platform := platform;
      restaurants := Catalog;
      reservations := [];
      counter := FirstCounter;
      issued := {};
    }

    /** `search_restaurants`; the date and the distance are accepted and
        ignored. */
    method SearchRestaurants(city: string, cuisine: Option<string>, dateTime: Option<string>,
                             partySize: Option<int>, priceTier: Option<int>, distanceKm: Option<real>)
      returns (results: seq<Restaurant>)
      ensures results == SearchCatalog(restaurants, city, cuisine, partySize, priceTier)
    {
      results := [];
      var i := 0;
      while i < |restaurants|
        invariant 0 <= i <= |restaurants|
        invariant results == SearchCatalog(restaurants[..i], city, cuisine, partySize, priceTier)
      {
        var restaurant := restaurants[i];
        FilterSnoc(restaurants, i, (r: Restaurant) => SearchMatches(r, city, cuisine, partySize, priceTier));
        i := i + 1;
        if Lower(restaurant.location.city) != Lower(city) {
          continue;
        }
        if GivenText(cuisine) && Lower(restaurant.cuisine) != Lower(cuisine.value) {
          continue;
        }
        if GivenNumber(priceTier) && restaurant.priceTier != priceTier.value {
          continue;
        }
        if GivenNumber(partySize) && partySize.value > 12 {
          continue;
        }
        results := results + [restaurant];
      }
      assert restaurants[..i] == restaurants;
    }

    /** `check_availability`. */
    method CheckAvailability(restaurantId: string, dateTime: string, partySize: int)
      returns (r: Result<seq<AvailabilitySlot>, ProviderError>)
      ensures r == Availability(platform, restaurants, restaurantId, dateTime, partySize)
    {
      var restaurant := FindRestaurant(restaurants, restaurantId);
      if restaurant.None? {
        return Failure(RestaurantNotFound(restaurantId));
      }
      var parsed := platform.fromIsoFormat(ReplaceAll(dateTime, "Z", "+00:00"));
      if parsed.None? {
        return Failure(InvalidDateTime(dateTime));
      }
      var base := parsed.value;
      var slots: seq<AvailabilitySlot> := [];
      var i := 0;
      while i < |SlotTimes|
        invariant 0 <= i <= |SlotTimes|
        invariant slots == DaySlots(platform, restaurant.value, base, partySize)[..i]
      {
        var start := SlotStart(base, SlotTimes[i]);
        var time := platform.isoFormat(start);
        var h := HexValue(platform.sha256Hex(restaurantId + "_" + time + "_" + IntToString(partySize)));
        var available := h % 10 < 7;
        var maxParty := TableBase(restaurant.value.priceTier) + h % 3;
        var slot := AvailabilitySlot(time, maxParty, available && partySize <= maxParty);
        assert slot == MakeSlot(platform, restaurant.value, start, partySize);
        assert DaySlots(platform, restaurant.value, base, partySize)[..i + 1]
            == DaySlots(platform, restaurant.value, base, partySize)[..i] + [slot];
        slots := slots + [slot];
        i := i + 1;
      }
      assert slots == DaySlots(platform, restaurant.value, base, partySize);
      return Success(slots);
    }

    /** `place_reservation`, with the clock's reading passed as `now`. A code
        taken from the counter was never issued before, so a new reservation
        never repeats the code of one made earlier, even a cancelled one. */
    method PlaceReservation(restaurantId: string, dateTime: string, partySize: int, name: string,
                            phone: string, email: string, notes: Option<string>, now: string)
      returns (r: Result<Reservation, ProviderError>)
      requires Valid()
      modifies this
      ensures Valid()
      ensures Outcome(State(), r)
           == Place(platform, restaurants, old(State()),
                    PlaceRequest(restaurantId, dateTime, partySize, name, phone, email, notes), now)
      ensures counter == old(counter) ==> issued == old(issued)
      ensures counter == old(counter) + 1 ==>
                && ConfirmationCode(old(counter)) !in old(issued)
                && issued == old(issued) + {ConfirmationCode(old(counter))}
      ensures r.Success? ==> r.value.confirmationCode in issued
      ensures r.Success? && counter == old(counter) + 1 ==> r.value.confirmationCode !in old(issued)
    {
      ghost var req := PlaceRequest(restaurantId, dateTime, partySize, name, phone, email, notes);
      ghost var o := Place(platform, restaurants, State(), req, now);
      PlacePreservesValid(platform, restaurants, State(), req, now);
      var restaurant := FindRestaurant(restaurants, restaurantId);
      if restaurant.None? {
        assert o == Outcome(State(), Failure(RestaurantNotFound(restaurantId)));
        return Failure(RestaurantNotFound(restaurantId));
      }
      var duplicateKey := DedupKey(email, dateTime, restaurantId);
      var dup := FindDuplicate(duplicateKey);
      if dup >= 0 {
        assert o == Outcome(State(), Success(reservations[dup]));
        return Success(reservations[dup]);
      }
      var code := TakeConfirmationCode();
      var id := "reservation_" + platform.sha256Hex(code)[..12];
      var made := NewReservation(id, restaurantId, restaurant.value.name, dateTime, partySize,
                                 name, phone, email, code, now, notes, "confirmed");
      assert made == Booking(platform, restaurant.value, req, old(counter), now);
      if made.Failure? {
        assert o == Outcome(State(), Failure(Invalid(made.error)));
        return Failure(Invalid(made.error));
      }
      StoreIssued(issued, State(), made.value);
      reservations := Put(reservations, made.value);
      assert o == Outcome(State(), Success(made.value));
      return Success(made.value);
    }

    /** The code generation of `place_reservation`: the counter's code, which
        was never issued before, and the counter moves on. */
    method TakeConfirmationCode() returns (code: string)
      requires IssuedCodes(issued, State())
      modifies this
      ensures code == ConfirmationCode(old(counter)) && code !in old(issued)
      ensures reservations == old(reservations) && counter == old(counter) + 1
      ensures issued == old(issued) + {code} && IssuedCodes(issued, State())
    {
      code := ConfirmationCode(counter);
      TakeCode(issued, State());
      counter := counter + 1;
      issued := issued + {code};
    }

    /** The scan of `place_reservation` over the stored reservations for one
        whose email, date text and restaurant give `key`: the position of the
        first, or -1. */
    method FindDuplicate(key: string) returns (i: int)
      ensures i == FirstIndex(reservations, HasKey(key))
    {
      i := 0;
      while i < |reservations|
        invariant 0 <= i <= |reservations|
        invariant forall j :: 0 <= j < i ==> KeyOf(reservations[j]) != key
      {
        if KeyOf(reservations[i]) == key {
          return;
        }
        i := i + 1;
      }
      return -1;
    }

    /** `cancel_reservation`, with the clock's reading passed as `now`. */
    method CancelReservation(reservationId: string, reason: Option<string>, now: string)
      returns (r: Result<CancellationReceipt, ProviderError>)
      requires Valid()
      modifies this
      ensures Valid()
      ensures Outcome(State(), r) == Cancel(old(State()), reservationId, reason, now)
      ensures issued == old(issued)
    {
      CancelPreservesValid(restaurants, State(), reservationId, reason, now);
      RemoveIssued(issued, State(), reservationId);
      var reservation := Lookup(reservations, reservationId);
      if reservation.None? {
        return Failure(ReservationNotFound(reservationId));
      }
      r := Success(CancellationReceipt(reservationId, reservation.value.restaurantName,
                                       reservation.value.dateTime, now, reason, RefundPolicy));
      reservations := Remove(reservations, reservationId);
    }

    /** `list_reservations`. */
    method ListReservations(userId: string) returns (results: seq<Reservation>)
      ensures results == ListFor(reservations, userId)
    {
      results := [];
      var i := 0;
      while i < |reservations|
        invariant 0 <= i <= |reservations|
        invariant results == ListFor(reservations[..i], userId)
      {
        var reservation := reservations[i];
        FilterSnoc(reservations, i, (x: Reservation) => BelongsTo(x, userId));
        if reservation.guestEmail == userId || reservation.guestPhone == userId {
          results := results + [reservation];
        }
        i := i + 1;
      }
      assert reservations[..i] == reservations;
    }
  }
}
