/** The request side of the flight search tool: coercion of the passenger
    counts, the date checks, and the assembly of the legs, trip type, seat
    class and passengers handed to the flight library. The library call and
    the shaping of its answer are not modelled. Date parsing with the format
    "%Y-%m-%d" and the current date are the fields of a `Calendar` value. */
module FlightSearch {
  import opened Wrappers
  import opened Seqs
  import opened Strings

  // ---------------------------------------------------------------- integer coercion

  /** A tool argument as it arrives from the protocol layer. */
  datatype ToolArg =
    | ArgInt(i: int)
    | ArgBool(b: bool)
    | ArgStr(s: string)
    | ArgNone
    | ArgOther(typeName: string)

  /** `type(val).__name__`. */
  function TypeName(v: ToolArg): string {
    match v
    case ArgInt(_) => "int"
    case ArgBool(_) => "bool"
    case ArgStr(_) => "str"
    case ArgNone => "NoneType"
    case ArgOther(t) => t
  }

  /** Why a value was not accepted as a count. */
  datatype CoerceError =
    | NotAnInteger(name: string, text: string)
    | WrongType(name: string, typeName: string)
    | Negative(name: string)

  function CoerceMessage(e: CoerceError): string {
    match e
    case NotAnInteger(name, text) => "Invalid integer value for '" + name + "': '" + text + "'"
    case WrongType(name, t) => "Invalid type for '" + name + "': expected int or str, got " + t
    case Negative(name) => "'" + name + "' must be >= 0"
  }

  /** The pair `_coerce_int` returns: a value and an optional error. */
  datatype Coerced = Coerced(value: int, error: Option<CoerceError>)

  /** Accepts a non-negative integer; anything else gives the default. */
  function NonNegative(i: int, name: string, default: int): (r: Coerced)
    ensures r.error.None? <==> i >= 0
    ensures r.value == if i >= 0 then i else default
  {
    if i < 0 then Coerced(default, Some(Negative(name))) else Coerced(i, None)
  }

  /** `_coerce_int`: an int (a bool is one) is taken as it is, a string is
      stripped and read with `int()`; the result must not be negative. Every
      refusal hands back the default. */
  function CoerceInt(val: ToolArg, name: string, default: int): (r: Coerced)
    ensures r.error.None? ==> r.value >= 0
    ensures r.error.Some? ==> r.value == default
  {
    match val
    case ArgInt(i) => NonNegative(i, name, default)
    case ArgBool(b) => NonNegative(if b then 1 else 0, name, default)
    case ArgStr(s) =>
      (match ParseIntLiteral(Strip(s))
       case None => Coerced(default, Some(NotAnInteger(name, s)))
       case Some(i) => NonNegative(i, name, default))
    case _ => Coerced(default, Some(WrongType(name, TypeName(val))))
  }

  /** Which values are accepted: a non-negative int or bool, or a string
      whose stripped text `int()` reads as a non-negative number, and that
      number is the value. Only a value of another type is a type error. */
  lemma CoerceIntMeaning(val: ToolArg, name: string, default: int)
    ensures var r := CoerceInt(val, name, default);
            && ((r.error.Some? && r.error.value.WrongType?) <==> !(val.ArgInt? || val.ArgBool? || val.ArgStr?))
            && (val.ArgInt? ==> (r.error.None? <==> val.i >= 0) && (val.i >= 0 ==> r.value == val.i))
            && (val.ArgStr? ==> (
                  var n := ParseIntLiteral(Strip(val.s));
                  (r.error.None? <==> n.Some? && n.value >= 0) && (r.error.None? ==> r.value == n.value)))
  {
  }

  /** A count printed as text is read back as that count; a printed negative
      number is refused as negative. */
  lemma CoercePrinted(n: int, name: string, default: int)
    ensures CoerceInt(ArgStr(IntToString(n)), name, default)
         == if n >= 0 then Coerced(n, None) else Coerced(default, Some(Negative(name)))
  {
    var s := IntToString(n);
    assert IsDigit(s[|s| - 1]) by {
      if n < 0 {
        assert s[1..] == NatToDecimal(-n);
        assert s[|s| - 1] == NatToDecimal(-n)[|s| - 2];
      }
    }
    StripUnchanged(s);
    IntParseRoundTrip(n);
  }

  /** A count surrounded by spaces is still that count: the text is
      stripped before it is read. */
  lemma CoercePaddedCount(n: nat, name: string, default: int)
    ensures CoerceInt(ArgStr(" " + NatToDecimal(n) + " "), name, default) == Coerced(n, None)
  {
    var d := NatToDecimal(n);
    assert IsDigit(d[0]) && IsDigit(d[|d| - 1]);
    StripPadded(d);
    IntParseRoundTrip(n);
  }

  /** Letters, None and a negative int are refused with the default. */
  lemma CoerceRefusals()
    ensures CoerceInt(ArgStr("abc"), "adults", 1) == Coerced(1, Some(NotAnInteger("adults", "abc")))
    ensures CoerceInt(ArgNone, "children", 0) == Coerced(0, Some(WrongType("children", "NoneType")))
    ensures CoerceInt(ArgInt(-1), "infants_on_lap", 0) == Coerced(0, Some(Negative("infants_on_lap")))
  {
    StripUnchanged("abc");
    assert !IsDigit("abc"[0]);
    assert ParseIntLiteral("abc") == None;
  }

  // ---------------------------------------------------------------- dates

  /** A calendar date; Python compares dates by year, then month, then day. */
  datatype Date = Date(year: int, month: int, day: int)

  predicate Before(a: Date, b: Date) {
    a.year < b.year || (a.year == b.year && (a.month < b.month || (a.month == b.month && a.day < b.day)))
  }

  /** Date order is a strict total order. */
  lemma BeforeIsStrictTotal(a: Date, b: Date, c: Date)
    ensures !Before(a, a)
    ensures Before(a, b) && Before(b, c) ==> Before(a, c)
    ensures a != b ==> (Before(a, b) <==> !Before(b, a))
  {
  }

  /** `datetime.strptime(d, "%Y-%m-%d").date()` (`None` where it raises) and
      `date.today()`. */
  datatype Calendar = Calendar(strptime: string -> Option<Date>, today: Date)

  /** `_parse_iso_date`: empty text is no date; otherwise the parser decides. */
  function ParseIsoDate(cal: Calendar, d: string): (r: Option<Date>)
    ensures d == [] ==> r.None?
    ensures d != [] ==> r == cal.strptime(d)
  {
    if d == [] then None else cal.strptime(d)
  }

  /** `_date_in_past`. */
  predicate InPast(cal: Calendar, d: Date) {
    Before(d, cal.today)
  }

  // ---------------------------------------------------------------- the request

  /** The arguments of `search_flights`, with its defaults. */
  datatype SearchRequest = SearchRequest(
    fromAirport: string,
    toAirport: string,
    departureDate: string,
    returnDate: Option<string> := None,
    cabin: Option<string> := None,
    adults: ToolArg := ArgInt(1),
    children: ToolArg := ArgInt(0),
    infantsInSeat: ToolArg := ArgInt(0),
    infantsOnLap: ToolArg := ArgInt(0),
    airlines: Option<string> := None,
    maxStops: Option<int> := None)

  /** Python truthiness of an optional string. */
  predicate Given(s: Option<string>) {
    s.Some? && s.value != []
  }

  datatype Passengers = Passengers(adults: int, children: int, infantsInSeat: int, infantsOnLap: int)

  function Total(p: Passengers): int {
    p.adults + p.children + p.infantsInSeat + p.infantsOnLap
  }

  /** The keyword arguments of one `FlightData`. */
  datatype FlightLeg = FlightLeg(
    date: string, fromAirport: string, toAirport: string,
    airlines: Option<seq<string>>, maxStops: Option<int>)

  /** What is handed to the flight library. */
  datatype FlightPlan = FlightPlan(legs: seq<FlightLeg>, trip: string, seat: string, passengers: Passengers)

  /** The refusals of `search_flights`, each carrying what its answer echoes. */
  datatype SearchError =
    | CoercionFailed(field: string, message: string, value: int)
    | BadDepartureFormat(departureDate: string)
    | DepartureInPast(departureDate: string)
    | BadReturnFormat(returnDate: string)
    | ReturnInPast(returnDate: string)
    | ReturnBeforeDeparture(departureDate: string, returnDate: string)
    | TooManyPassengers(passengers: Passengers)
    | LapInfantsExceedAdults(passengers: Passengers)

  function ErrorText(e: SearchError): string {
    match e
    case CoercionFailed(_, message, _) => message
    case BadDepartureFormat(_) => "Invalid departure_date format. Use YYYY-MM-DD"
    case DepartureInPast(_) => "departure_date cannot be in the past"
    case BadReturnFormat(_) => "Invalid return_date format. Use YYYY-MM-DD"
    case ReturnInPast(_) => "return_date cannot be in the past"
    case ReturnBeforeDeparture(_, _) => "return_date cannot be before departure_date"
    case TooManyPassengers(_) => "Total passengers cannot exceed 9"
    case LapInfantsExceedAdults(_) => "Must have at least one adult per infant on lap"
  }

  /** The seat classes the tool passes through; anything else is economy. */
  function SeatType(cabin: Option<string>): (seat: string)
    ensures seat in {"economy", "premium_economy", "business", "first"}
  {
    if cabin.Some? && cabin.value in {"economy", "premium_economy", "business", "first"} then cabin.value
    else "economy"
  }

  /** A known class is kept, and only a known class. */
  lemma SeatTypeKeepsKnown(cabin: string)
    ensures SeatType(Some(cabin)) == cabin <==> cabin in {"economy", "premium_economy", "business", "first"}
    ensures SeatType(Some("premium-economy")) == "economy" && SeatType(None) == "economy"
  {
  }

  /** `[a.strip().upper() for a in airlines.split(",")]`. */
  function AirlineList(airlines: string): seq<string> {
    Map(Split(airlines, ','), AirlineCode)
  }

  /** `a.strip().upper()`. */
  function AirlineCode(a: string): string {
    Upper(Strip(a))
  }

  /** The `airlines` keyword, present only for a non-empty argument. */
  function AirlineFilter(airlines: Option<string>): Option<seq<string>> {
    if Given(airlines) then Some(AirlineList(airlines.value)) else None
  }

  /** One airline code: without commas, surrounding whitespace or lower-case
      ASCII letters. */
  predicate CleanCode(code: string) {
    && ',' !in code
    && (code == [] || (!IsSpace(code[0]) && !IsSpace(code[|code| - 1])))
    && forall i :: 0 <= i < |code| ==> !('a' <= code[i] <= 'z')
  }

  /** A piece without commas becomes a clean code. */
  lemma PieceIsClean(piece: string)
    requires ',' !in piece
    ensures CleanCode(Upper(Strip(piece)))
  {
    var t := Strip(piece);
    UpperKeeps(t, ',');
    UpperIsUpper(t);
    if t != [] {
      UpperCharSpace(t[0]);
      UpperCharSpace(t[|t| - 1]);
    }
  }

  /** Upper-casing a character never turns it into whitespace. */
  lemma UpperCharSpace(c: char)
    requires !IsSpace(c)
    ensures !IsSpace(UpperChar(c))
  {
  }

  /** One clean code per comma-separated piece. */
  lemma AirlineListShape(airlines: string)
    ensures |AirlineList(airlines)| == CountChar(airlines, ',') + 1
    ensures forall k :: 0 <= k < |AirlineList(airlines)| ==> CleanCode(AirlineList(airlines)[k])
  {
    var parts := Split(airlines, ',');
    forall k | 0 <= k < |parts| ensures CleanCode(AirlineList(airlines)[k]) {
      assert parts[k] in parts;
      PieceIsClean(parts[k]);
    }
  }

  /** The legs: departure, and for a given return date a second leg with the
      airports swapped and everything else the same. */
  function Legs(req: SearchRequest): seq<FlightLeg> {
    var outbound := FlightLeg(req.departureDate, req.fromAirport, req.toAirport,
                              AirlineFilter(req.airlines), req.maxStops);
    if Given(req.returnDate) then
      [outbound, outbound.(date := req.returnDate.value, fromAirport := req.toAirport, toAirport := req.fromAirport)]
    else [outbound]
  }

  function TripType(req: SearchRequest): string {
    if Given(req.returnDate) then "round-trip" else "one-way"
  }

  /** The checks on a given return date, in order. */
  function ReturnProblem(cal: Calendar, returnDate: string, departureDate: string, dep: Date): Option<SearchError> {
    match ParseIsoDate(cal, returnDate)
    case None => Some(BadReturnFormat(returnDate))
    case Some(ret) =>
      if InPast(cal, ret) then Some(ReturnInPast(returnDate))
      else if Before(ret, dep) then Some(ReturnBeforeDeparture(departureDate, returnDate))
      else None
  }

  /** The four coercions, in order: the first refusal, or the counts. */
  function CoercedCounts(req: SearchRequest): Result<Passengers, SearchError> {
    var a := CoerceInt(req.adults, "adults", 1);
    var c := CoerceInt(req.children, "children", 0);
    var s := CoerceInt(req.infantsInSeat, "infants_in_seat", 0);
    var l := CoerceInt(req.infantsOnLap, "infants_on_lap", 0);
    if a.error.Some? then Failure(CoercionFailed("adults", CoerceMessage(a.error.value), a.value))
    else if c.error.Some? then Failure(CoercionFailed("children", CoerceMessage(c.error.value), c.value))
    else if s.error.Some? then Failure(CoercionFailed("infants_in_seat", CoerceMessage(s.error.value), s.value))
    else if l.error.Some? then Failure(CoercionFailed("infants_on_lap", CoerceMessage(l.error.value), l.value))
    else Success(Passengers(a.value, c.value, s.value, l.value))
  }

  /** The date checks, in order: the first that fails, if any. */
  function DateProblem(cal: Calendar, req: SearchRequest): Option<SearchError> {
    match ParseIsoDate(cal, req.departureDate)
    case None => Some(BadDepartureFormat(req.departureDate))
    case Some(dep) =>
      if InPast(cal, dep) then Some(DepartureInPast(req.departureDate))
      else if Given(req.returnDate) then ReturnProblem(cal, req.returnDate.value, req.departureDate, dep)
      else None
  }

  /** The passenger limits, in order. */
  function PassengerProblem(p: Passengers): Option<SearchError> {
    if Total(p) > 9 then Some(TooManyPassengers(p))
    else if p.infantsOnLap > p.adults then Some(LapInfantsExceedAdults(p))
    else None
  }

  /** `search_flights` up to the library call: the first failing check, or
      the plan. */
  function PlanFlightSearch(cal: Calendar, req: SearchRequest): (r: Result<FlightPlan, SearchError>)
    ensures r.Success? ==> 1 <= |r.value.legs| <= 2 && Total(r.value.passengers) <= 9
  {
    match CoercedCounts(req)
    case Failure(e) => Failure(e)
    case Success(p) =>
      match DateProblem(cal, req)
      case Some(e) => Failure(e)
      case None =>
        match PassengerProblem(p)
        case Some(e) => Failure(e)
        case None => Success(FlightPlan(Legs(req), TripType(req), SeatType(req.cabin), p))
  }

  // ---------------------------------------------------------------- the checks, one by one

  /** The passenger counts after coercion (defaults where coercion failed). */
  function Counts(req: SearchRequest): Passengers {
    Passengers(CoerceInt(req.adults, "adults", 1).value,
               CoerceInt(req.children, "children", 0).value,
               CoerceInt(req.infantsInSeat, "infants_in_seat", 0).value,
               CoerceInt(req.infantsOnLap, "infants_on_lap", 0).value)
  }

  const CheckCount := 11

  /** The coercion of passenger count `k`, in the tool's order. */
  function CountCoercion(req: SearchRequest, k: nat): Coerced
    requires k < 4
  {
    if k == 0 then CoerceInt(req.adults, "adults", 1)
    else if k == 1 then CoerceInt(req.children, "children", 0)
    else if k == 2 then CoerceInt(req.infantsInSeat, "infants_in_seat", 0)
    else CoerceInt(req.infantsOnLap, "infants_on_lap", 0)
  }

  /** The return date, parsed, when one is given. */
  function ReturnDate(cal: Calendar, req: SearchRequest): Option<Date> {
    if Given(req.returnDate) then ParseIsoDate(cal, req.returnDate.value) else None
  }

  /** Date check `k` (4 to 8), stated on its own. */
  predicate DateCheckFails(cal: Calendar, req: SearchRequest, k: nat) {
    var dep := ParseIsoDate(cal, req.departureDate);
    var ret := ReturnDate(cal, req);
    if k == 4 then dep.None?
    else if k == 5 then dep.Some? && InPast(cal, dep.value)
    else if k == 6 then Given(req.returnDate) && ret.None?
    else if k == 7 then ret.Some? && InPast(cal, ret.value)
    else if k == 8 then ret.Some? && dep.Some? && Before(ret.value, dep.value)
    else false
  }

  /** Check number `k` of the tool, stated on its own. */
  predicate CheckFails(cal: Calendar, req: SearchRequest, k: nat) {
    if k < 4 then CountCoercion(req, k).error.Some?
    else if k < 9 then DateCheckFails(cal, req, k)
    else if k == 9 then Total(Counts(req)) > 9
    else if k == 10 then Counts(req).infantsOnLap > Counts(req).adults
    else false
  }

  /** The check an error reports. */
  function Rank(e: SearchError): nat {
    match e
    case CoercionFailed(field, _, _) =>
      if field == "adults" then 0 else if field == "children" then 1
      else if field == "infants_in_seat" then 2 else 3
    case BadDepartureFormat(_) => 4
    case DepartureInPast(_) => 5
    case BadReturnFormat(_) => 6
    case ReturnInPast(_) => 7
    case ReturnBeforeDeparture(_, _) => 8
    case TooManyPassengers(_) => 9
    case LapInfantsExceedAdults(_) => 10
  }

  /** The coercions report the first of checks 0 to 3 that fails. */
  lemma CountsReportFirst(cal: Calendar, req: SearchRequest)
    ensures var r := CoercedCounts(req);
            && (r.Success? <==> forall k :: 0 <= k < 4 ==> !CheckFails(cal, req, k))
            && (r.Success? ==> r.value == Counts(req))
            && (r.Failure? ==> (
                  && Rank(r.error) < 4
                  && CheckFails(cal, req, Rank(r.error))
                  && forall k :: 0 <= k < Rank(r.error) ==> !CheckFails(cal, req, k)))
  {
    var a, c, s, l := CountCoercion(req, 0), CountCoercion(req, 1), CountCoercion(req, 2), CountCoercion(req, 3);
    assert Counts(req) == Passengers(a.value, c.value, s.value, l.value);
    if forall k :: 0 <= k < 4 ==> !CheckFails(cal, req, k) {
      assert !CheckFails(cal, req, 0) && !CheckFails(cal, req, 1);
      assert !CheckFails(cal, req, 2) && !CheckFails(cal, req, 3);
    }
  }

  /** The date checks report the first of checks 4 to 8 that fails. */
  lemma DatesReportFirst(cal: Calendar, req: SearchRequest)
    ensures var e := DateProblem(cal, req);
            && (e.None? <==> forall k :: 4 <= k < 9 ==> !CheckFails(cal, req, k))
            && (e.Some? ==> (
                  && 4 <= Rank(e.value) < 9
                  && CheckFails(cal, req, Rank(e.value))
                  && forall k :: 4 <= k < Rank(e.value) ==> !CheckFails(cal, req, k)))
  {
    var e := DateProblem(cal, req);
    if e.None? {
      forall k | 4 <= k < 9 ensures !CheckFails(cal, req, k) {
        assert !DateCheckFails(cal, req, k);
      }
    }
    if forall k :: 4 <= k < 9 ==> !CheckFails(cal, req, k) {
      assert !CheckFails(cal, req, 4) && !CheckFails(cal, req, 5) && !CheckFails(cal, req, 6);
      assert !CheckFails(cal, req, 7) && !CheckFails(cal, req, 8);
    }
  }

  /** The limits report the first of checks 9 and 10 that fails. */
  lemma LimitsReportFirst(cal: Calendar, req: SearchRequest)
    ensures var e := PassengerProblem(Counts(req));
            && (e.None? <==> !CheckFails(cal, req, 9) && !CheckFails(cal, req, 10))
            && (e.Some? ==> (
                  && 9 <= Rank(e.value) < CheckCount
                  && CheckFails(cal, req, Rank(e.value))
                  && (Rank(e.value) == 10 ==> !CheckFails(cal, req, 9))))
  {
  }

  /** The plan is made exactly when no check fails, and a refusal names the
      first check that fails. */
  lemma SearchReportsFirstFailure(cal: Calendar, req: SearchRequest)
    ensures var r := PlanFlightSearch(cal, req);
            && (r.Success? <==> forall k :: 0 <= k < CheckCount ==> !CheckFails(cal, req, k))
            && (r.Failure? ==> (
                  && Rank(r.error) < CheckCount
                  && CheckFails(cal, req, Rank(r.error))
                  && forall k :: 0 <= k < Rank(r.error) ==> !CheckFails(cal, req, k)))
  {
    CountsReportFirst(cal, req);
    DatesReportFirst(cal, req);
    LimitsReportFirst(cal, req);
  }

  /** More than nine passengers, or more lap infants than adults, is always
      refused. */
  lemma PassengerLimits(cal: Calendar, req: SearchRequest)
    requires Total(Counts(req)) > 9 || Counts(req).infantsOnLap > Counts(req).adults
    ensures PlanFlightSearch(cal, req).Failure?
  {
    SearchReportsFirstFailure(cal, req);
    assert CheckFails(cal, req, 9) || CheckFails(cal, req, 10);
  }

  /** What an accepted request turns into: non-negative counts within the
      limits, the legs, the trip type and the seat class. */
  lemma PlanShape(cal: Calendar, req: SearchRequest)
    requires PlanFlightSearch(cal, req).Success?
    ensures var plan := PlanFlightSearch(cal, req).value;
            && plan.passengers == Counts(req)
            && plan.passengers.adults >= 0 && plan.passengers.children >= 0
            && plan.passengers.infantsInSeat >= 0 && plan.passengers.infantsOnLap >= 0
            && Total(plan.passengers) <= 9
            && plan.passengers.infantsOnLap <= plan.passengers.adults
            && plan.seat == SeatType(req.cabin)
            && plan.legs[0].date == req.departureDate
            && plan.legs[0].fromAirport == req.fromAirport && plan.legs[0].toAirport == req.toAirport
            && (Given(req.returnDate) ==> (
                  && plan.trip == "round-trip" && |plan.legs| == 2
                  && plan.legs[1] == plan.legs[0].(date := req.returnDate.value,
                                                   fromAirport := req.toAirport, toAirport := req.fromAirport)))
            && (!Given(req.returnDate) ==> plan.trip == "one-way" && |plan.legs| == 1)
  {
  }

  /** The airline filter and the stop limit reach every leg. */
  lemma LegsCarryFilters(req: SearchRequest, k: int)
    requires 0 <= k < |Legs(req)|
    ensures Legs(req)[k].maxStops == req.maxStops
    ensures Given(req.airlines) ==> Legs(req)[k].airlines == Some(AirlineList(req.airlines.value))
    ensures !Given(req.airlines) ==> Legs(req)[k].airlines.None?
  {
  }

  // ---------------------------------------------------------------- the tool, step by step

  /** The keyword dictionary of the outbound leg is filled in, copied and
      updated for the return leg, and the leg list is appended to. */
  method LegsOf(req: SearchRequest) returns (legs: seq<FlightLeg>, trip: string)
    ensures legs == Legs(req) && trip == TripType(req)
  {
    var kwargs := FlightLeg(req.departureDate, req.fromAirport, req.toAirport, None, None);
    if Given(req.airlines) {
      var codes := Map(Split(req.airlines.value, ','), AirlineCode);
      kwargs := kwargs.(airlines := Some(codes));
    }
    if req.maxStops.Some? {
      kwargs := kwargs.(maxStops := req.maxStops);
    }
    legs := [kwargs];
    if Given(req.returnDate) {
      var returnKwargs := kwargs.(date := req.returnDate.value, fromAirport := req.toAirport,
                                  toAirport := req.fromAirport);
      legs := legs + [returnKwargs];
      trip := "round-trip";
    } else {
      trip := "one-way";
    }
  }

  /** `search_flights` as it runs: early returns, a keyword dictionary that
      is filled in, copied and updated for the return leg, and a leg list
      that is appended to. */
  method SearchFlights(cal: Calendar, req: SearchRequest) returns (r: Result<FlightPlan, SearchError>)
    ensures r == PlanFlightSearch(cal, req)
  {
    var adults := CoerceInt(req.adults, "adults", 1);
    if adults.error.Some? {
      return Failure(CoercionFailed("adults", CoerceMessage(adults.error.value), adults.value));
    }
    var children := CoerceInt(req.children, "children", 0);
    if children.error.Some? {
      return Failure(CoercionFailed("children", CoerceMessage(children.error.value), children.value));
    }
    var inSeat := CoerceInt(req.infantsInSeat, "infants_in_seat", 0);
    if inSeat.error.Some? {
      return Failure(CoercionFailed("infants_in_seat", CoerceMessage(inSeat.error.value), inSeat.value));
    }
    var onLap := CoerceInt(req.infantsOnLap, "infants_on_lap", 0);
    if onLap.error.Some? {
      return Failure(CoercionFailed("infants_on_lap", CoerceMessage(onLap.error.value), onLap.value));
    }
    assert CoercedCounts(req) == Success(Passengers(adults.value, children.value, inSeat.value, onLap.value));

    var dep := ParseIsoDate(cal, req.departureDate);
    if dep.None? {
      return Failure(BadDepartureFormat(req.departureDate));
    }
    if InPast(cal, dep.value) {
      return Failure(DepartureInPast(req.departureDate));
    }
    if Given(req.returnDate) {
      var ret := ParseIsoDate(cal, req.returnDate.value);
      if ret.None? {
        return Failure(BadReturnFormat(req.returnDate.value));
      }
      if InPast(cal, ret.value) {
        return Failure(ReturnInPast(req.returnDate.value));
      }
      if Before(ret.value, dep.value) {
        return Failure(ReturnBeforeDeparture(req.departureDate, req.returnDate.value));
      }
    }
    assert DateProblem(cal, req).None?;

    var legs, trip := LegsOf(req);
    var seat := SeatType(req.cabin);

    var passengers := Passengers(adults.value, children.value, inSeat.value, onLap.value);
    if Total(passengers) > 9 {
      return Failure(TooManyPassengers(passengers));
    }
    if passengers.infantsOnLap > passengers.adults {
      return Failure(LapInfantsExceedAdults(passengers));
    }
    return Success(FlightPlan(legs, trip, seat, passengers));
  }
}
