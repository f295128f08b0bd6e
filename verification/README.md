# Agent examples: reservation engine, tool validators and rule handling

This project models, in Dafny, the deterministic core of a collection of agent
and tool examples:

- **The mock restaurant-reservation provider** (`MockReservations`,
  `mock_provider.dfy`) and its record types (`ReservationSchemas`,
  `reservation_schemas.dfy`).
  - It has a fixed catalog of ten restaurants, a catalog search, and a generator
    for the thirteen daily time slots.
  - The ledger of reservations is keyed by id and kept in insertion order. A
    confirmation counter starts at 1000.
  - The provider is a class, `MockProvider`, whose fields hold the ledger and
    the counter, and a ghost set of every confirmation code issued so far.
    Its methods are proved against the functions `Place`,
    `Cancel`, `ListFor`, `SearchCatalog` and `Availability` over a
    `LedgerState` value. The lemmas are stated about those functions: the
    ledger invariant, idempotent booking, fresh confirmation codes and exact
    removal.
- **The cloud-storage tool's pure logic** (`CloudStorage`, `cloud_storage.dfy`).
  - The argument and environment checks of a move or copy, and the target
    object name and reported URIs.
  - Splitting of a `gs://` configuration URI.
  - Validation of a rules document, reporting the first faulty rule, and the
    stable sort by priority.
- **The flight-search tool's request handling** (`FlightSearch`,
  `flight_search.dfy`).
  - Coercion of passenger counts, and the eleven checks in their fixed order.
  - The cabin mapping, the airline list, and the one or two flight legs handed
    to the flight library.
- **The file organizer's rules engine** (`FileRules`, `file_rules.dfy`): rules
  sorted stably by priority, the summary text, and the YAML loader with its
  defaults and fallbacks.
- **The generic agent's tool-server configuration** (`AgentGraph`,
  `agent_graph.dfy`).
  - The list of server URLs taken from a comma-separated setting.
  - The host names extracted from those URLs.
  - The client configuration keyed `mcp1`, `mcp2`, and so on.

Supporting modules:

- `Wrappers`: `Option` and `Result`.
- `Seqs`: filter, first index, map.
- `Strings`: Python's `strip`, `upper`/`lower`, `replace`, `split`, `join`,
  `os.path.basename`, decimal printing, and the `int()` grammar.
- `StableSort`: `sorted(..., reverse=True)` as a stable insertion sort.
- `YamlValue`: the values `yaml.safe_load` returns.

Things outside the program are passed in as values:

- **SHA-256 and ISO-8601 conversions** are the fields of a `Platform` value.
- **The current time** is a `now` text.
- **`strptime` and today's date** are a `Calendar` value.
- **The YAML parser** is a function from text to an optional `Yaml` value.
- **The storage service's answers** are a `StorageEnv` value.
- **Configuration settings** (the URL list and the transport) are parameters.

## Model

| member | source | states |
|---|---|---|
| ReservationSchemas.NewRestaurant | mcp/reservation_tool/schemas.py:20-31 | a restaurant is accepted exactly when 1 <= price tier <= 4 and 0 <= rating <= 5; a refusal names each out-of-range field |
| ReservationSchemas.NewSlot | mcp/reservation_tool/schemas.py:34-39 | a slot is accepted exactly when its maximum party size is at least 1 |
| ReservationSchemas.NewReservation | mcp/reservation_tool/schemas.py:42-56 | a reservation is accepted exactly when its party size is at least 1, and then carries the given fields |
| ReservationSchemas.Defaults | mcp/reservation_tool/schemas.py:17-67 | country defaults to "USA", reservations are accepted, status is "confirmed", description/notes/reason are absent, and the refund text has its default |
| ReservationSchemas.RangeExamples | mcp/reservation_tool/schemas.py:26-38 | a fifth price tier and a slot for zero guests are refused; tier 3 and eight guests are accepted |
| MockReservations.CatalogValid | mcp/reservation_tool/providers/mock.py:29-200 | every catalog restaurant passes the record's range checks |
| MockReservations.CatalogIdsDistinct | mcp/reservation_tool/providers/mock.py:29-200 | no two catalog restaurants share an id |
| MockReservations.FindRestaurant | mcp/reservation_tool/providers/mock.py:251-253 | the first-match lookup finds a catalog entry with the id, and finds none exactly when no entry has it |
| MockReservations.SearchExactly | mcp/reservation_tool/providers/mock.py:218-236 | a restaurant is in the search result exactly when it is in the catalog and matches the city and cuisine case-insensitively, the tier, and the party limit |
| MockReservations.LargePartyFindsNothing | mcp/reservation_tool/providers/mock.py:232-234 | a party of more than twelve finds no restaurant |
| MockReservations.PartySizeOtherwiseIgnored | mcp/reservation_tool/providers/mock.py:232-234 | any other party size, or none, gives the same result as no party size |
| MockReservations.EmptyFiltersIgnored | mcp/reservation_tool/providers/mock.py:224-230 | an empty cuisine and a zero tier filter nothing |
| MockReservations.NoSuchCity | mcp/reservation_tool/providers/mock.py:219-222 | a city the catalog does not serve finds nothing |
| MockReservations.BostonItalian | mcp/reservation_tool/providers/mock.py:29-236 | the only Italian restaurant in Boston is Trattoria di Mare |
| MockReservations.SearchCatalog | mcp/reservation_tool/providers/mock.py:202-239 | definition of the search; the result is drawn from the catalog and is no longer than it; the matching rule is in SearchExactly |
| MockReservations.MockProvider.SearchRestaurants | mcp/reservation_tool/providers/mock.py:202-239 | the filtering loop with its early continues returns the catalog search result |
| MockReservations.DaySlots | mcp/reservation_tool/providers/mock.py:262-268 | a day has exactly thirteen slots, one per lunch and dinner time |
| MockReservations.Availability | mcp/reservation_tool/providers/mock.py:241-294 | definition of availability; a success names a catalog restaurant and has one slot per listed time; more in AvailabilitySucceedsIff, SlotShape |
| MockReservations.UnknownRestaurantFirst | mcp/reservation_tool/providers/mock.py:250-259 | an unknown restaurant is reported whatever the date text and whatever the primitives answer |
| MockReservations.AvailabilitySucceedsIff | mcp/reservation_tool/providers/mock.py:250-259 | slots are returned exactly when the restaurant exists and the date parses after "Z" becomes "+00:00"; otherwise the date error is raised |
| MockReservations.SlotShape | mcp/reservation_tool/providers/mock.py:268-290 | each slot is at its listed time; its maximum is (8 if tier >= 3 else 6) + h mod 3, within 6..10; it is available exactly when h mod 10 < 7 and the party fits |
| MockReservations.SlotDependsOnSeed | mcp/reservation_tool/providers/mock.py:272-275 | a slot depends only on the restaurant, the printed slot time and the party size |
| MockReservations.SlotStartsOrdered | mcp/reservation_tool/providers/mock.py:263-270 | slot starts keep the requested date and offset, have zero seconds, and strictly increase in time of day |
| MockReservations.MockProvider.CheckAvailability | mcp/reservation_tool/providers/mock.py:241-294 | the slot-building loop returns the availability function's result |
| MockReservations.Lookup | mcp/reservation_tool/providers/mock.py:356-358 | `get` finds an entry stored under the id, and nothing exactly when no entry has it |
| MockReservations.PutFacts | mcp/reservation_tool/providers/mock.py:344 | storing keeps every other id's entry and adds the new one, appended when its id is new |
| MockReservations.PutDistinctIds | mcp/reservation_tool/providers/mock.py:344 | storing keeps ids unique |
| MockReservations.PutDistinctCodes | mcp/reservation_tool/providers/mock.py:344 | storing an entry with a new code keeps codes unique |
| MockReservations.CodeNumberOf | mcp/reservation_tool/providers/mock.py:324 | a confirmation code reads back as the counter value it was printed from |
| MockReservations.ConfirmationCodeInjective | mcp/reservation_tool/providers/mock.py:324 | different counter values give different codes |
| MockReservations.CodeExamples | mcp/reservation_tool/providers/mock.py:324 | counter 1000 prints "RES001000"; a seven-digit counter is not cut |
| MockReservations.InitialValid | mcp/reservation_tool/providers/mock.py:21-25 | the fresh state (no reservations, counter 1000) satisfies the ledger invariant |
| MockReservations.MockProvider.constructor | mcp/reservation_tool/providers/mock.py:21-25 | a new provider has the fixed catalog, an empty ledger, counter 1000 and no code issued |
| MockReservations.Place | mcp/reservation_tool/providers/mock.py:296-346 | definition of booking; a refusal never changes the ledger; more in PlacePreservesValid, PlaceNew, PlaceDuplicate, PlaceIdempotent, NewCodeIsFresh |
| MockReservations.PlacePreservesValid | mcp/reservation_tool/providers/mock.py:296-346 | booking keeps the invariant: counter >= 1000, unique ids and codes, each entry confirmed, for a catalog restaurant, with a code below the counter |
| MockReservations.PlaceUnknownRestaurant | mcp/reservation_tool/providers/mock.py:309-312 | an unknown restaurant is refused and neither ledger nor counter changes |
| MockReservations.PlaceDuplicate | mcp/reservation_tool/providers/mock.py:314-321 | a request whose email, date text and restaurant key matches a stored entry gets a stored entry with that key back and changes nothing |
| MockReservations.PlaceNew | mcp/reservation_tool/providers/mock.py:323-346 | a new valid request bumps the counter by one and stores a confirmed reservation with code RES+counter, the hashed id, the catalog name and the request's fields |
| MockReservations.PlaceRejectedSpendsCode | mcp/reservation_tool/providers/mock.py:323-342 | a new request for no guests is refused by the record check after the counter has moved, so the ledger is unchanged but a code is used up |
| MockReservations.FirstBooking | mcp/reservation_tool/providers/mock.py:21-346 | the first booking at rest_001 gets "RES001000" at "Trattoria di Mare" and leaves one entry and counter 1001 |
| MockReservations.PlaceCounter | mcp/reservation_tool/providers/mock.py:323-325 | a booking moves the counter by zero or one |
| MockReservations.NewCodeIsFresh | mcp/reservation_tool/providers/mock.py:323-325 | a new code's number is the counter before the call; it differs from the code of every smaller counter value, so from every code issued earlier, and from every stored code |
| MockReservations.TakeCode | mcp/reservation_tool/providers/mock.py:323-325 | the counter's code is not among the issued codes, and issuing it keeps every issued code below the new counter |
| MockReservations.StoreIssued | mcp/reservation_tool/providers/mock.py:344 | storing a reservation whose code was issued keeps every stored code among the issued ones |
| MockReservations.RemoveIssued | mcp/reservation_tool/providers/mock.py:371 | removing a reservation keeps every stored code among the issued ones |
| MockReservations.PlaceIdempotent | mcp/reservation_tool/providers/mock.py:314-321 | repeating a served request with the same email, date and restaurant returns the same reservation and changes nothing, whatever the other fields |
| MockReservations.DedupKeyInjective | mcp/reservation_tool/providers/mock.py:316-318 | the concatenated key separates requests when neither email nor date contains '_' |
| MockReservations.DedupKeyCollision | mcp/reservation_tool/providers/mock.py:316-319 | with '_' in the email, two different requests share one key |
| MockReservations.MockProvider.PlaceReservation | mcp/reservation_tool/providers/mock.py:296-346 | the method leaves the provider in the state and with the answer of the booking function and keeps the invariant; when the counter moves, the code it takes was never issued before, even to a reservation since cancelled, and is added to the issued codes, which otherwise stay as they were |
| MockReservations.MockProvider.FindDuplicate | mcp/reservation_tool/providers/mock.py:316-321 | the scan over the stored reservations returns the position of the first whose email, date text and restaurant give the request's key, or -1 |
| MockReservations.MockProvider.TakeConfirmationCode | mcp/reservation_tool/providers/mock.py:323-325 | the code made from the counter was never issued before; the counter moves on by one, the code joins the issued codes and the ledger is untouched |
| MockReservations.Cancel | mcp/reservation_tool/providers/mock.py:348-373 | definition of cancelling; the counter is never touched and a refusal changes nothing; more in CancelRemovesExactly, CancelTwiceFails, CancelPreservesValid |
| MockReservations.CancelUnknown | mcp/reservation_tool/providers/mock.py:356-358 | an unknown id is refused and nothing changes |
| MockReservations.CancelRemovesExactly | mcp/reservation_tool/providers/mock.py:356-371 | a stored id is removed and only it, other entries keep their order, the counter is untouched, and the receipt has the id, name, original time, reason and refund text |
| MockReservations.CancelTwiceFails | mcp/reservation_tool/providers/mock.py:356-371 | cancelling the same id again is refused |
| MockReservations.CancelPreservesValid | mcp/reservation_tool/providers/mock.py:348-373 | cancelling keeps the ledger invariant |
| MockReservations.MockProvider.CancelReservation | mcp/reservation_tool/providers/mock.py:348-373 | the method leaves the provider in the state and with the answer of the cancel function, keeps the invariant, and leaves the issued codes as they were, so a cancelled code stays used |
| MockReservations.ListFor | mcp/reservation_tool/providers/mock.py:375-388 | definition of a user's list; every listed reservation is stored and belongs to the user; the converse in ListExactly |
| MockReservations.ListExactly | mcp/reservation_tool/providers/mock.py:382-385 | a reservation is listed exactly when it is stored and its email or phone equals the user id |
| MockReservations.ListUnknownEmpty | mcp/reservation_tool/providers/mock.py:382-388 | a user with no reservation gets an empty list |
| MockReservations.CancelledNotListed | mcp/reservation_tool/providers/mock.py:371-385 | after a cancel, the cancelled id is in no user's list |
| MockReservations.MockProvider.ListReservations | mcp/reservation_tool/providers/mock.py:375-388 | the listing loop returns the user's reservations in ledger order |
| CloudStorage.PerformAction | mcp/cloud_storage_tool/cloud_storage_tool.py:148-213 | a success needs a move/copy action and a target ending in '/', reports status "success" and echoes the action |
| CloudStorage.ArgumentErrorsIgnoreEnv | mcp/cloud_storage_tool/cloud_storage_tool.py:148-158 | a bad action or a non-folder target is refused before the storage environment is consulted |
| CloudStorage.ActionSucceedsIff | mcp/cloud_storage_tool/cloud_storage_tool.py:148-181 | the action succeeds exactly when the arguments are valid, a client and a default bucket are available, and the source exists |
| CloudStorage.ActionIsTransfer | mcp/cloud_storage_tool/cloud_storage_tool.py:161-213 | a success is the transfer within the default bucket |
| CloudStorage.Transfer | mcp/cloud_storage_tool/cloud_storage_tool.py:161-211 | definition of the transfer; it always succeeds and its first request is the copy; more in TransferEffects, TargetKeepsFilename |
| CloudStorage.TransferEffects | mcp/cloud_storage_tool/cloud_storage_tool.py:170-211 | one copy into the target object, then a delete of the source exactly for a move; reported source, target and folder are gs:// URIs of the bucket, and the message reads "File moved from <source> to <target>" for a move and "File copied from ..." for a copy |
| CloudStorage.TargetKeepsFilename | mcp/cloud_storage_tool/cloud_storage_tool.py:169-173 | for a folder target, the target object is the folder followed by the source's file name, each with every backslash made '/'; for a source without backslashes the name is kept as it is and is the target's file name |
| CloudStorage.BackslashBecomesFolder | mcp/cloud_storage_tool/cloud_storage_tool.py:169-173 | a file name `a\b` under a folder becomes the object `a/b` in that folder, whose file name is `b` |
| CloudStorage.SplitGcsUri | mcp/cloud_storage_tool/cloud_storage_tool.py:240-243 | after removing "gs://", the URI splits at its first '/' into bucket and object, and without a '/' it is refused with the invalid-format message |
| CloudStorage.GcsUriRoundTrip | mcp/cloud_storage_tool/cloud_storage_tool.py:240-243 | a URI built from a bucket and an object name splits back into them |
| CloudStorage.ConfigShapeErrors | mcp/cloud_storage_tool/cloud_storage_tool.py:275-280 | a document that is not a mapping with "rules", or whose rules are not a list, is refused with its message |
| CloudStorage.MissingOf | mcp/cloud_storage_tool/cloud_storage_tool.py:284-285 | the missing fields are exactly the required names, in order, that the rule does not contain |
| CloudStorage.RuleErrorMeaning | mcp/cloud_storage_tool/cloud_storage_tool.py:283-294 | a rule passes its check exactly when it has pattern, target and action and the action is move or copy |
| CloudStorage.RuleChecks | mcp/cloud_storage_tool/cloud_storage_tool.py:283-294 | check j is the check of rule j with index j |
| CloudStorage.FirstFailureIsFirst | mcp/cloud_storage_tool/cloud_storage_tool.py:283-294 | the reported failure is the first failing check, and there is none exactly when all pass |
| CloudStorage.CheckRules | mcp/cloud_storage_tool/cloud_storage_tool.py:283-294 | the loop with its early returns reports the first failing rule |
| CloudStorage.ValidateRules | mcp/cloud_storage_tool/cloud_storage_tool.py:275-303 | definition of validation; a success comes from a mapping and counts exactly its rules; more in ConfigShapeErrors, FirstFailureIsFirst, RulesLoadedShape |
| CloudStorage.RulesLoadedShape | mcp/cloud_storage_tool/cloud_storage_tool.py:296-303 | a success returns the same rules, all well formed, highest priority first with ties in document order, and the rule count |
| CloudStorage.RuleRefusalIsFirst | mcp/cloud_storage_tool/cloud_storage_tool.py:283-294 | a refusal of rule i means rule i is faulty and every earlier rule is well formed |
| FlightSearch.NonNegative | mcp/flight_tool/flight_tool.py:90-93 | a negative value gives the default with an error; any other value is kept |
| FlightSearch.CoerceInt | mcp/flight_tool/flight_tool.py:70-93 | a success is non-negative, and a failure gives back exactly the default |
| FlightSearch.CoerceIntMeaning | mcp/flight_tool/flight_tool.py:79-93 | only int, bool and str are accepted types; an int is kept exactly when non-negative; a string is read after stripping and kept exactly when it parses to a non-negative number |
| FlightSearch.CoercePrinted | mcp/flight_tool/flight_tool.py:81-93 | a printed count reads back as itself, and a printed negative number is refused as negative |
| FlightSearch.CoercePaddedCount | mcp/flight_tool/flight_tool.py:81-84 | a count written with spaces around it, such as " 2 ", is read as that count without error |
| FlightSearch.CoerceRefusals | mcp/flight_tool/flight_tool.py:84-91 | letters, None and a negative int are refused with the default |
| FlightSearch.BeforeIsStrictTotal | mcp/flight_tool/flight_tool.py:63-65 | date order is irreflexive, transitive and total |
| FlightSearch.ParseIsoDate | mcp/flight_tool/flight_tool.py:54-60 | empty text is no date; other text is what the parser answers |
| FlightSearch.SeatType | mcp/flight_tool/flight_tool.py:211-217 | the seat is always one of the four known classes |
| FlightSearch.SeatTypeKeepsKnown | mcp/flight_tool/flight_tool.py:211-217 | a cabin is kept exactly when it is a known class; "premium-economy" and None become economy |
| FlightSearch.PieceIsClean | mcp/flight_tool/flight_tool.py:190 | a stripped, upper-cased piece has no surrounding space and no lower-case letter |
| FlightSearch.AirlineListShape | mcp/flight_tool/flight_tool.py:189-191 | one clean code per comma-separated piece |
| FlightSearch.CountsReportFirst | mcp/flight_tool/flight_tool.py:152-163 | the coercions report the first of the four count checks that fails, or give the coerced counts |
| FlightSearch.DatesReportFirst | mcp/flight_tool/flight_tool.py:165-181 | the date checks report the first failing one among departure format, departure past, return format, return past, return before departure |
| FlightSearch.LimitsReportFirst | mcp/flight_tool/flight_tool.py:219-254 | the limits report more than nine passengers before more lap infants than adults |
| FlightSearch.PlanFlightSearch | mcp/flight_tool/flight_tool.py:152-261 | definition of the search up to the library call; an accepted plan has one or two legs and at most nine passengers; more in SearchReportsFirstFailure, PlanShape |
| FlightSearch.SearchReportsFirstFailure | mcp/flight_tool/flight_tool.py:152-254 | a plan is made exactly when none of the eleven checks fails, and a refusal names the first failing check |
| FlightSearch.PassengerLimits | mcp/flight_tool/flight_tool.py:219-238 | more than nine passengers, or more lap infants than adults, is always refused |
| FlightSearch.PlanShape | mcp/flight_tool/flight_tool.py:183-261 | an accepted plan has non-negative counts within the limits, the mapped seat, the outbound leg, and for a return date a swapped second leg and "round-trip", otherwise one leg and "one-way" |
| FlightSearch.LegsCarryFilters | mcp/flight_tool/flight_tool.py:189-205 | the airline list and the stop limit reach every leg |
| FlightSearch.LegsOf | mcp/flight_tool/flight_tool.py:183-209 | the keyword-record updates produce the legs and trip type |
| FlightSearch.SearchFlights | mcp/flight_tool/flight_tool.py:152-261 | the early-return procedure gives the plan function's answer |
| FileRules.NewEngine | a2a/file_organizer/src/file_organizer/rules.py:13-15 | the engine holds a permutation of the rules in descending priority |
| FileRules.EngineIsStable | a2a/file_organizer/src/file_organizer/rules.py:15 | rules of equal priority keep their given order |
| FileRules.Summary | a2a/file_organizer/src/file_organizer/rules.py:17-23 | definition of the summary; with rules it starts with the header; more in SummaryShape, SummaryLineCount |
| FileRules.GetRulesSummary | a2a/file_organizer/src/file_organizer/rules.py:17-23 | the loop that extends the text line by line gives the summary |
| FileRules.OneNewlinePerLine | a2a/file_organizer/src/file_organizer/rules.py:22 | a rule's line, with single-line fields, has exactly one newline |
| FileRules.SummaryLineCount | a2a/file_organizer/src/file_organizer/rules.py:21-22 | the rule lines hold one newline per rule |
| FileRules.SummaryShape | a2a/file_organizer/src/file_organizer/rules.py:17-23 | the no-rules text is given exactly for an engine without rules; otherwise the summary starts with the header and has one line per rule after it |
| FileRules.SummaryLinesSnoc | a2a/file_organizer/src/file_organizer/rules.py:21-22 | adding a rule adds its line, numbered after the others |
| FileRules.RulesOf | a2a/file_organizer/src/file_organizer/rules.py:30-36 | every entry gives a rule, position by position, or the whole list fails |
| FileRules.LoadRules | a2a/file_organizer/src/file_organizer/rules.py:25-41 | definition of the loader; its engine is always sorted highest priority first; more in LoadedRules, LoaderFallsBack, OneBadEntryEmptiesEngine |
| FileRules.LoadRulesFromString | a2a/file_organizer/src/file_organizer/rules.py:25-41 | the appending loop gives the loader function's engine |
| FileRules.Defaults | a2a/file_organizer/src/file_organizer/rules.py:31-36 | missing fields become pattern '*', target '', action 'copy', priority 0 |
| FileRules.LoadedRules | a2a/file_organizer/src/file_organizer/rules.py:27-38 | a loaded engine has one rule per entry, holding exactly the entries' rules, in descending priority |
| FileRules.LoaderFallsBack | a2a/file_organizer/src/file_organizer/rules.py:26-41 | unparsable text, or a document that is not a mapping with "rules", gives an engine without rules |
| FileRules.OneBadEntryEmptiesEngine | a2a/file_organizer/src/file_organizer/rules.py:30-41 | one entry that raises empties the whole engine |
| AgentGraph.McpUrls | a2a/generic_agent/src/generic_agent/graph.py:17-20 | every URL is non-empty, stripped and comma-free, and there are at most one more URLs than commas |
| AgentGraph.McpUrlsRoundTrip | a2a/generic_agent/src/generic_agent/graph.py:17-20 | clean URLs joined with commas read back as the same list |
| AgentGraph.McpUrlsSkipsBlank | a2a/generic_agent/src/generic_agent/graph.py:20 | a blank entry between two URLs is dropped |
| AgentGraph.ServerName | a2a/generic_agent/src/generic_agent/graph.py:50-55 | a host name has no ':' and no '/' |
| AgentGraph.ServerNames | a2a/generic_agent/src/generic_agent/graph.py:46-59 | the names are non-empty, free of ':' and '/', and no more than the URLs |
| AgentGraph.GetMcpServerNames | a2a/generic_agent/src/generic_agent/graph.py:36-59 | the loop returns the non-empty host names of the URLs in order |
| AgentGraph.SplitFirstPiece | a2a/generic_agent/src/generic_agent/graph.py:53-55 | cutting at a separator keeps exactly the text before its first occurrence |
| AgentGraph.HostOfHostAndRest | a2a/generic_agent/src/generic_agent/graph.py:53-55 | a host followed by a port or path is cut back to the host |
| AgentGraph.ServerNameOfHttpUrl | a2a/generic_agent/src/generic_agent/graph.py:50-55 | an "http://" URL gives its host |
| AgentGraph.ServerNameOfHttpsUrl | a2a/generic_agent/src/generic_agent/graph.py:50-55 | an "https://" URL gives its host: "http://" does not occur across the "https://" prefix |
| AgentGraph.WeatherToolName | a2a/generic_agent/src/generic_agent/graph.py:41 | "http://weather-tool:8000/mcp" gives "weather-tool" |
| AgentGraph.ServerKeyInjective | a2a/generic_agent/src/generic_agent/graph.py:30 | different server numbers give different keys |
| AgentGraph.ClientConfigs | a2a/generic_agent/src/generic_agent/graph.py:23-33 | definition of the client configuration; every entry has the configured transport; more in ClientConfigsExactly, ClientConfigCount |
| AgentGraph.ClientConfigsExactly | a2a/generic_agent/src/generic_agent/graph.py:26-33 | the keys are exactly mcp1..mcpN, and mcpK holds the K-th URL with the configured transport |
| AgentGraph.ClientConfigCount | a2a/generic_agent/src/generic_agent/graph.py:29-33 | one entry per URL |
| AgentGraph.GetMcpClientConfigs | a2a/generic_agent/src/generic_agent/graph.py:23-33 | the filling loop gives the configuration of the URLs |

## Left out

- The server layers are not part of this model. This covers the tool servers,
  the service that wraps the provider, the JWT and SVID handling, JSON
  encoding, logging and process start-up. An error answer is a `Result`
  failure or an error variant that carries its data, not a JSON text.
- No storage I/O is modelled. The storage client, the existence check of the
  source object, and the copy and delete calls are data: a `StorageEnv` and
  the list of requested `StorageOp`s. Exceptions raised by the storage
  service ("Failed to ... file") are left out.
- The loading of a rules document is not modelled. This covers the `gs://`
  download, the local-file branch with its path resolution, and the YAML
  parser with its errors; validation starts from the parsed value.
  `get_objects` is pure I/O and is left out.
- SHA-256, `datetime.fromisoformat`, `datetime.isoformat`, `strptime` and
  `date.today` are not implemented. They are functions passed in, so every
  result is deterministic in them.
- Floating-point fields (rating, coordinates, `distance_km`) are `real`; no
  rounding is modelled.
- YAML values have no floating-point case, and mapping keys are strings only.
  A rules document with a float priority, or with a non-string key, is outside
  the model.
- `CloudStorage.RulesErrorText` prints the invalid action of a rule only when
  that action is a string. For any other YAML value it leaves the value out,
  where Python would print `str()` of it.
- Case mapping covers ASCII letters only, and `int()` reads ASCII digits only.
  Python's Unicode digits and case tables are not modelled.
- The validation messages of the record library are not reproduced. A refusal
  carries the model name and the offending fields.
- The flight library call, `_result_to_dict` and `search_airports` are left
  out. They act on foreign objects and the network.
- `FlightSearch.CoerceInt`'s message text shows a refused string between
  single quotes. It does not reproduce Python's `repr` escaping.
- `FileRules.LoadRules` requires string pattern, target and action fields and
  an integer priority. The source stores other values unchecked
  and fails later, or not at all. Here such an entry makes the engine empty,
  as the source's exception handler would.
- `CloudStorage.ValidateRules` treats two or more rules with any
  non-numeric priority as the `TypeError` of the sort. If every priority is a
  string, Python would sort them without error.
- `AgentGraph.GetMcpClientConfigs` returns a map. The insertion order of the
  source's dictionary is not kept; the keys `mcp1`..`mcpN` carry that order.
- The provider keeps its ledger as a sequence in insertion order with
  dictionary semantics. Storing an existing id replaces that entry in place,
  and a new id is appended. The order of the record fields differs from the
  source's declaration order.
- There is no locking. The source has none and the model is sequential.
- The duplicate check compares the concatenated key `email_datetime_restaurant`
  exactly as written. `DedupKeyCollision` shows two different requests that
  share a key; the model keeps this behaviour.
