# Verified models of MOTIS

This project models the parts of MOTIS whose correctness does not show in any single function: an event loop, lists
that are renumbered while they are walked, a cursor that is resumed, streams that are merged, stores that must stay in
line, and texts and ids that must lead back to what they were made of. Everything is proved for all inputs, all runs
and all reachable states; where the code does not do what it is for, the condition under which it does is proved to be
exact, and a concrete input shows the failure.

`dafny verify dfyconfig.toml` checks the whole project.

## What is modelled

Code that changes things step by step is modelled by classes and methods with loops. Each method is proved against a
function on values, and the theorems are about these functions. Files come in groups: `...Model` has the values and
the functions, `...Theorems` (and `...History`, `...Plans`, `...Results`, `...Both`, `...Search`, `...Formats`) the
theorems, and the file without suffix, or named below, the classes and loops. `...Details` (for schemas
`SchemaSource`) says once more what comes out, in the fields, names and numbers of the input and without the functions
by which it is computed; the methods promise this too.

* **Import engine** (`ImportModel`, `ImportTheorems`, `ImportHistory`, `ImportDetails`, `ImportEngine`). Collectors
  wait for named messages, run once and publish more; a dispatcher delivers each message to all importers. An
  operation is a function of what its collector has gathered; one that throws publishes what it had published before.
  The main results: `run` terminates for all operations; the collectors that have run are the least set closed under
  supply, whatever the order; every importer sees every message once and in order; every operation runs at most once,
  on the latest message of each requirement; and everything published is accounted for, delivery by delivery and in
  order.
* **Journey patching** (`JourneyModel`, `JourneyPlans`, `JourneyTheorems`, `JourneyResults`, `JourneyBoth`,
  `JourneyDetails`, `JourneyPatching`). Stops are inserted into a journey and all ranges are renumbered, those of the
  patch list being walked included. The reference is a list of plans, each of which inserts stops and legs at a place
  of the original journey. The main results: exactly when a patch list applies, exactly when the result passes the
  validity check, what covers every segment and stands at every stop afterwards, and when the bike patches still mean
  what they meant after the parking patches.
* **Trains on the map** (`TrainModel`, `TrainTheorems`, `TrainDetails`, `TrainCursor`). A cursor on polylines,
  forwards or reversed, is moved on with the time. Lengths are exact reals. The main results: an update puts the
  cursor exactly where it is due iff time was not turned back past the start of its line; over nondecreasing times it
  always does, and draws the train where a scan from the start would, and where one stands who has walked that share
  of the coordinates' way; the drawing buffer, rewritten only where a change is reported, is always up to date.
* **Departure board** (`BoardModel`, `BoardTheorems`, `BoardSearch`, `Board`). The events of a route at a stop are
  enumerated day by day, and several such streams are merged. The main results: forwards exactly the events that take
  place are listed, once and in order, if no event is past midnight, and only then is the list right or complete; a
  search ends iff it starts before its end or an event is ahead; backwards the first transport is skipped, which
  matters exactly if it has run; the merge is in order, complete and leaves nothing earlier out.
* **Polyline text** (`PolylineModel`, `PolylineTheorems`, `PolylineDetails`, `Polyline`). The encoded polyline format
  of Google, with the 32-bit arithmetic of JavaScript written out. The main results: decoding an encoded list gives
  its lattice points iff first values and differences lie in [-2^30, 2^30), and then no coordinate is off by more than
  half a unit of the last place; a number in any text, malformed or not, is known bit by bit.
* **Parking store** (`ParkingModel`, `ParkingTheorems`, `ParkingDetails`, `FootEdgeCache`, `FootEdgeRuns`, `Parking`).
  Parking lots get ids from a counter and are found again by source key; the server keeps them in a list by position.
  The main results: over all restarts, updates and updates that break off ids are permanent, sources and ids
  correspond one to one, and no lookup by key misses; lookups by id find the stored lots iff no new lot came in
  between an aborted addition of new lots and a restart, and otherwise never again; once all foot edge tasks have been
  carried out none are left, and a pair is computed again iff its stations change; after a run of updates every lot
  has its edges iff routing never failed for a new lot.
* **Trip ids** (`TripModel`, `TripTheorems`, `TripDetails`, `TripLookup`). Tags of schedules, ids made of tag and
  name, and the search for a run by id and departure. The main results: exactly when tags and ids lead back, a run is
  found iff some trip of that id departs then, and the id and time handed out for a transport find a run whatever the
  times and days iff a trip of that id has a leg on it that starts where the first leg does.
* **Shared bikes** (`GbfsModel`, `Gbfs`). The pruned loops that fill in the best journey for each target. The main
  results: each result is the minimum over all journeys on offer, with legs that add up, and is missing iff there is
  none; backwards the stations are looked at only if there is a free bike, and the result is the best exactly if that
  does not matter.
* **Message schemas** (`SchemaModel`, `SchemaSource`, `SchemaTheorems`, `SchemaReading`, `SchemaResults`, `Schema`).
  Files that include one another, and references to types. The main results: a schema resolves iff all reachable files
  exist and parse, no two types have one name and every reference is known; exactly the reachable files are read, once
  each; every reference binds to the innermost scope that has the name; a table is flagged iff something refers to it.
* **JSON messages** (`JsonModel`, `JsonTheorems`, `JsonResults`, `JsonDetails`, `FixJson`, `JsonFormats`). Type tags
  are moved out of unions and put before them. The main results: names come out distinct exactly if no union is tagged
  twice and there are no chains of tags; then everything is kept once, tags stand directly before their unions, and
  fixing again changes only the order; for whole messages, exactly when it does.
* **Polyline indices** (`RailvizIndex`) and the **registry of operations** (`Registry`, `StringOrder`). The sign of an
  index gives the direction back; a lookup finds the longest registered prefix iff no other name hides it.

The comment in `base/module/src/fix_json.cc:127` and the code differ in one place: the comment speaks of the id of the
message, but where the program wraps the root in a message, the id is written inside the content, and the message has
none (`JsonResults.WrappedHasNoId`), and changes when it is fixed again (`JsonResults.RootFixedAgainIff`).

## Model

| member | source | states |
|---|---|---|
| ImportModel.FilePublications | base/bootstrap/src/import_files.cc:52-153 | whatever files an event names, no further FileEvent is published, which termination rests on |
| ImportModel.PublishedIff | base/bootstrap/src/import_files.cc:52-153 | a path becomes an event iff it has the tag of that kind and is a file, or a directory with elevation data |
| ImportModel.PublishedInOrder | base/bootstrap/src/import_files.cc:145-153 | street data comes first, then coastlines, then elevation, each kind in the order of the paths |
| ImportDetails.FilesPublish | base/bootstrap/src/import_files.cc:52-153 | one event for each path that has the tag "osm", "coastline" or "dem" and is there, kind after kind and within a kind as the paths come, none twice |
| ImportModel.DeliverDecreases | base/module/include/motis/module/import_dispatcher.h:17-25 | delivering one message lowers (collectors not yet run, waiting FileEvents, queue length), whatever operations publish, so `run` ends |
| ImportModel.HandleProgress | base/module/src/event_collector.cc:30-84 | one importer seeing one message either starts an operation or leaves the queue alone, but for a FileEvent |
| ImportTheorems.RunAllKeeps | base/module/src/event_collector.cc:26-84 | over all runs a collector has run iff it waits for nothing, and what it has gathered is what it no longer waits for |
| ImportTheorems.RunAllBoundary | base/module/include/motis/module/import_dispatcher.h:17-25 | after any run the queue is empty and everything published has been delivered to all, in order |
| ImportTheorems.ExecutedIsLeastClosed | base/module/src/event_collector.cc:26-84 | the collectors that have run are the least set closed under "all requirements met by a message published from outside or by the set" |
| ImportTheorems.LeastForFixed | base/module/src/event_collector.cc:26-84 | if collectors publish the same whatever they gather, that least set is determined before the run |
| ImportTheorems.OrderIndependence | base/module/include/motis/module/import_dispatcher.h:13-25 | the set does not depend on subscription order, publication order or batching |
| ImportTheorems.OrderMatters | base/module/src/event_collector.cc:39-73 | where what is published depends on what was gathered, the same messages in another order let other collectors run |
| ImportHistory.EveryImporterSeesEverything | base/module/include/motis/module/import_dispatcher.h:17-25 | over all runs each importer sees each published message once, in publication order |
| ImportHistory.OperationsRunOnceOnLatest | base/module/src/event_collector.cc:49-73 | an operation runs at most once, and then on the latest delivered message that each requirement accepts |
| ImportDetails.BatchIsAccountedFor | base/module/include/motis/module/import_dispatcher.h:13-25 | a run with one more batch publishes the batch and then, delivery by delivery, just what that makes the file importer or an operation publish, in order |
| ImportEngine.EventCollector.Require | base/module/src/event_collector.cc:26-85 | adds one importer and one name to wait for; a repeated name keeps its first matcher |
| ImportEngine.EventCollector.OnMessage | base/module/src/event_collector.cc:30-84 | status requests, rejected messages and messages after the run change nothing; others are taken, and the last one starts the operation |
| ImportEngine.ImportDispatcher.Run | base/module/include/motis/module/import_dispatcher.h:17-25 | the loop that erases the front of the queue reaches the state of the function `Pump`, with an empty queue |
| ImportEngine.ImportDispatcher.CallAll | base/module/include/motis/module/import_dispatcher.h:21-23 | all importers see the message in subscription order, each in the state the one before left |
| JourneyPatching.CheckJourney | base/core/src/check_journey.cc:5-54 | the counting loops accept iff every segment has a transport, none runs backwards, and times never decrease |
| JourneyDetails.AcceptedWrittenOut | base/core/src/check_journey.cc:5-54 | what is accepted: not just one stop, transports that run forwards over every segment, and no time before an earlier one |
| JourneyPatching.UpdateIndices | modules/intermodal/src/intermodal.cc:114-132 | the renumbering loop moves exactly the ends at or behind the new stop by one |
| JourneyPatching.Journey.SplitTransport | modules/intermodal/src/intermodal.cc:101-144 | the first transport with these ends becomes two, a stop of which nothing is known is inserted, all lists and the patches are renumbered; other than unit transports are an error that changes nothing |
| JourneyPatching.Journey.GetTransport | modules/intermodal/src/intermodal.cc:156-164 | finds the first transport with these ends, or is an error |
| JourneyPatching.Journey.ApplyParkingPatch | modules/intermodal/src/intermodal.cc:172-203 | one round: which error is raised, or where the car park and the two legs come to stand, and that the patches are renumbered; what that comes to for the whole list is in the next row |
| JourneyPatching.Journey.ApplyParkingPatches | modules/intermodal/src/intermodal.cc:170-204 | the loop over a patch list it renumbers itself computes the function the theorems are about, errors included; patch c is carried out as "VIA" and c, at the given position: from a stop called "START" or "END" by car first, arriving after 60 seconds for each of the car's minutes, from any other on foot first, after those of the walk |
| JourneyPatching.Journey.ApplyStationBike | modules/intermodal/src/intermodal.cc:213-253 | one round for a station bike: two splits, two stops filled in, three transports looked up again and marked |
| JourneyPatching.Journey.ApplyFreeBike | modules/intermodal/src/intermodal.cc:260-279 | one round for a free bike |
| JourneyPatching.Journey.ApplyGbfsPatches | modules/intermodal/src/intermodal.cc:206-281 | the loop over the bike patches computes the function the theorems are about, errors included; each bike stop has the name, id and position given and the time after the walk, or walk and ride, in seconds, scheduled or not, and each leg its kind |
| JourneyPatching.LegsAreFound | modules/intermodal/src/intermodal.cc:247-252 | after two splits the lookups by number find exactly the three new transports |
| JourneyTheorems.ParkingSplitIsInsert | modules/intermodal/src/intermodal.cc:101-203 | splitting a transport and filling in the car park is inserting one planned stop and two planned legs |
| JourneyTheorems.StationBikeSplitIsInsert | modules/intermodal/src/intermodal.cc:213-253 | two splits one after the other are one insertion of two stops and three legs |
| JourneyTheorems.ParkingAppliesIff | modules/intermodal/src/intermodal.cc:146-204 | a parking list applies without error iff it has at most four patches and they name different unit transports of the original journey |
| JourneyTheorems.GbfsAppliesIff | modules/intermodal/src/intermodal.cc:156-281 | a bike list applies iff its patches name different unit transports of the original journey |
| JourneyTheorems.ParkingKeepsValidity | modules/intermodal/src/intermodal.cc:170-204 | the patched journey passes the check iff the journey did and every patch's first leg fits between its departure and arrival; one stop is added per patch |
| JourneyTheorems.GbfsKeepsValidity | modules/intermodal/src/intermodal.cc:206-281 | likewise for bikes, where walk and ride of a station bike have to fit |
| JourneyPlans.RidersAfter | modules/intermodal/src/intermodal.cc:114-132 | every segment of the patched journey has exactly the transports of the segment it came from, so coverage is kept |
| JourneyPlans.RangesAfterCover | modules/intermodal/src/intermodal.cc:120-132 | a trip, attribute, free text or problem covers a new segment iff it covered the old segment it came from |
| JourneyResults.ParkingResult | modules/intermodal/src/intermodal.cc:170-204 | after a parking list every old stop stands at its new place, every car park and both its legs stand where planned, and everything covers what it covered; the next row says what is planned |
| JourneyDetails.ParkingWrittenOut | modules/intermodal/src/intermodal.cc:146-204 | after a parking list that applies every patch is carried out so; and every stop, range and transport no patch names has moved by the number of patches before it and is otherwise as it was |
| JourneyDetails.ParkingAcceptedWrittenOut | modules/intermodal/src/intermodal.cc:146-204 | the result passes the check iff the journey did and each patch's first leg, by car from "START" or "END" and else on foot, is over by the arrival |
| JourneyResults.GbfsResult | modules/intermodal/src/intermodal.cc:206-281 | the same after a bike list |
| JourneyDetails.GbfsWrittenOut | modules/intermodal/src/intermodal.cc:206-281 | the same for a bike list that applies, where a ride between stations inserts two stops |
| JourneyDetails.GbfsAcceptedWrittenOut | modules/intermodal/src/intermodal.cc:206-281 | the result passes the check iff the journey did and in each patch walk, or walk and ride, are over by the arrival |
| JourneyResults.TargetKeptIff | modules/intermodal/src/intermodal.cc:348-349 | after the parking patches a bike patch still names its segment iff no parking patch lies before it |
| JourneyResults.BothListsKeepValidity | modules/intermodal/src/intermodal.cc:348-349 | with all bike patches before all parking patches both lists apply, and the result passes the check iff the journey did and each patch has time enough |
| JourneyResults.BikePatchGoesStale | modules/intermodal/src/intermodal.cc:348-349 | otherwise, without any error, the bike can end up on the wrong walk, though the journey was accepted and both lists name unit transports |
| JourneyPlans.UnitLands | modules/intermodal/src/intermodal.cc:101-144 | a unit transport that no patch names is still there afterwards, between its two stops |
| JourneyBoth.UnitOriginAfter | modules/intermodal/src/intermodal.cc:156-164 | after a list a lookup by number finds a unit transport iff the segment it came from had one |
| JourneyBoth.BothApplyIff | modules/intermodal/src/intermodal.cc:348-349 | both lists apply without error iff there are at most four parking patches, they name different unit transports, and the bike patches name different segments that came from such |
| JourneyBoth.BothAcceptedIff | modules/intermodal/src/intermodal.cc:348-349 | the result of both passes the check iff the journey did, every parking patch has time enough, and every bike patch has between the stops its numbers then point to |
| JourneyBoth.BothResult | modules/intermodal/src/intermodal.cc:348-349 | after both lists every segment has the cover of its origin, every old stop and car park stands at its place, every bike patch is carried out, and every parking leg no bike has taken is there |
| JourneyBoth.BikesKeepOffParking | modules/intermodal/src/intermodal.cc:348-349 | with all bike patches first no bike takes a parking leg |
| TrainCursor.PreprocessPolyline | ui/web/js/railviz/model.js:187-218 | lengths are those of the lines, offsets their running sums; no coordinates make no polyline |
| TrainCursor.Train.constructor | ui/web/js/railviz/model.js:13-39 | the polylines of signed indices are laid end to end, each with the direction its sign gives |
| TrainCursor.Train.UpdatePosition | ui/web/js/railviz/model.js:65-96 | cursor and returned flag after an update, for any time and any cursor |
| TrainCursor.Train.UpdateCurrPolyline | ui/web/js/railviz/model.js:98-114 | the loop stops at the first polyline from the current one on that has the position; another polyline starts at its first line |
| TrainCursor.Train.UpdateCurrLine | ui/web/js/railviz/model.js:116-126 | the loop stops at the first line from the current one on that has the position, or at the last |
| TrainCursor.Train.GetMercatorLine | ui/web/js/railviz/model.js:142-156 | on line l forwards coordinates l and l + 1, on a reversed polyline of n coordinates n - 1 - l and n - 2 - l; or nothing |
| TrainTheorems.LinesTile | ui/web/js/railviz/model.js:128-140 | forwards and reversed alike, each line starts where the one before ends and the last ends with its polyline |
| TrainTheorems.ResumeFinds | ui/web/js/railviz/model.js:98-126 | unless time was turned back, both searches find a place and neither clamp takes effect |
| TrainTheorems.UpdatePlacesIff | ui/web/js/railviz/model.js:65-140 | a visible update leaves a progress in [0,1] that marks exactly the arc length due iff that is not before the line the cursor was on |
| TrainTheorems.RunPlaces | ui/web/js/railviz/model.js:65-96 | over any nondecreasing times every visible update shows the train where it is due, every other hides it |
| TrainTheorems.ReportsExactlyChanges | ui/web/js/railviz/model.js:65-96 | an update returns true iff the line to draw has changed |
| TrainTheorems.UnreportedKeepsLine | ui/web/js/railviz/model.js:66-87 | an update that returns false, at any time, leaves the line drawn as it was |
| TrainTheorems.SamePoint | ui/web/js/railviz/model.js:128-156 | two cursors that mark the same arc length draw the same point, even on different lines |
| TrainTheorems.ResumedAgreesWithScan | ui/web/js/railviz/model.js:65-126 | after any run of nondecreasing times the train is drawn where a scan from the start draws it |
| TrainDetails.DrawnWhereWalked | ui/web/js/railviz/model.js:65-156 | if lengths are the distances of the coordinates, after any nondecreasing times the train is drawn on the segment, and at the share of it, that one comes to who walks along the coordinates, backwards where the polyline is reversed, for the share of the whole way that has passed of the time |
| TrainDetails.DrawnAtEnds | ui/web/js/railviz/model.js:41-156 | at its departure a train is drawn at the client's first coordinate of its first signed index, at its arrival at the last one of its last |
| TrainTheorems.TurningBackMisplaces | ui/web/js/railviz/model.js:98-126 | turning the time back leaves a progress of -0.5 on the last line |
| TrainDetails.QuotientWrittenOut | ui/web/js/railviz/model.js:79-94 | progress is the share of the line; where a line has no length it is 0, or infinite if the cursor is off its place |
| TrainCursor.Simulate | ui/web/js/railviz/model.js:65-96 | calling the method for nondecreasing times one after the other shows the train where it is due |
| TrainCursor.TrainsDrawer.Update | ui/web/js/railviz/trains.js:158-193 | positions rewritten only for trains that report a change equal a rewrite of the whole buffer: for each train both ends of its line less the anchor and the angle, or -100 four times and 0; progress is rewritten for all, -1 for those hidden |
| TrainCursor.TrainsDrawer.WritePositionToBuffer | ui/web/js/railviz/trains.js:219-241 | writes these five numbers of one train and leaves all others as they are |
| Board.StaticEvIterator.constructor | modules/nigiri/src/get_station.cc:49-67 | wherever it starts, if the search ends at all then at the first position to stop at; the events to come are those from the first one in time for the start |
| Board.StaticEvIterator.SeekNext | modules/nigiri/src/get_station.cc:76-106 | both nested loops end at the first active event in time for the start, or at the end, whenever there is one of these ahead |
| Board.StaticEvIterator.Increment | modules/nigiri/src/get_station.cc:124-127 | the events to come are those before without the first |
| BoardSearch.SearchEndsIff | modules/nigiri/src/get_station.cc:76-108 | step by step the search comes to an end iff it starts on a day not behind the end, which is tested by equality, or an active event in time is ahead |
| BoardSearch.FirstSearchEndsIff | modules/nigiri/src/get_station.cc:49-67 | if no transport runs outside the timetable, the first search ends iff it starts not behind the last day; backwards not more than a day before the first |
| BoardSearch.NeverEnds | modules/nigiri/src/get_station.cc:76-90 | a timetable of one day and a start on day 2: the search never ends |
| BoardSearch.RestKept | modules/nigiri/src/get_station.cc:76-106 | going on to the first position to stop at passes over none of the events to come |
| Board.GetEvents | modules/nigiri/src/get_station.cc:240-260 | the loop lists the merge of the iterators' events and leaves the iterators at the rest |
| Board.MinIterator | modules/nigiri/src/get_station.cc:248-254 | the first of the minimal iterators, finished ones last |
| BoardTheorems.ForwardIsComplete | modules/nigiri/src/get_station.cc:77-90 | exactly the events that take place from the start until the end day, once each and in order of time, if transports are sorted and none is past midnight at the stop; what these are is in the next row |
| BoardTheorems.ForwardEvents | modules/nigiri/src/get_station.cc:77-141 | an event is listed for a route iff it has the route's number, a transport of it that is active on the day, the minute 1440 * day + the minute of that transport at the stop, not before the start, and a day before the end |
| BoardTheorems.TruthfulIffSameDay | modules/nigiri/src/get_station.cc:108-141 | only transports that run on the day reported are listed, whatever the days of operation, iff no event is past midnight |
| BoardTheorems.CompleteIffSameDay | modules/nigiri/src/get_station.cc:77-141 | from a start everything that takes place is listed, whatever the days of operation, iff no event is past midnight, sorted or not |
| BoardTheorems.TruthfulFromIffSameDay | modules/nigiri/src/get_station.cc:77-141 | from a start only what takes place is listed iff everything is, and iff no event is past midnight |
| BoardTheorems.NightBusMisreported | modules/nigiri/src/get_station.cc:108-141 | a bus at one o'clock of the next day is listed a day late |
| BoardTheorems.BackwardSkipsFirst | modules/nigiri/src/get_station.cc:91-106 | backwards exactly the events of all transports but the first, latest first |
| BoardTheorems.BackwardEvents | modules/nigiri/src/get_station.cc:91-141 | the same backwards, not after the start, from day 0 on and without transport 0 |
| BoardTheorems.BackwardCompleteIff | modules/nigiri/src/get_station.cc:91-106 | the backward list is complete iff the first transport of the route has not run by the start |
| BoardTheorems.OnlyTransportMissed | modules/nigiri/src/get_station.cc:91-106 | a route with one transport, which has run, has an empty backward list |
| BoardTheorems.MergeInOrder | modules/nigiri/src/get_station.cc:245-260 | the merge of ordered streams is in order, and nothing left out comes before anything listed |
| BoardTheorems.MergeLength | modules/nigiri/src/get_station.cc:247-258 | as many events as asked for, or all there are |
| BoardTheorems.StreamsGivePrefixes | modules/nigiri/src/get_station.cc:247-258 | each stream gives a prefix of itself and keeps the rest |
| BoardTheorems.ListedFromPicked | modules/nigiri/src/get_station.cc:256-257 | each event listed is the next one of the stream picked for it |
| BoardTheorems.ForwardBoard | modules/nigiri/src/get_station.cc:200-260 | an event of any line that takes place from the start on is listed, unless the board is full and lists nothing later |
| BoardTheorems.ForwardBoardOnly | modules/nigiri/src/get_station.cc:200-260 | everything listed takes place from the start on and runs on its day; the next row says it in routes, transports and minutes |
| BoardTheorems.ForwardBoardWrittenOut | modules/nigiri/src/get_station.cc:200-260 | a board of several routes: nothing but events of these with the route's own number, transport and minute, in order, and what is left out is not earlier than anything on a full board |
| BoardTheorems.TruthfulBackwardIffSameDay | modules/nigiri/src/get_station.cc:91-141 | backwards only transports that run on the day reported are listed, whatever the start and the days of operation, iff no event but the first transport's is past midnight |
| BoardTheorems.BackwardBoard | modules/nigiri/src/get_station.cc:200-260 | a backward board is latest first, and an event that has taken place is listed unless it is one of the line's first transport, or the board is full and lists nothing earlier |
| BoardTheorems.BackwardBoardOnly | modules/nigiri/src/get_station.cc:200-260 | everything listed backwards has taken place, and is not of the first transport of its line |
| BoardTheorems.BackwardBoardWrittenOut | modules/nigiri/src/get_station.cc:200-260 | the same backwards |
| Polyline.EncodeNumber | ui/web/external_lib/polyline.js:48-64 | the loop writes the five-bit chunks of the zigzag number of the rounded difference |
| Polyline.EncodePolyline | ui/web/external_lib/polyline.js:132-145 | the text of the differences of all points; PolylineDetails says which characters these are, and that a unit is 0.00001 without a precision |
| Polyline.ReadNumber | ui/web/external_lib/polyline.js:96-106 | the inner loop reads one number of any text and stops behind it |
| Polyline.DecodePolyline | ui/web/external_lib/polyline.js:76-122 | the points of any text, malformed ones included; PolylineDetails says which numbers are read and what a coordinate comes to |
| PolylineTheorems.ReadsChunks | ui/web/external_lib/polyline.js:57-104 | the chunks of a number are read back as that number and nothing behind them is read |
| PolylineTheorems.LatticeRoundTripIff | ui/web/external_lib/polyline.js:48-145 | lattice points survive encoding and decoding iff first values and differences lie in [-2^30, 2^30) |
| PolylineTheorems.TooFarIsZero | ui/web/external_lib/polyline.js:43-63 | a first value of 2^30 is written and read as 0 |
| PolylineTheorems.RoundTripIff | ui/web/external_lib/polyline.js:43-145 | the same for coordinates of any precision: exactly the rounded points come back |
| PolylineTheorems.NoDrift | ui/web/external_lib/polyline.js:43-145 | then no decoded coordinate is off by more than half a unit, which is one divided by the factor, however long the list; PolylineDetails shows that the factor is the power of ten |
| PolylineTheorems.Reencodes | ui/web/external_lib/polyline.js:76-145 | encoding what was decoded gives the same text |
| PolylineTheorems.DecodedDeltasFit | ui/web/external_lib/polyline.js:91-119 | no text decodes to points further apart than that |
| PolylineDetails.Pow10Sum | ui/web/external_lib/polyline.js:86 | powers of ten, positive or negative: 10 for 1, and for a sum the product |
| PolylineDetails.FactorWrittenOut | ui/web/external_lib/polyline.js:135 | the factor is 100000 without a precision, and 1000000 for six digits |
| PolylineDetails.FiveDigits | ui/web/external_lib/polyline.js:76-145 | encoded and decoded without a precision no coordinate is off by more than 0.000005 |
| PolylineDetails.DecodedValue | ui/web/external_lib/polyline.js:113-119 | a decoded coordinate times the factor is the sum of the differences |
| PolylineDetails.LatticeWrittenOut | ui/web/external_lib/polyline.js:43-46 | rounding is to the next integer, halves away from zero |
| PolylineDetails.ChunksWrittenOut | ui/web/external_lib/polyline.js:57-64 | the characters of a number: five bits each from the lowest on, 32 more for all but the last, and 63; as few as it takes |
| PolylineDetails.TextWrittenOut | ui/web/external_lib/polyline.js:132-145 | each point adds the characters of its latitude less the one before, then of its longitude |
| PolylineDetails.KnownText | ui/web/external_lib/polyline.js:132-145 | the point (38.5, -120.2) of the format's own example has its ten characters |
| PolylineDetails.NumberWrittenOut | ui/web/external_lib/polyline.js:88-111 | a number in any text: read up to the first character below 95 or the end; bit k is set iff one of the characters read has the bit that its shift, of which only the rest by 32 counts, puts there; the last bit is the sign |
| Parking.Database.constructor | modules/parking/src/database.cc:75-95 | the highest id is the last key of the table |
| Parking.Database.AddParkingLots | modules/parking/src/database.cc:125-166 | known lots get their id and unknown ones the next, in place; the tables, the counter and the indices of the new lots; just the lots whose key is in no table and was not met before are stored, unchanged but for the id, and each key leads to the id given; if an exception comes, the tables are as before and the counter is not |
| Parking.Database.GetParkingLots | modules/parking/src/database.cc:168-182 | the cursor visits all lots, by ascending id, gaps or not |
| Parking.Database.GetFootEdgeTasks | modules/parking/src/database.cc:184-216 | one task for each pair of profile and lot that is not cached, in order, with the stations that profile reaches from the lot |
| Parking.Parkings.constructor | modules/parking/src/parkings.cc:10-19 | the list has all lots of the tables by ascending id and the keys of the key table |
| Parking.Parkings.GetParkings | modules/parking/src/parkings.cc:26-37 | of the lots in the radius exactly those that are not unavailable, in the same order |
| Parking.ParkingServer.UpdateParkendd | modules/parking/src/parking.cc:204-232 | list and tables stay together even if an endpoint, the database or the routing fails, and without gaps if the database does not; after a complete update exactly the lots are unavailable that some answer has as closed or with no free space, a broken one changes none of that |
| Parking.ParkingServer.TakeIn | modules/parking/src/parking.cc:209-225 | unless the database breaks off every lot of the answer is known by its key afterwards, so the lookups that follow never miss, and the tables are those of the turn the theorems on foot edges are about |
| Parking.ParkingServer.AddLots | modules/parking/src/parking.cc:213-220 | tables and list after a batch are those of the step the theorems are about, whole or broken off; the lots seen for the first time are stored with the position and key of the answer |
| Parking.ParkingServer.UnusableIds | modules/parking/src/parking.cc:226-231 | the ids of exactly the lots that are not usable |
| Parking.ComputeEdges | modules/parking/src/foot_edges.cc:87-147 | one edge for every route of every station, in order, with the station's id and distance and the route's duration, accessibility and length; the way there is the way back unless in exact mode; stored under the lot's id, a colon and the profile, and nothing else changed |
| ParkingTheorems.AddKeepsSound | modules/parking/src/database.cc:125-166 | ids stay exactly 1..highest, lots and keys one to one, and nothing known changes |
| ParkingTheorems.IdsIdentifySources | modules/parking/src/database.cc:39-56 | two sources have one id iff they are the same lot of the same source |
| ParkingTheorems.AssignedIsFound | modules/parking/src/database.cc:139-161 | the id given to a lot is the one its key leads to, also for lots named twice |
| ParkingTheorems.NewLotsAreNext | modules/parking/src/database.cc:145-160 | the new lots of a batch have the ids after the highest, in order |
| ParkingDetails.BatchWrittenOut | modules/parking/src/database.cc:125-166 | what a batch leaves: the lots not met before, with the next ids, found under "n:", "w:" or "r:" and the number, or the key; nothing else is new |
| ParkingTheorems.AbortSoundIff | modules/parking/src/database.cc:145-164 | an exception that undoes the transaction but not the counter leaves ids dense up to the counter iff no new lot had come |
| ParkingTheorems.RunKeepsConsistent | modules/parking/src/parking.cc:209-232 | over any sequence of restarts and updates that do not break off each lot stands at its place in the list, and no id or key is lost or changed |
| ParkingTheorems.RunKeepsLinked | modules/parking/src/parking.cc:209-232 | over any sequence of restarts, updates and updates that break off the list has all lots by ascending id, ids and keys belong together, and none is lost or changed |
| ParkingTheorems.RunFromEmpty | modules/parking/src/parking.cc:209-232 | from an empty server on list and tables stay together whatever happens, and each lot stands at its place if no addition breaks off |
| ParkingTheorems.StepAheadIff | modules/parking/src/database.cc:145-164 | the counter gets ahead exactly when an addition with a new lot breaks off, and a restart or the next new lot ends that |
| ParkingTheorems.StepKeepsConsistent | modules/parking/src/database.cc:86-92 | a restart right after an addition that broke off makes everything consistent again |
| ParkingTheorems.RunGaplessIff | modules/parking/src/database.cc:145-160 | ids are without gap after a run iff no new lot came in while the counter was ahead; a gap stays for ever |
| ParkingTheorems.LookupsRightIff | modules/parking/src/parkings.cc:39-46 | all lookups by id are right iff ids have no gap; a lot above a gap is not found under its id |
| ParkingTheorems.GapIsForEver | modules/parking/src/parkings.cc:39-46 | after an addition with a new lot that broke off and a batch with a new lot, that lot is never found under its id, restarts included |
| ParkingTheorems.SecondLotIsLost | modules/parking/src/parkings.cc:39-46 | from an empty server: lot number 2 is stored, number 2 finds nothing, and number 1 finds lot number 2 |
| ParkingTheorems.GetParkingIsStored | modules/parking/src/parkings.cc:39-46 | after any run each lookup by id finds just the stored lot of that id iff no new lot came in while the counter was ahead |
| ParkingTheorems.KeyNeverMisses | modules/parking/src/parkings.cc:60-63 | a key received once leads to the same id ever after, also when updates break off, and that id to the lot of that key |
| ParkingTheorems.OsmKeyInjective | modules/parking/src/database.cc:39-51 | keys are equal iff type and number are |
| ParkingDetails.DecimalNatReads | modules/parking/src/database.cc:34-51 | numbers in keys are digits without leading zeros that stand for the number |
| ParkingDetails.KeysWrittenOut | modules/parking/src/database.cc:34-65 | the keys of lots, edges and station lists, character by character |
| FootEdgeCache.EdgesKeyInjective | modules/parking/src/database.cc:34-37 | keys are equal iff lot and profile are, whatever characters the profile name has |
| FootEdgeCache.SerializedAllInjective | modules/parking/src/database.cc:58-65 | stored lists are equal iff the stations are, for ids without a bar |
| FootEdgeCache.BarConfuses | modules/parking/src/database.cc:58-65 | with a bar in an id one station passes for two |
| FootEdgeCache.NoTasksRemain | modules/parking/src/database.cc:184-216 | once the tasks have been carried out, in any order, asking again gives none |
| FootEdgeCache.RecomputedIffStationsChange | modules/parking/src/database.cc:198-212 | later a pair is computed again iff other station ids are in reach, or in another order |
| FootEdgeRuns.RunCachedIff | modules/parking/src/parking.cc:209-226 | after a run of restarts and updates, whole or broken off, every known lot has its edges for every profile iff all had before and no update with a new lot failed in routing |
| FootEdgeRuns.KnownForEver | modules/parking/src/parking.cc:215-225 | as tasks are asked for new lots only, a known lot has its edges iff it had them when it came to be known |
| FootEdgeRuns.LotWithoutEdges | modules/parking/src/parking.cc:215-225 | one lot and routing that fails at once: the lot is known and never gets its edges |
| TripLookup.TagLookup.Add | modules/nigiri/src/tag_lookup.cc:10-14 | what is stored, and that nothing is if the check fails |
| TripTheorems.TagsAcceptedIff | modules/nigiri/src/tag_lookup.cc:10-14 | a list of tags is accepted iff all but the last are different: a repeated tag is noticed only by the next |
| TripTheorems.TagsRoundTripIff | modules/nigiri/src/tag_lookup.cc:10-23 | tags lead back to their sources iff they are all different |
| TripTheorems.RepeatedTagAccepted | modules/nigiri/src/tag_lookup.cc:10-14 | one tag for two schedules is accepted and leads to the first |
| TripTheorems.SplitsBackIff | modules/nigiri/src/location.cc:22-29 | an id splits into the tag and the name it was made of iff the tag's only underscore is its last character, or there is neither tag nor underscore |
| TripTheorems.TagIsCut | modules/nigiri/src/location.cc:22-29 | a tag with another underscore is cut at that |
| TripTheorems.StationIdLeadsBackIff | modules/nigiri/src/location.cc:13-35 | a station's id leads back to its source and name iff the tag ends in its only underscore, or there is neither tag nor underscore and the empty tag belongs to the source |
| TripDetails.IdReadsIff | modules/nigiri/src/location.cc:22-35 | an id is cut behind its first underscore; a tag that is not known stands for source 255 |
| TripLookup.TagLookup.FindSrc | modules/nigiri/src/tag_lookup.cc:16-19 | the source of a tag, the invalid one if it was never added |
| TripLookup.LowerBound | modules/nigiri/src/resolve_run.cc:23-30 | the binary search finds the first row that is not less |
| TripDetails.TableOrderWrittenOut | modules/nigiri/src/resolve_run.cc:23-30 | the table is ordered by source and then by name, at the first character that differs |
| TripLookup.RunOfTrip | modules/nigiri/src/resolve_run.cc:39-55 | the loop over a trip's legs finds a run iff one departs at exactly that minute |
| TripLookup.ResolveRun | modules/nigiri/src/resolve_run.cc:15-59 | a run is found iff a trip of the source and name the id is cut into has a leg that departs in that minute, the seconds given divided by 60, which is (1440 * day + minute of the day) for a day it runs, and before 1970 only at midnight; it is the run of such a leg |
| TripTheorems.OneDayTried | modules/nigiri/src/resolve_run.cc:41-44 | the only day tried is the only one that can be right, also for departures past midnight |
| TripTheorems.BeforeEpochMissed | modules/nigiri/src/resolve_run.cc:20-22 | a departure a minute after midnight of the last day of 1969 is looked for on the wrong day |
| TripDetails.FindsMeant | modules/nigiri/src/resolve_run.cc:15-59 | what is searched for is what is meant by the characters of the id and the seconds |
| TripDetails.ExternTripWrittenOut | modules/nigiri/src/extern_trip.cc:24-53 | the id handed out is the tag and the name, the time 60 times the minute since 1970 at the first leg's stop |
| TripTheorems.ExternTripResolves | modules/nigiri/src/extern_trip.cc:24-53 | id and departure handed out for a transport lead back to id and minute and, except before 1970, find a run, if a trip of that id has a leg on the transport that starts where the first leg does |
| TripTheorems.ExternTripResolvesIff | modules/nigiri/src/extern_trip.cc:24-53 | what is handed out for a transport leads back on whatever days and at whatever times, as long as these do not run backwards, iff some trip of that id has such a leg |
| TripTheorems.ExternTripTimeIff | modules/nigiri/src/extern_trip.cc:24-47 | the time handed out, taken from the first leg's stop, is the departure of the leg on that transport iff both stops have the same time |
| TripTheorems.OtherStopIsMissed | modules/nigiri/src/extern_trip.cc:24-47 | a trip whose second leg starts one stop later: what is handed out for the second transport finds nothing |
| Gbfs.FreeBikesForward | modules/gbfs/src/gbfs.cc:431-468 | each target has the best of all free bikes |
| Gbfs.StationsForward | modules/gbfs/src/gbfs.cc:470-524 | and then of all pairs of stations, though rows out of reach are skipped |
| Gbfs.FreeBikesBackward | modules/gbfs/src/gbfs.cc:551-585 | the same backwards, where only stations of public transport are served |
| Gbfs.StationsBackward | modules/gbfs/src/gbfs.cc:587-645 | and for pairs of stations, where one without bikes is skipped |
| Gbfs.BestJourneys | modules/gbfs/src/gbfs.cc:397-646 | all loops together, with the guards that skip them: for each target the shortest of the journeys whose legs stand in the tables at these rows and columns, within the limits |
| GbfsModel.ResultIsBestIff | modules/gbfs/src/gbfs.cc:587-589 | the result is the minimum over everything on offer iff there is a free bike, or the search is forward, or no station has a journey to offer |
| GbfsModel.ResultWrittenOut | modules/gbfs/src/gbfs.cc:397-646 | the result is a journey of the tables, legs at row times columns plus column, 3 minutes for the bike added, walks and ride within their limits, and none such is shorter; or 65535 and none |
| GbfsModel.StationMissed | modules/gbfs/src/gbfs.cc:587-589 | backward, with one bike at a station and no free bike, the journey of seven minutes is not found |
| GbfsModel.InvalidIff | modules/gbfs/src/gbfs.cc:68-72 | no journey is found iff none below the largest duration is on offer |
| GbfsModel.LegsAddUp | modules/gbfs/src/gbfs.cc:457-646 | the legs recompute to the total; backwards with a free bike nothing is added for getting it ready |
| GbfsModel.SkipRow | modules/gbfs/src/gbfs.cc:483-486 | a station too far away offers nothing, so skipping its row loses nothing |
| GbfsModel.InTable | modules/gbfs/src/gbfs.cc:451-500 | reads of row-major tables stay in bounds |
| Schema.Resolver.ResolveFile | tools/protocol/src/schema/resolver.ts:49-77 | ends on any include graph; what it adds is reachable, closed and extracted once, included files first; it fails for a reachable file that is missing or does not parse, or for a name declared twice |
| Schema.Resolver.ExtractTypes | tools/protocol/src/schema/resolver.ts:115-199 | the types of one file are added in order, and the last root type kept, iff no name is declared twice; otherwise the name reported is; each declaration is there under the namespace named last before it and its name, joined by dots, with its kind and every reference as written |
| Schema.Resolver.ResolveType | tools/protocol/src/schema/resolver.ts:201-216 | the loop over shorter and shorter prefixes binds as the function does |
| Schema.Resolver.ResolveTypes | tools/protocol/src/schema/resolver.ts:248-278 | succeeds iff every reference is known; then each is bound and a table is flagged iff something refers to it |
| Schema.ResolveSchemaTypes | tools/protocol/src/schema/resolver.ts:26-47 | succeeds iff every reachable file exists and parses, no two declarations in them have one name, and every reference and the root type are known; then exactly these files are read, once each; the keys are just the namespaces and names declared, joined by dots; each type is of the kind declared, each reference is as written, in its namespace, and bound to the innermost scope; and a table is flagged iff some reference, or the root type, leads to it |
| SchemaResults.ReadIntoHas | tools/protocol/src/schema/resolver.ts:115-199 | when the reachable files have been read, the keys are those of the declarations, and each declaration is there as read |
| SchemaResults.NamesDifferIff | tools/protocol/src/schema/resolver.ts:83-88 | no name clashes iff the namespaces and names declared, joined by dots, all differ |
| SchemaResults.RootIsLast | tools/protocol/src/schema/resolver.ts:191-194 | the root type is the one named last, as written, in the namespace in force there |
| SchemaResults.FinishedStands | tools/protocol/src/schema/resolver.ts:201-278 | a schema in which all is done stands as the source asks for it: shape of fields, references, bindings and flags |
| SchemaTheorems.BindsInnermost | tools/protocol/src/schema/resolver.ts:201-216 | a reference binds to the longest namespace prefix that has the name, and to none iff there is none |
| SchemaTheorems.JoinInjective | tools/protocol/src/schema/resolver.ts:83-88 | joined names are equal iff their parts are |
| SchemaTheorems.SlotStep | tools/protocol/src/schema/resolver.ts:218-246 | resolving one reference fails iff it is unknown, and changes only it and the flag of the table it leads to |
| SchemaTheorems.AllDoneFinished | tools/protocol/src/schema/resolver.ts:248-278 | when all references are done and the root type is marked, every type is as it should be |
| JsonTheorems.KeysDistinctIff | base/module/src/fix_json.cc:88-126 | every name is written once iff no union is tagged both beside and inside and no x_type_type stands besides x_type and x |
| JsonTheorems.TaggedTwiceIsWrittenTwice | base/module/src/fix_json.cc:67-110 | a union tagged beside it and inside it gets its tag twice |
| JsonResults.MembersKept | base/module/src/fix_json.cc:67-126 | exactly what is due is written: every member under its name, a `_type` under the name of the member it was in, each once |
| JsonResults.TagsBeforeUnions | base/module/src/fix_json.cc:67-126 | wherever tag and union are both written, the tag stands directly before the union |
| JsonDetails.ObjectWrittenOut | base/module/src/fix_json.cc:67-126 | an object becomes exactly: every member but "_type" under its name, and a "_type" inside a member under that name and "_type"; no name twice, and a name with "_type" behind it directly before that name |
| JsonDetails.CleanWrittenOut | base/module/src/fix_json.cc:67-126 | the objects this is said of: names not empty and different, no union tagged beside and inside, no chain of tags |
| JsonDetails.RootWrittenOut | base/module/src/fix_json.cc:48-66 | an object is wrapped iff it has no member "destination" or none "content"; then it becomes the content, with a "_type" it had before it and the target given as destination; in any case it has an id |
| JsonResults.FixingAgain | base/module/src/fix_json.cc:38-152 | fixing what has been fixed changes nothing but the order of members, at any depth |
| JsonResults.MessageFixedAgain | base/module/src/fix_json.cc:50-66 | a message with destination, content and id is only fixed inside, and stays the same but for the order when fixed again |
| JsonResults.RootFixedAgainIff | base/module/src/fix_json.cc:50-152 | fixing what has been fixed changes nothing but the order iff it was no object, or a message that has an id or whose added id makes no chain of tags |
| JsonResults.FixedThriceIff | base/module/src/fix_json.cc:50-152 | from the second fixing on only the order changes iff it was no object, or has an id, or the id added makes no chain of tags |
| JsonResults.WrappedChanges | base/module/src/fix_json.cc:54-66 | an object that was wrapped changes when it is fixed again, and then no more |
| JsonResults.IdChainChanges | base/module/src/fix_json.cc:88-132 | a message with id_type and id_type_type and no id changes every time |
| JsonResults.WrappedHasNoId | base/module/src/fix_json.cc:54-66 | anything else becomes the content of a message that has no id itself |
| FixJson.JsonConverter.Fix | base/module/src/fix_json.cc:25-66 | the tokens written are those of the fixed message; both format flags exactly |
| JsonFormats.MovesIff | base/module/src/fix_json.cc:25-36 | the flag that tells the format is set iff some object that stands under a name has a `_type`, though members are visited in two passes |
| JsonFormats.ConvertMessage | base/module/src/fix_json.cc:160-178 | the tokens are those of that message; the format is "content only" iff it was wrapped, else "types in unions" iff some object under a name has a "_type" |
| FixJson.JsonConverter.WriteObject | base/module/src/fix_json.cc:88-135 | the two passes with the set of written names write the fixed object |
| FixJson.JsonConverter.WriteKey | base/module/src/fix_json.cc:67-85 | the name, and before it the tag found inside |
| RailvizIndex.CreateResponse | modules/nigiri/src/railviz.cc:276-302 | indices are in range and not zero; a positive one has the polyline from the run's first stop to its last, a negative one the reverse; two runs have the same polyline iff they have the same two stops, in whatever order, and every polyline but the placeholder is some run's |
| RailvizIndex.SignedIndexLeadsAlong | ui/web/js/railviz/model.js:30-51 | first and last coordinate, as the client computes them from magnitude and sign, are those of the run's stops |
| Registry.Registry.GetOperation | base/module/src/registry.cc:81-89 | what is found is the operation of the longest registered prefix; an exact name is always found; in a prefix-free set any prefix is |
| Registry.Registry.GetRemoteOp | base/module/src/registry.cc:69-79 | the same for remote operations |
| Registry.LongestFoundIff | base/module/src/registry.cc:81-89 | the longest registered prefix is found iff no name that extends it lies before the target |
| Registry.PrefixHidden | base/module/src/registry.cc:81-89 | with "/a" and "/ab" registered, "/ac" finds nothing |
| StringOrder.LessIff | base/module/src/registry.cc:82-85 | names are ordered by the first character that differs, a proper prefix first |
| Registry.BetweenHasPrefix | base/module/src/registry.cc:82-85 | whatever lies between a prefix of the target and the target starts with that prefix |
| Registry.Registry.RegisterOp | base/module/src/registry.cc:14-21 | a name registered twice is an error and keeps its first operation |
| Registry.Registry.RegisterRemoteOps | base/module/src/registry.cc:50-60 | names taken by others are left alone, and exactly the names newly taken are returned, once each |
| Registry.Registry.ConnectAndDisconnect | base/module/src/registry.cc:50-67 | registering names and unregistering those returned leaves the operations as they were |

## Left out

- HTTP, websockets, files, LMDB and flatbuffers: messages are values, tables are maps, and a transaction is one step.
- Floating point: lengths, coordinates and times of the map are exact reals; lattice points and minutes are integers; NaN appears only where an undefined division or character read is part of the logic.
- Progress trackers, log files and timing in the import engine, and operations that never return.
- The dispatch of real GTFS data, routing engines, r-trees, tiles and the parser of schema files.
- Fields of stops, transports and lots that are only copied; they stand behind one string or are not modelled.
- JourneyPatching.Journey.ApplyParkingPatches: does not say in which state a journey is left by an error, because the caller drops it with the request.
- JourneyPatching.Journey.ApplyGbfsPatches: likewise.
- JourneyPatching.CheckJourney: does not report which segment or stop is at fault; and transports have to end at a stop, as the program does not check its indices either.
- TrainCursor.Train.constructor: leaves out polylines with a single coordinate and trains that arrive when they depart, for which the program divides by zero or reads lines that are not there.
- TrainCursor.TrainsDrawer.Update: takes the anchor as given; how it is computed from the ends of all trains is not modelled.
- BoardTheorems.ForwardBoard: is stated for timetable lines; for transports known in real time only, the general theorems on the merge hold.
- How the departure board finds the routes and stops of a station, and the wrap-around of day numbers outside the timetable.
- Board.StaticEvIterator.Increment: is stated for iterators that are not past their end; one that has found an event behind its end goes on as `BoardSearch.SearchEndsIff` says.
- Parking.Database.AddParkingLots: ids are unbounded; the 32 bits of the program's counter are not modelled.
- FootEdgeRuns.RunCachedIff: takes profiles and stations as the same during the run, and leaves out the import, which asks for the edges of all lots of the street data.
- The parsing of ParkenDD answers, the distances to lots, and edges by car.
- TripTheorems.ExternTripResolves: does not cover stations, train number and line of the trip, which the search ignores.
- GbfsModel.LegsAddUp: durations are unbounded; costs that do not fit 16 bits are cut off by the program.
- How free bikes and stations near a place are found, and the messages built from the best journeys.
- Schema.Resolver.ResolveFile: takes include paths as already resolved; one file under two paths counts as two.
- Schema.Resolver.ExtractTypes: leaves out enum values, default values and metadata, which are only copied.
- FixJson.JsonConverter.Fix: members with an empty name are excluded, because the program writes their values without a name.
- FixJson.JsonConverter.WriteObject: likewise.
- The text form of numbers and strings in JSON.
- RailvizIndex.CreateResponse: leaves out the text form of the two coordinates; the library that encodes them is not part of this model.
- Client handlers, topics and access rights of the registry, and the locks.
