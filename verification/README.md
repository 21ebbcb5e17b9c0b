# Vehicle catalogue and documentation tools: a Dafny model

This project models the sequential core of a small vehicle-management
application together with the three Python tools that ship beside it.

**The vehicle family.** `Vehicle` with its subclasses `Car`, `Bike`,
`Truck` and `Motorcycle` is one datatype with four constructors
(`vehicles.dfy`). The other pieces of the family are:

- `Truck.toggleTrailer`, the one mutator among them, is a class with a
  `hasTrailer` field (`trucks.dfy`).
- `DrivableCar`, a car with a speed counter, is a class whose
  `currentSpeed` field is changed by `accelerate` and `brake`
  (`drivable_car.dfy`).

**The in-memory catalogue.** `VehicleDatabase` is a class whose
`vehicles` field is a sequence. The methods reassign it as the Java list
is mutated (`vehicle_database.dfy`). Its queries are specified by the
functions of `catalogue.dfy`.

**The JSON-like snapshot.** The hand-written writer and reader are
functions between a vehicle list and a string (`snapshot.dfy`). Their
round trip, their skip rules and their lossy cases are proved in
`snapshot_proofs.dfy`.

**Around the catalogue:**

- `VehicleDatabaseRepository` is a class that delegates to a shared
  database (`repository.dfy`).
- The JDBC data-access object keeps its table as a map from id to a row
  of optional columns (`dao_jdbc.dfy`). The row it writes for a
  motorcycle leaves the category column NULL, so that category is lost on
  the way back (see "## Findings").
- `VehicleService` delegates to either backend and adds `filterVehicles`
  (`service.dfy`).
- The HTTP server's request logic covers reserved path segments, form
  parsing, parameter decoding, list filters and JSON output
  (`web_text.dfy`, `web.dfy`).

**Java text operations** live in `javatext.dfy`: `toLowerCase`, `trim`,
`contains`, `indexOf`, `split` and `String.join`. `Integer.parseInt` and
`Integer.toString` live in `decimal.dfy`.

**The Python tools:**

- `parse_markdown` is shared by both slide generators (`md_slides.dfy`).
- `wrap_text` is in `wrap.dfy`.
- The argument check and output path of the command-line generator are
  in `md_arg.dfy`.
- The fenced-code-block numberer is in `md_numbering.dfy`.
- `str.strip` and `str.splitlines` are in `pytext.dfy`.

**Values that cannot be null.** Java `null` is `Option` wherever a value
can be null: brand, model, fuel type and category read back from a
snapshot or a NULL column. An id is a string. No file of the repository
generates ids; where the code passes no id or a null one (a snapshot
record without an "id" key), the model takes the id as a parameter.

**Integers.** Java `int` fields are the subset type `Int32`.
`Integer.parseInt` yields `None` where Java throws
`NumberFormatException`.

**Truck payload.** The payload is a `double` in Java. Here it is a
`real`, and `Double.toString`/`Double.parseDouble` are a pair of
functions passed in (`DoubleText`).

**Exceptions and I/O.** Exceptions that the source lets escape are
`Result`/`Option` error values. File contents and HTTP requests come in
as parameters.

## Model

| member | source | states |
|---|---|---|
| Vehicles.TypeName | src/data/VehicleDatabase.java:169 | the simple class name written as the type discriminator is one of the four variant names |
| Vehicles.TypeNameDetermines | src/services/VehicleService.java:36 | two vehicles have the same class name, also when compared ignoring case, exactly when they are the same variant |
| Vehicles.JpaDiscriminator | src/models/Truck.java:10-11 | only Truck and Motorcycle carry a discriminator value ("TRUCK", "MOTORCYCLE"), equal to the class name ignoring case |
| Vehicles.MaxSpeed | src/models/Car.java:27-29 | getMaxSpeed is 250 for every car, 300 for every bike (Bike.java:27-29), 180 for every truck (Truck.java:44-47), whatever the fields |
| Vehicles.ToggleTrailer | src/models/Truck.java:57-60 | toggling negates hasTrailer and leaves every other field unchanged |
| Vehicles.ToggleTrailerTwice | src/models/Truck.java:57-60 | toggling twice restores the truck |
| Trucks.Truck.constructor | src/models/Truck.java:21-32 | the six-argument constructor stores the supplied id and every field |
| Trucks.Truck.ToggleTrailer | src/models/Truck.java:57-60 | the new truck value is the toggled old one: hasTrailer negated, nothing else changed |
| DrivableCars.DrivableCar.constructor | src/models/DrivableCar.java:9-15 | all fields, id included, go to the underlying car, and the speed starts at 0 |
| DrivableCars.DrivableCar.Accelerate | src/models/DrivableCar.java:17-23 | adds 20 exactly when the speed is below 250; keeps the speed invariant (0..260, a multiple of 20) |
| DrivableCars.DrivableCar.Brake | src/models/DrivableCar.java:25-31 | subtracts 20 exactly when the speed is above 0; keeps the speed invariant |
| DrivableCars.DrivableCar.TurnLeft | src/models/DrivableCar.java:33-36 | turning does not change the speed |
| DrivableCars.DrivableCar.TurnRight | src/models/DrivableCar.java:38-41 | turning does not change the speed |
| DrivableCars.DrivableCar.GetCurrentSpeed | src/models/DrivableCar.java:43-45 | returns the speed, which is always between 0 and 260 and a multiple of 20 |
| DrivableCars.DriveKeepsSpeedOk | src/models/DrivableCar.java:17-41 | any sequence of accelerate, brake and turn commands keeps the speed invariant |
| DrivableCars.AccelerateSaturates | src/models/DrivableCar.java:17-23 | n accelerations from a valid speed reach min(speed + 20n, 260) |
| DrivableCars.BrakeStops | src/models/DrivableCar.java:25-31 | n brakings from a valid speed reach max(speed - 20n, 0) |
| Catalogue.WhereMembers | src/data/VehicleDatabase.java:84-99 | a stream filter keeps exactly the elements that pass the test, and keeps everything when all pass |
| Catalogue.WhereAppend | src/data/VehicleDatabase.java:84-99 | filtering distributes over concatenation, so order is preserved |
| Catalogue.WhereShrinks | src/data/VehicleDatabase.java:29-31 | filtering shortens the list exactly when some element fails the test |
| Catalogue.RemoveAllReports | src/data/VehicleDatabase.java:29-31 | removeIf by id keeps exactly the other vehicles, shortens the list iff the id occurred, and is the identity otherwise |
| Catalogue.FirstIndex | src/data/VehicleDatabase.java:37-43 | the index found holds the id and no earlier index does; None exactly when no vehicle has the id |
| Catalogue.UpdateFirst | src/data/VehicleDatabase.java:36-44 | the first vehicle with the id is replaced at the same index and nothing else changes; with no match the list is unchanged |
| Catalogue.FindById | src/data/VehicleDatabase.java:266-268 | returns the first vehicle of the list with that id, and None exactly when none has it |
| Catalogue.FindAfterUpdate | src/data/VehicleDatabase.java:36-44 | after an update, looking the id up gives the new vehicle |
| Catalogue.FindOtherAfterUpdate | src/data/VehicleDatabase.java:36-44 | an update changes no other id's lookup |
| Catalogue.FindAfterRemove | src/data/VehicleDatabase.java:29-31 | after a removal the id is no longer found |
| Catalogue.BrandFilterMembers | src/data/VehicleDatabase.java:84-90 | the brand filter keeps exactly the vehicles whose lower-cased brand contains the trimmed, lower-cased query; a null or blank query keeps all |
| Catalogue.NullBrandOnlyForBlankQuery | src/data/VehicleDatabase.java:84-90 | a vehicle with a null brand is kept exactly when the query is null or blank |
| Catalogue.BrandFilterIgnoresCase | src/data/VehicleDatabase.java:84-90 | two queries that agree after trim and lower-casing select the same vehicles |
| Catalogue.HarleyMatches | src/test/BrandFilterTestRunner.java:10-27 | "harley" is contained in both Harley spellings of the test catalogue, not in Honda |
| Catalogue.HonMatches | src/test/BrandFilterTestRunner.java:10-27 | "hon" is contained in Honda only |
| Catalogue.BrandFilterHarley | src/test/VehicleDatabaseBrandFilterTest.java:11-18 | filtering the test catalogue by "harley" gives the two Harley cars, in catalogue order |
| Catalogue.BrandFilterHon | src/test/BrandFilterTestRunner.java:10-27 | filtering the test catalogue by "hon" gives the Honda alone |
| Catalogue.YearFilterMembers | src/data/VehicleDatabase.java:95-99 | the year filter keeps exactly the vehicles of that year |
| Catalogue.GroupByBrandFails | src/data/VehicleDatabase.java:121-124 | grouping fails (NullPointerException) exactly when some brand is null |
| Catalogue.GroupByBrandKeys | src/data/VehicleDatabase.java:121-124 | the group keys are exactly the brands that occur |
| Catalogue.GroupByBrandLists | src/data/VehicleDatabase.java:121-124 | each group is the order-preserving list of the vehicles of that brand |
| Catalogue.GroupByBrandSpec | src/data/VehicleDatabase.java:121-124 | groupingBy in one statement: failure iff a null brand, keys are the brands, groups are the vehicles of each brand in order |
| Database.VehicleDatabase.constructor | src/data/VehicleDatabase.java:15-17 | a new catalogue is empty |
| Database.VehicleDatabase.AddVehicle | src/data/VehicleDatabase.java:22-24 | appends at the end without checking for a duplicate id |
| Database.VehicleDatabase.RemoveVehicleById | src/data/VehicleDatabase.java:29-31 | removes every vehicle with the id and keeps the others in order; returns true iff one was removed |
| Database.VehicleDatabase.UpdateVehicle | src/data/VehicleDatabase.java:36-44 | the loop replaces the first match in place and returns true; with no match it returns false and the list is unchanged |
| Database.VehicleDatabase.ReplaceVehicleById | src/data/VehicleDatabase.java:49-53 | removes every vehicle with the id, then always appends the new one; returns whether a removal happened |
| Database.VehicleDatabase.UpdateVehiclePreserveId | src/data/VehicleDatabase.java:58-60 | acts exactly as updateVehicle |
| Database.VehicleDatabase.GetAllVehicles | src/data/VehicleDatabase.java:65-67 | returns the list as a value, so later changes to the result cannot reach the catalogue |
| Database.VehicleDatabase.GetVehiclesByBrand | src/data/VehicleDatabase.java:84-90 | returns exactly the matching vehicles in catalogue order, or all of them for a null or blank query |
| Database.VehicleDatabase.FilterByBrand | src/data/VehicleDatabase.java:104-106 | is the same brand filter |
| Database.VehicleDatabase.GetVehiclesByYear | src/data/VehicleDatabase.java:95-99 | returns exactly the vehicles of that year in order |
| Database.VehicleDatabase.GroupByBrand | src/data/VehicleDatabase.java:121-124 | fails iff a brand is null; otherwise the keys are the brands and each group is the vehicles of that brand in order |
| Database.VehicleDatabase.GetVehicleById | src/data/VehicleDatabase.java:266-268 | returns the first vehicle with the id, or None exactly when there is none |
| Database.VehicleDatabase.GetTotalCount | src/data/VehicleDatabase.java:149-151 | is the list length |
| Database.VehicleDatabase.Clear | src/data/VehicleDatabase.java:156-158 | empties the list |
| Database.VehicleDatabase.SaveToJson | src/data/VehicleDatabase.java:161-186 | the StringBuilder loop writes the snapshot text, or fails when a text field is null |
| Database.VehicleDatabase.LoadFromJson | src/data/VehicleDatabase.java:190-257 | an empty file leaves the list untouched; otherwise the list becomes exactly what the reader decodes from the text |
| Database.VehicleDatabase.LoadNext | src/data/VehicleDatabase.java:198-255 | one turn of the object loop keeps its invariant: the list so far followed by what is still to be read is the whole result; the turn moves past the '}', or reports the break once nothing is left to read |
| Database.ReadRecord | src/data/VehicleDatabase.java:204-251 | the pair scan, the map of the pairs and the decode read one object's text as the reader of loadFromJson does |
| Database.ScanPairs | src/data/VehicleDatabase.java:205-215 | the character loop with the in-quotes flag yields the pairs of the object text |
| Database.PutPairs | src/data/VehicleDatabase.java:216-223 | the pairs split at the first colon, unquoted and trimmed, go into the map, a later key winning |
| Snapshot.FieldTexts | src/data/VehicleDatabase.java:165-183 | the field texts fail exactly when a text field is null, and otherwise hold one "key":value text per field |
| Snapshot.RecordJson | src/data/VehicleDatabase.java:165-183 | a vehicle's record can be written exactly when none of its text fields is null |
| Snapshot.RecordsJson | src/data/VehicleDatabase.java:165-183 | the records can be written exactly when no vehicle has a null text field, one record per vehicle |
| Snapshot.DecodeRecord | src/data/VehicleDatabase.java:224-251 | a decoded vehicle is of the lower-cased type named, with the parsed year, the brand and model read, and the id read or, when the record has none, the load's `missingId` |
| SnapshotProofs.DecodeSkips | src/data/VehicleDatabase.java:226-250 | a record with no type, an unknown type or an unparsable number is skipped |
| SnapshotProofs.DecodeDefaults | src/data/VehicleDatabase.java:229-250 | missing keys default to year 0, doors 4, fuel "Petrol", no sidecar, "Cruiser", payload 0, no trailer, 500 cc, "Sports" |
| SnapshotProofs.SplitJoin | src/data/VehicleDatabase.java:205-215 | the comma scan splits comma-joined balanced pairs back into those pairs |
| SnapshotProofs.QuoteInTextLost | src/data/VehicleDatabase.java:221 | a text with a quote is written escaped but read back without its quotes, so it is not recovered; in a whole record an odd number of quotes also flips the pair scan's in-quotes state, so the fields after it merge into that pair and read as null or their defaults |
| SnapshotProofs.CollectLastWins | src/data/VehicleDatabase.java:216-223 | a later pair for a key overwrites an earlier one |
| SnapshotProofs.FieldRoundTrip | src/data/VehicleDatabase.java:165-183 | a field written without quote or brace in its text reads back as the same key and value |
| SnapshotProofs.RecordRoundTrip | src/data/VehicleDatabase.java:165-251 | a record written for a storable vehicle reads back as that vehicle |
| SnapshotProofs.SaveLoadRoundTrip | src/data/VehicleDatabase.java:161-257 | saving then loading gives back the same list when ids and texts hold no double quote or closing brace |
| SnapshotProofs.SaveFails | src/data/VehicleDatabase.java:259-261 | saving fails exactly when some vehicle has a null text field |
| SnapshotProofs.RecordEndsAtFirstBrace | src/data/VehicleDatabase.java:200-202 | a record ends at the first closing brace after its opening one, whatever follows |
| Jdbc.RowOf | src/data/VehicleDaoJdbc.java:62-79 | the type column is the class name, and only the variant's own columns are non-NULL; only a bike writes the category column, a motorcycle writes its engine size alone |
| Jdbc.Kept | src/data/VehicleDaoJdbc.java:70-73 | what a row keeps of a vehicle: the same variant, id, brand, model and year; it equals the vehicle iff that is not a motorcycle with a category, whose category it drops |
| Jdbc.ReadRow | src/data/VehicleDaoJdbc.java:130-156 | a NULL type throws, an unknown lower-cased type reads as null, and otherwise the vehicle of that type with the row's id, brand, model and year and its own variant columns, a NULL number or boolean read as 0 or false |
| Jdbc.ReadRowOf | src/data/VehicleDaoJdbc.java:62-79 | reading back a row that addVehicle wrote yields the same car, bike or truck, and the motorcycle with a null category |
| Jdbc.MotorcycleCategoryLost | src/data/VehicleDaoJdbc.java:73 | a motorcycle with a category does not read back as itself; its category reads as null |
| Jdbc.RowOfFixed | src/data/VehicleDaoJdbc.java:62-79 | the corrected row: as addVehicle writes it, except that a motorcycle also stores its category |
| Jdbc.ReadRowOfFixed | src/data/VehicleDaoJdbc.java:130-156 | with the corrected row every variant, a motorcycle with its category included, reads back as written |
| Jdbc.ReadRowsEntries | src/data/VehicleDaoJdbc.java:81-91 | reading the whole table fails iff some type is NULL, and otherwise gives one entry per row, null for an unknown type |
| Jdbc.InsertAllFresh | src/data/VehicleDaoJdbc.java:45-57 | inserting vehicles with fresh distinct ids adds exactly their rows, as addVehicle writes them, and keeps the others |
| Jdbc.SeededSamples | src/data/VehicleDaoJdbc.java:45-57 | seeding an empty table gives exactly the four samples' rows; the car, bike and truck read back as built, the Yamaha R1 with a null category |
| Jdbc.VehicleDaoJdbc.Init | src/data/VehicleDaoJdbc.java:29-60 | seeds the four samples' rows, as addVehicle writes them, only when the table is empty; a non-empty table is unchanged |
| Jdbc.VehicleDaoJdbc.AddVehicle | src/data/VehicleDaoJdbc.java:62-79 | fails iff the id is already a key, leaving the table unchanged; otherwise adds the vehicle's row, a motorcycle's category NULL |
| Jdbc.VehicleDaoJdbc.UpdateVehicle | src/data/VehicleDaoJdbc.java:105-120 | rewrites every column but the id, a motorcycle's category to NULL, and returns true iff the row existed; otherwise changes nothing |
| Jdbc.VehicleDaoJdbc.RemoveVehicleById | src/data/VehicleDaoJdbc.java:122-128 | deletes the row and returns true iff it existed |
| Jdbc.VehicleDaoJdbc.GetVehicleById | src/data/VehicleDaoJdbc.java:93-103 | returns null when no row matches, else the row read |
| Jdbc.VehicleDaoJdbc.GetAllVehicles | src/data/VehicleDaoJdbc.java:81-91 | the loop reads every row in table order, one entry per row |
| Repository.VehicleDatabaseRepository.constructor | src/data/VehicleDatabaseRepository.java:12-14 | the default repository wraps a new, empty catalogue |
| Repository.VehicleDatabaseRepository.Sharing | src/data/VehicleDatabaseRepository.java:16-18 | the other constructor shares the given catalogue |
| Repository.VehicleDatabaseRepository.Init | src/data/VehicleDatabaseRepository.java:20-23 | init changes nothing |
| Repository.VehicleDatabaseRepository.AddVehicle | src/data/VehicleDatabaseRepository.java:25-28 | effect equals the catalogue's addVehicle |
| Repository.VehicleDatabaseRepository.RemoveVehicleById | src/data/VehicleDatabaseRepository.java:30-33 | effect and result equal the catalogue's removeVehicleById |
| Repository.VehicleDatabaseRepository.UpdateVehicle | src/data/VehicleDatabaseRepository.java:35-38 | effect and result equal the catalogue's updateVehicle |
| Repository.VehicleDatabaseRepository.GetAllVehicles | src/data/VehicleDatabaseRepository.java:40-43 | returns the catalogue's list |
| Repository.VehicleDatabaseRepository.GetVehicleById | src/data/VehicleDatabaseRepository.java:45-48 | returns the catalogue's lookup |
| Repository.VehicleDatabaseRepository.SaveToJson | src/data/VehicleDatabaseRepository.java:51-53 | writes the catalogue's snapshot text |
| Repository.VehicleDatabaseRepository.LoadFromJson | src/data/VehicleDatabaseRepository.java:55-57 | loads as the catalogue does |
| Service.FilterBlank | src/services/VehicleService.java:29-40 | with blank brand and type filters every entry is kept, in repository order |
| Service.FilterFails | src/services/VehicleService.java:29-40 | filtering throws exactly when a filter is given and some entry is null |
| Service.FilterKeeps | src/services/VehicleService.java:29-40 | a successful result holds exactly the vehicles whose lower-cased brand contains the brand filter and whose class name equals the type filter ignoring case, and is no longer than the list (membership and a length bound) |
| Service.FilterIsWhere | src/services/VehicleService.java:33-39 | over a list without null entries the filter succeeds and keeps, in order and with repeats, exactly the vehicles passing both the brand and the type test |
| Service.FilterIsBrandFilter | src/services/VehicleService.java:29-40 | with only a brand filter, filterVehicles agrees with the catalogue's getVehiclesByBrand |
| Service.VehicleService.InMemory | src/services/VehicleService.java:17-20 | a service over the in-memory repository |
| Service.VehicleService.OverJdbc | src/services/VehicleService.java:17-20 | a service over the JDBC data-access object initialises it: it seeds only an empty table |
| Service.VehicleService.AddVehicle | src/services/VehicleService.java:22 | forwards to the backend with its exact effect and result |
| Service.VehicleService.RemoveVehicleById | src/services/VehicleService.java:23 | forwards to the backend with its exact effect and result |
| Service.VehicleService.UpdateVehicle | src/services/VehicleService.java:24 | forwards to the backend with its exact effect and result |
| Service.VehicleService.GetAllVehicles | src/services/VehicleService.java:25 | returns what the backend returns |
| Service.VehicleService.GetVehicleById | src/services/VehicleService.java:26 | returns what the backend returns |
| Service.VehicleService.FilterVehicles | src/services/VehicleService.java:29-40 | the backend's failure is passed on; otherwise the result is the filter specification over the backend's list, with the queries trimmed and the brand lowered |
| Service.FilterList | src/services/VehicleService.java:33-39 | the loop over the list computes the filter specification: the entries passing both tests, in order, or the exception a null entry raises |
| Service.VehicleService.SaveToJson | src/services/VehicleService.java:43-46 | writes the snapshot only over the in-memory repository, and does nothing otherwise |
| Service.VehicleService.LoadFromJson | src/services/VehicleService.java:47-50 | loads only into the in-memory repository; the JDBC table is untouched |
| WebText.Segment | src/web/Server.java:44-49 | the segment after "/api/vehicles/" is non-empty and the path is the prefix followed by it |
| WebText.PathId | src/web/Server.java:44-49 | a path id is never one of the reserved segments add, delete, update, saveJson, loadJson |
| WebText.PathIdOf | src/web/Server.java:44-49 | a segment is read as an id exactly when it is non-empty and not reserved |
| WebText.DeletePathId | src/web/Server.java:110-128 | the delete handler reads any non-empty segment but "delete" as an id |
| WebText.DeletePathIdOf | src/web/Server.java:110-128 | a segment is the delete id exactly when it is non-empty and not "delete" |
| WebText.PairWithoutValue | src/web/Server.java:236-242 | a pair without "=" maps its decoded key to "" |
| WebText.PairOf | src/web/Server.java:236-242 | a pair is split at its first "=" into decoded key and value |
| WebText.Parse | src/web/Server.java:231-244 | the loop builds the form map of the pairs split on "&" |
| WebText.LaterWins | src/web/Server.java:231-244 | a later duplicate key overwrites an earlier one |
| WebText.ParseExample | src/web/Server.java:231-244 | "a=1&b&a=2" parses to a=2, b="" |
| WebText.DecodeVariant | src/web/Server.java:188-211 | an unknown lower-cased type gives null; a known one gives that variant with the given id, brand, model and year |
| WebText.DecodeParams | src/web/Server.java:184-211 | an unparsable year throws; an unknown type gives null; otherwise the id is the supplied one or a fresh one |
| WebText.DecodeDefaults | src/web/Server.java:185-208 | with no parameters each type decodes to its defaults: "", 0, 4 doors, "Petrol", no sidecar, "Cruiser", payload 0, no trailer, 500 cc, "Sports" |
| WebText.DecodeWithId | src/web/Server.java:146-157 | decoding with an id equals decoding without one but for the id, so the replace fallback is unreachable |
| WebText.ListFilter | src/web/Server.java:75-87 | the list filters throw exactly when a brand filter is given and some brand is null |
| WebText.ListFilterMembers | src/web/Server.java:75-87 | the list keeps exactly the vehicles whose whole brand equals the brand filter ignoring case and whose class name equals the type filter ignoring case |
| WebText.TypeIsVariant | src/web/Server.java:84 | the type filter selects exactly one variant |
| WebText.ListBrandIsWhole | src/web/Server.java:81 | unlike the catalogue's substring filter, "harley" selects no vehicle of the brand-filter test catalogue |
| WebText.VehicleToJson | src/web/Server.java:259-286 | a vehicle can be written exactly when it has no null text field |
| WebText.VehicleToJsonIsRecord | src/web/Server.java:259-290 | the server's record text is the same as the snapshot's record: id, type, brand, model, year, then the variant's fields, quotes escaped |
| WebText.ListJson | src/web/Server.java:246-257 | an empty list gives "[]"; writing fails exactly when some vehicle has a null text field |
| WebText.ToJson | src/web/Server.java:246-257 | the StringBuilder loop writes the list text |
| Web.Server.constructor | src/web/Server.java:20-35 | the server's catalogue starts as the loaded snapshot, or empty when there is none |
| Web.Server.HandleVehicles | src/web/Server.java:42-88 | GET, DELETE and PUT/POST of an id path act on that id; a reserved segment is never an id; other verbs give 405; GET on the collection lists with the filters |
| Web.Server.HandleAdd | src/web/Server.java:90-108 | POST decodes and appends the vehicle; anything else gives 405 and changes nothing |
| Web.Server.HandleDelete | src/web/Server.java:110-128 | removes by the path id or the id parameter; other verbs give 405 |
| Web.Server.HandleUpdate | src/web/Server.java:130-162 | the id parameter overrides the path id; with neither it answers "id missing" and changes nothing; otherwise an in-place update keeping that id |
| Web.Server.HandleSaveJson | src/web/Server.java:166-170 | POST writes the snapshot text; other verbs give 405 |
| Web.Server.HandleLoadJson | src/web/Server.java:174-178 | POST loads the snapshot as the catalogue does; other verbs give 405 |
| JavaText.Lower | src/data/VehicleDatabase.java:87-88 | toLowerCase keeps the length and maps every character |
| JavaText.TrimEnds | src/data/VehicleDatabase.java:85-86 | what trim leaves is empty or has no character at or below ' ' (code point 32) at either end |
| JavaText.TrimOfVisible | src/data/VehicleDatabase.java:85-86 | trim leaves a text with visible ends unchanged |
| JavaText.Escape | src/data/VehicleDatabase.java:259-261 | escaping never shortens a text and never starts it with a quote |
| JavaText.EscapeNone | src/data/VehicleDatabase.java:259-261 | escaping changes nothing in a text without quotes |
| JavaText.UnescapeEscape | src/web/Server.java:288-290 | escaping a quote as \" loses nothing: unescaping restores the text |
| JavaText.RemoveQuotes | src/data/VehicleDatabase.java:221 | the result holds no quote |
| JavaText.RemoveQuotesNone | src/data/VehicleDatabase.java:221 | a text without quotes is unchanged |
| JavaText.IndexOfFirst | src/data/VehicleDatabase.java:198-200 | indexOf finds the first occurrence at or after the start |
| JavaText.SplitOnce | src/data/VehicleDatabase.java:217-218 | splitting at the first occurrence: the text is head, separator, tail, and the head holds no separator |
| JavaText.PiecesJoin | src/web/Server.java:234 | splitting on a character and joining with it gives back the text, and no piece holds the character |
| JavaText.JoinSnoc | src/data/VehicleDatabase.java:193 | joining one more line appends the separator and the line |
| Decimal.DigitsValueOfNatToString | src/data/VehicleDatabase.java:172 | the decimal digits written for n have value n |
| Decimal.IntToString | src/data/VehicleDatabase.java:172 | Integer.toString writes digits with a leading minus exactly for a negative number |
| Decimal.ParseInt | src/data/VehicleDatabase.java:229 | Integer.parseInt on ASCII text refuses the empty text and anything not starting with a digit '0'..'9' or a sign |
| Decimal.ParseIntOfIntToString | src/data/VehicleDatabase.java:229 | parsing the written form of an int gives it back |
| PyText.StripEmpty | tools/generate_ppt_from_md.py:81-82 | a line strips to "" exactly when it is all whitespace |
| PyText.BreakAt | tools/generate_ppt_from_md.py:58 | the first line break of the text, or its end |
| PyText.SplitLinesHaveNoBreaks | tools/generate_ppt_from_md.py:58 | no line of splitlines holds a line break |
| PyText.SplitLinesJoin | tools/number_md_codeblocks.py:16-17 | for a text broken only by "\n", joining its lines and restoring the final newline gives it back |
| PyText.LastLineNotEmpty | tools/number_md_codeblocks.py:49 | a text not ending in a newline has a non-empty last line |
| MdSlides.ParseMarkdown | tools/generate_ppt_from_md.py:51-89 | the line loop computes the sections of the text's lines |
| MdSlides.SectionTitles | tools/generate_ppt_from_md.py:59-66 | one section per "## " header whose stripped title is non-empty, in order |
| MdSlides.PlainLinesKept | tools/generate_ppt_from_md.py:77-84 | outside code, blank lines are dropped and the others kept in order |
| MdSlides.CodeLinesKept | tools/generate_ppt_from_md.py:77-80 | inside code every line, blank or not, is kept verbatim |
| MdSlides.ClosedBlock | tools/generate_ppt_from_md.py:68-73 | a closed block becomes one entry: the fence, the lines joined by "\n", the fence |
| MdSlides.UnclosedAtEnd | tools/generate_ppt_from_md.py:85-88 | an unclosed block is flushed into its section at the end of input |
| MdSlides.UnclosedAtHeader | tools/generate_ppt_from_md.py:59-67 | an unclosed block is flushed at the next header, which also resets in_code |
| MdSlides.PreambleLeaks | tools/generate_ppt_from_md.py:59-67 | as written, an unclosed block before the first header leaks into the first section |
| MdSlides.PreambleDiscardedFixed | tools/generate_ppt_from_md.py:59-67 | with the buffer reset at every header, anything before the first header is discarded |
| TextWrap.RFind | tools/generate_ppt_from_md.py:118 | rfind gives the last index below the end holding the character, or -1 |
| TextWrap.CutAt | tools/generate_ppt_from_md.py:118-120 | the cut is at the last space before n, or at n itself |
| TextWrap.WrapText | tools/generate_ppt_from_md.py:114-125 | the while loop produces the chunks of the wrap specification |
| TextWrap.WrapBounds | tools/generate_ppt_from_md.py:114-125 | an empty text gives no chunk, and every chunk is at most n long |
| TextWrap.WrapFits | tools/generate_ppt_from_md.py:123-124 | a non-empty text that fits is one chunk, unchanged |
| TextWrap.WrapDropsLetter | tools/generate_ppt_from_md.py:117-122 | as written, a forced cut drops the character at index n: "abcde" at 4 gives only "abcd" |
| TextWrap.WrapFixedKeepsText | tools/generate_ppt_from_md.py:117-122 | the corrected wrap loses no character but the spaces it breaks at |
| TextWrap.WrapFixedFits | tools/generate_ppt_from_md.py:114-125 | every chunk of the corrected wrap is at most n long |
| MdArg.Run | tools/generate_ppt_from_md_arg.py:77-93 | exactly one argument is required, else status 1; a path that does not exist exits with status 1; success writes the sections of the file to a ".pptx" path in the same directory |
| MdArg.OutPathShape | tools/generate_ppt_from_md_arg.py:91 | the output path keeps the parent and the stem, and its suffix is ".pptx" |
| MdArg.WithPptxIdempotent | tools/generate_ppt_from_md_arg.py:91 | deriving the output path again changes nothing |
| MdArg.WithPptxFixed | tools/generate_ppt_from_md_arg.py:91 | the output path is the input path exactly when the input already ends in ".pptx" |
| MdArg.UsageExamples | tools/generate_ppt_from_md_arg.py:78-80 | no argument or two arguments give the usage exit |
| MdArg.Underscores | tools/generate_ppt_from_md_arg.py:87 | the title replaces every underscore of the stem with a space |
| MdArg.OutPathExample | tools/generate_ppt_from_md_arg.py:87-91 | "notes/week_1.md" becomes "notes/week_1.pptx", titled "week 1" |
| MdNumbering.FenceExamplesAccepted | tools/number_md_codeblocks.py:11 | "```", "```python" and "```python  " are fences |
| MdNumbering.FenceExamplesRefused | tools/number_md_codeblocks.py:11 | "``` python" and "``" are not fences |
| MdNumbering.RJust | tools/number_md_codeblocks.py:38 | rjust pads to the width and never shortens |
| MdNumbering.NumbersAligned | tools/number_md_codeblocks.py:36-38 | every line number of a block is padded to the same width, the digit count of the block length |
| MdNumbering.NumberBlock | tools/number_md_codeblocks.py:36-39 | the numbering loop gives "k: line" for each line, right-justified |
| MdNumbering.NumberFile | tools/number_md_codeblocks.py:16-50 | the per-file loop computes the new text, and the file is rewritten iff the text changed |
| MdNumbering.NoFenceUnchanged | tools/number_md_codeblocks.py:44-48 | lines of a text without fences are emitted unchanged |
| MdNumbering.NoFenceText | tools/number_md_codeblocks.py:16-50 | a text without fences is not rewritten |
| MdNumbering.OutIsBlocks | tools/number_md_codeblocks.py:22-48 | the output is the text with each closed block numbered and the fence lines and outside lines kept in order |
| MdNumbering.RunCounts | tools/number_md_codeblocks.py:22-48 | each input line is emitted or held in the buffer, and the block state flips at each fence |
| MdNumbering.SameLineCount | tools/number_md_codeblocks.py:22-48 | when every fence is closed the output has as many lines as the input |
| MdNumbering.UnterminatedDropped | tools/number_md_codeblocks.py:22-48 | lines after an unterminated opening fence are dropped |
| MdNumbering.OneLineBlock | tools/number_md_codeblocks.py:37-39 | a one-line block numbers its line "1: " |
| MdNumbering.FinalNewlineKept | tools/number_md_codeblocks.py:49 | the output ends with a newline iff the input did |

## Left out

- The `VehicleRepository` interface has no behaviour of its own and is not modelled as a type. `VehicleService` holds one of two backends, the in-memory repository or the JDBC data-access object, as two nullable fields of which exactly one is set.
- `Vehicle.java` declares no `id` field, no `getId()` and only a `(brand, model, year)` constructor. `Car.java:11` and `Bike.java:11` call that constructor. The id-taking constructors `Truck.java:28-29`, `Motorcycle.java:26-27` and `DrivableCar.java:13-14` call a `super(id, ...)` that `Vehicle.java` does not declare, and the catalogue calls `getId()`. The model gives every vehicle an `id` string. No file of the repository generates ids; where the code has none to give, the id is a parameter.
- Snapshot.DecodeRecord: a record without an "id" key is given the load's `missingId`, one id for the whole load, where `VehicleDatabase.java:226` reads a `null` id and passes it to id-taking constructors (`new Car(id, ...)` at :234, `new Bike(id, ...)` at :239) that `Car.java` and `Bike.java` do not declare. Two id-less records of one load therefore share an id in the model, so a later removal by that id removes both and a lookup finds the first; in the source they either get distinct generated ids or keep a null id on which `getId().equals` throws.
- `DrivableCar` is a separate class and not a fifth variant of the vehicle datatype. Its simple class name "DrivableCar" would be written by the snapshot writer and skipped by the reader as an unknown type; the model does not store drivable cars in the catalogue.
- `getAverageMaxSpeed`, `getFastestVehicle` and the Motorcycle max speed (220 + cc/100.0) are floating point. `MaxSpeed` computes the last exactly, as a real, and the first two are not modelled.
- `Double.toString` and `Double.parseDouble` of the Truck payload are not modelled. The codecs take them as the `DoubleText` parameter, and the round trip assumes they invert each other.
- `displayAllVehicles`, `countByType`, `displayInfo`, `start` and `stop` only print. They are not modelled.
- File I/O is not modelled. Snapshot save and load take and return text, with the file's lines passed in. An unreadable file is treated like an empty one.
- The HTTP server's contexts, routing and start-up are not modelled, nor are `sendJson` headers, `handleStatic`, or reading the request body in `parseQuery`. A request is a verb, a path and an optional raw query.
- `URLDecoder.decode` is a parameter. It returns None where it throws.
- `Web.Server.HandleUpdate` and `Web.Server.HandleAdd`: the text of a NumberFormatException message is a parameter (`numberError`), not Java's own wording.
- JDBC connections, statements, SQL text and resource handling are not modelled. The table is a map from id to a row of optional columns. `getAllVehicles` takes the table's keys in the order the result set returns them.
- `Service.VehicleService.OverJdbc`: the source swallows an exception thrown by `init`. Seeding errors are not modelled, so this constructor always seeds an empty table.
- Java `toLowerCase`, `equalsIgnoreCase` and `trim` are modelled on ASCII letters and code points up to ' ' only. Locale-dependent case mapping is not modelled.
- Decimal.ParseInt accepts only the ASCII digits '0'..'9'. Java's `Integer.parseInt` reads digits with `Character.digit(c, 10)` and also accepts the other Unicode decimal digits, so "٢٠٢٠" is 2020 in Java and a parse failure in the model.
- The pptx slide building (`add_title_slide`, `add_content_slide`, `add_slide_from_section`, and `main` of the first generator) is not modelled; `MdArg.Run` returns the deck's title, subtitle and sections instead of a file.
- `MdArg.Run`: `Path` normalisation ("a//b", "./a", a trailing "/") is not modelled. Paths are taken as written.
- Directory globbing, the ".bak" rename, the write and the printed messages of the code-block numberer are not modelled. `MdNumbering.NumberFile` returns the new text and whether to rewrite. Its unused `fence_line` variable is not modelled.
- `MdNumbering.FinalNewlineKept`, `MdNumbering.NoFenceText` and `PyText.SplitLinesJoin` are stated for texts broken only by "\n". The code-block numberer reads its file with `read_text`, whose universal newlines turn "\r\n" and a lone "\r" into "\n" before `splitlines` sees them (that translation is not modelled; a text holding "\r" is outside these lemmas). A text holding another break that `str.splitlines` accepts ("\v", "\f", "\x1c" to "\x1e", "\x85", "\u2028", "\u2029") is rewritten with "\n" in its place.
- The Swing GUI, the browser client, the console and file utilities, the concurrency demo, and the JPA and Spring wrappers are not part of this model.

## Findings

| source | as written | input that shows it | evidently intended | confidence | as-written member | corrected member |
|---|---|---|---|---|---|---|
| tools/generate_ppt_from_md.py:59-67 | at a "## " header the code buffer is flushed and cleared only when a section is open | the lines "```", "leak", "## A" give the section A holding "```leak```" | content before the first header, an unclosed block included, is discarded | not executed | MdSlides.PreambleLeaks | MdSlides.PreambleDiscardedFixed |
| tools/generate_ppt_from_md.py:117-122 | after a cut at idx the text continues at idx + 1, also when idx is the forced cut at n | wrap_text("abcde", 4) gives ["abcd"]; the "e" is lost | a forced cut inside a word keeps the character at n for the next chunk | not executed | TextWrap.WrapDropsLetter | TextWrap.WrapFixedKeepsText |
| src/data/VehicleDaoJdbc.java:73 | addVehicle (and updateVehicle at :115) sets a motorcycle's category column NULL, while the reader at :151 takes the motorcycle's category from that column | the seeded Motorcycle("Yamaha", "R1", 2022, 1000, "Sports") of :52 reads back with category null | a motorcycle's category is stored in the category column, as a bike's is at :71 | not executed | Jdbc.MotorcycleCategoryLost | Jdbc.ReadRowOfFixed |
