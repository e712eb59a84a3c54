# Seat occupancy backends — a Dafny model

This project models three deterministic parts of a seat-occupancy system:

- **Seat map store** (`backend.py`, version 0.4). Named seat layouts live in a
  directory with one `seatmaps/<name>.json` file per map. Map names are
  sanitized before use. The store supports list, get, put and delete of
  whole maps, and patch and delete of single seats. Here the directory is a
  `map` from the sanitized name to the parsed document, held in the
  `SeatMapStore.Store` class. Its methods update that map in place.
- **Seat mapping engine** (`check_map` in `backend.py` and in
  `v1/backend.py`). It keeps the person detections and takes the normalized
  centre of each one. It credits that centre to the first seat whose
  inclusive rectangle contains it, counts the rest as unmapped, and
  aggregates the per-seat status. The nested loop is a method proved equal
  to a specification (`Tally`, `Hits`). Conservation, first-match and
  order-independence are proved about that specification.
- **Seat lock service** (`server/server_protected_seatlock.js`). It grants
  short leases on seats, with lock, refresh and unlock by user id, and a
  read view that masks expired leases. `db.seats` is a `seq` field of the
  `SeatLock.SeatLockDb` class. The clock `Date.now()` is a parameter of
  every operation.

Files:

- `wrappers.dfy`: `Option`, `Result`.
- `sequences.dfy`: first match and filter over sequences, with their laws.
- `geometry.dfy`: `bbox_center_norm`, `point_in_rect_norm`.
- `query_flags.dfy`: `_boolish`.
- `name_order.dfy`: Python string order and `sorted`.
- `seat_map_store.dfy`: the store.
- `mapping_engine.dfy`: the 0.4 `check_map`.
- `backend_v1.dfy`: the 0.3 `load_seat_map` and `check_map`.
- `seat_lock.dfy`: the lock service.

## Model

| member | source | states |
|---|---|---|
| Sequences.FirstWhere | backend.py:132-138 | the index found holds the property, no earlier index does, and `None` exactly when no element holds it |
| Sequences.FirstWhereIs | backend.py:132-138 | an index that holds the property with none before it is the first match |
| Sequences.Filter | backend.py:209 | the result keeps exactly the elements that pass, is never longer, and has the same length exactly when all pass |
| Sequences.FilterKeepsAll | backend.py:209 | a filter every element passes returns the sequence unchanged |
| Sequences.FilterDropsAll | backend.py:209 | a filter no element passes returns the empty sequence |
| Sequences.FilterAppend | backend.py:76 | filtering a concatenation is concatenating the filtered parts |
| Sequences.FilterIdempotent | backend.py:209 | filtering twice by the same test equals filtering once |
| Sequences.FilterCountPermutation | backend.py:129-140 | two permutations of one sequence have the same number of elements passing a test |
| Sequences.NoRepeats | backend.py:158-161 | a sequence whose multiset counts are at most one has no repeated element |
| Geometry.CentreNorm | backend.py:99-103 | the normalized centre times twice the image size is the sum of the box's two coordinates, on each axis |
| Geometry.InRect | backend.py:105-108 | only a rectangle whose corners are in order holds any point, and such a rectangle holds both of its corners |
| Geometry.EdgesAreInside | backend.py:105-108 | a point on an edge or corner of a rectangle is inside it, so both bounds are inclusive |
| Geometry.CentreInUnitSquare | backend.py:99-103 | a box within the image has its normalized centre in the unit square |
| Geometry.CentreInOwnBox | backend.py:99-108 | the normalized centre of a well-formed box lies in that box normalized the same way |
| QueryFlags.Lower | backend.py:57 | the lowercase text has the same length and no upper-case letter; each character is kept or is an upper-case letter replaced in place by its lower-case partner |
| QueryFlags.LowerIdempotent | backend.py:57 | lowercasing text that is already lower case changes nothing |
| QueryFlags.Boolish | backend.py:54-57 | an absent parameter is false, and a true flag is one to four characters long |
| QueryFlags.BoolishIgnoresCase | backend.py:57 | lowercasing a parameter first does not change how it reads as a flag |
| QueryFlags.BoolishIffSpelledYes | backend.py:54-57 | a present parameter is true exactly when it is one of "1", "true", "yes", "y", "t" in some mix of letter case |
| QueryFlags.BoolishExamples | v1/backend.py:48-51 | an absent parameter is false; "1", "TRUE" and "Yes" are true; "on", "0" and "" are false |
| NameOrder.LessTotal | backend.py:161 | any two distinct names are ordered one way or the other |
| NameOrder.LessAsymmetric | backend.py:161 | no two names are each less than the other |
| NameOrder.LessTransitive | backend.py:161 | the name order is transitive |
| NameOrder.Insert | backend.py:161 | inserting into a sorted list keeps it sorted and adds exactly that one name |
| NameOrder.SortNames | backend.py:161 | the result is sorted and a permutation of the input |
| NameOrder.SortedDistinctIsStrict | backend.py:161 | a sorted list without repeats is strictly ascending |
| SeatMapStore.StatusCode | backend.py:78-211 | every store failure is a 400 or a 404, and 404 exactly for a missing map or a missing seat |
| SeatMapStore.Sanitize | backend.py:76 | the sanitized name holds only alphanumerics, `-` and `_`, holds every such character of the name, is never longer, and equals the name exactly when the name has no other character |
| SeatMapStore.SanitizeIdempotent | backend.py:76 | sanitizing twice equals sanitizing once |
| SeatMapStore.SanitizeConcat | backend.py:76 | sanitizing is character by character: it distributes over concatenation |
| SeatMapStore.SanitizeDropsSeparator | backend.py:76 | a disallowed character is deleted where it stands, so "a/b" and "ab" name the same map |
| SeatMapStore.SeatMapKey | backend.py:75-79 | an empty sanitized name fails with an invalid-name error; otherwise the key is the sanitized name, non-empty and made of allowed characters |
| SeatMapStore.KeyStaysInDirectory | backend.py:75-79 | when the alphanumeric test refuses `/`, `\` and `.`, an accepted key is non-empty and holds none of them, so `seatmaps/<key>.json` names a file directly inside the map directory |
| SeatMapStore.LoadSeatMap | backend.py:81-89 | invalid name first, then not found when no map is stored under the sanitized name, then bad format when its `seats` is missing or not a list; success exactly when the stored document has a `seats` list, and it returns that document |
| SeatMapStore.WithoutSeat | backend.py:209 | the kept seats are exactly those whose id differs, and nothing was removed exactly when no seat had the id |
| SeatMapStore.WithoutSeatIdempotent | backend.py:206-215 | deleting an id that is already gone removes nothing more |
| SeatMapStore.PatchFirst | backend.py:194-199 | found exactly when some seat has the id; the first such seat gets the new rectangle; every other seat, later duplicates included, and the length are unchanged |
| SeatMapStore.Store.constructor | backend.py:158-160 | the directory starts with the given documents, whatever names they carry, and the given `isalnum` |
| SeatMapStore.Store.ListSeatMaps | backend.py:155-161 | the listed names are exactly the stored names, in strictly ascending order, each once |
| SeatMapStore.Store.Put | backend.py:167-177 | a body without a `seats` list and an empty sanitized name are refused with the store unchanged; otherwise the body replaces the map under the sanitized name, a following load returns it, no other name's load changes, and the reply carries the name as given |
| SeatMapStore.Store.DeleteMap | backend.py:179-185 | invalid name and missing map fail with the store unchanged; otherwise only that map is removed |
| SeatMapStore.Store.PatchSeat | backend.py:187-204 | a failed load and a missing seat id change nothing; otherwise the document is written back with only the first matching seat's rectangle replaced |
| SeatMapStore.Store.DeleteSeat | backend.py:206-215 | a failed load and an id no seat has change nothing; otherwise the document is written back with every seat of that id removed, in order |
| SeatMapStore.DeleteSeatTwice | backend.py:208-211 | after a successful delete of a seat id, deleting it again fails with seat-not-found |
| SeatMapStore.DeleteMapTwice | backend.py:181-183 | after a successful map delete, deleting it again fails with map-not-found |
| SeatMapStore.PutThenList | backend.py:155-177 | after a successful put, the sanitized name is listed; after a refused put, the listing is the stored names as before |
| MappingEngine.PersonBoxes | backend.py:120 | one box per class-0 detection, in detector order: the i-th box is the box of the i-th person detection |
| MappingEngine.InitialStatus | backend.py:126 | one status per seat, in layout order, carrying that seat's id |
| MappingEngine.InitialStatusIsIdle | backend.py:126 | before any person is looked at, no seat is occupied and the counts sum to zero |
| MappingEngine.HitsSnoc | backend.py:129-140 | one more person adds one to the count of its own target and to no other |
| MappingEngine.TallyStep | backend.py:132-140 | crediting one more person changes only the status of its target seat (occupied, count plus one), or nothing when it is unmapped |
| MappingEngine.CreditOne | backend.py:130-138 | the scan with early break credits exactly the first seat whose rectangle holds the box centre (occupied, count plus one) and reports it mapped; with no such seat nothing changes and it reports unmapped |
| MappingEngine.CreditPersons | backend.py:126-140 | the outer loop, starting from the initial status, yields exactly the specified per-seat status and unmapped count |
| MappingEngine.CheckMap | backend.py:110-148 | a load failure is passed on; otherwise one status per layout seat with its id, occupied exactly when its count is positive, overall occupied exactly when some seat is, persons the number of class-0 detections, counts plus unmapped equal persons, and the map name echoed |
| MappingEngine.SumHitsSnoc | backend.py:129-140 | one more person raises the summed counts of the first k seats by one exactly when its target is among them |
| MappingEngine.SumHitsOfNothing | backend.py:126 | with no persons every count is zero |
| MappingEngine.HitsConservation | backend.py:129-140 | every person is credited to exactly one seat or counted as unmapped |
| MappingEngine.SumCountsOfTally | backend.py:126-140 | the sum of the first k reported counts is the number of persons credited to those seats |
| MappingEngine.Conservation | backend.py:129-146 | the reported counts plus the unmapped persons equal the number of persons |
| MappingEngine.AnyOccupied | backend.py:143 | the overall flag is true exactly when some seat status is occupied, and false for an empty status list |
| MappingEngine.SumCountsPositive | backend.py:143-146 | the reported counts sum to a positive number exactly when some seat has a positive count |
| MappingEngine.OccupiedIffSomeoneSeated | backend.py:129-146 | the overall `occupied` flag is true exactly when fewer persons are unmapped than were detected, that is, when someone was credited to a seat |
| MappingEngine.HitsIsFilterCount | backend.py:129-140 | a seat's count is the number of persons whose first containing seat it is |
| MappingEngine.DetectionOrderIrrelevant | backend.py:129-140 | any reordering of the persons gives the same seat statuses and unmapped count |
| MappingEngine.ShadowedSeatNeverCredited | backend.py:132-138 | a seat every centre in which is also in an earlier seat is never credited and stays free |
| MappingEngine.OverlapResolvesToFirst | backend.py:105-140 | a centre inside two overlapping seats is credited to the first one listed, and the later one stays free |
| MappingEngine.NoSeatsAllUnmapped | v1/backend.py:134-148 | with no seats the status list is empty and every person is unmapped |
| MappingEngine.NoPersonsAllFree | backend.py:126-140 | with no persons the status is the initial one and nobody is unmapped |
| MappingEngine.TwoSeatsOnePerson | backend.py:99-147 | a person at pixels 10..30 in a 100x100 image is credited to the first of two side-by-side seats |
| BackendV1.LoadSeatMapFile | v1/backend.py:74-81 | file-not-found exactly when the file is absent, a value error exactly when its `seats` is missing or not a list, otherwise the document |
| BackendV1.InitStatus | v1/backend.py:129-131 | one `{id, occupied: false, count: 0}` per seat, in layout order |
| BackendV1.CheckMapV1 | v1/backend.py:103-156 | a load failure is passed on; otherwise the same status and conservation guarantees as the 0.4 report, with no map name, and with no seats nothing is occupied and every person is unmapped |
| SeatLock.StatusCode | server/server_protected_seatlock.js:73-116 | every reply is a 200, 400, 403 or 409, and 200 exactly for a seat body or `{ok: true}` |
| SeatLock.IsLocked | server/server_protected_seatlock.js:58 | a record without holder or without end is never locked, nor one whose end is at or before `now`; a locked record has a non-empty holder and at least 1 ms left |
| SeatLock.HeldByOther | server/server_protected_seatlock.js:76 | only a live lock whose recorded holder differs from the user counts as held by another; a live lock not held by another is held by the user |
| SeatLock.LeaseExpiresForGood | server/server_protected_seatlock.js:58-59 | a seat locked at a later instant was locked at every earlier one, and once its end has passed it stays unlocked with no time remaining |
| SeatLock.Remaining | server/server_protected_seatlock.js:59 | never negative; zero once the hold has ended; otherwise the whole seconds left, rounded down |
| SeatLock.Ttl | server/server_protected_seatlock.js:79 | at least 10 s and at least the requested TTL, or the default when none or zero is given, and equal to one of the two |
| SeatLock.Masked | server/server_protected_seatlock.js:67 | a live lock is shown as stored; an expired one has holder and end cleared; every other field, `lockedAt` and the unmodelled ones included, is always kept |
| SeatLock.Merge | server/server_protected_seatlock.js:55 | only the five written fields change, and each takes the value given; id and every other stored field are kept |
| SeatLock.NewSeat | server/server_protected_seatlock.js:56 | the new record has the requested id and no other fields, and equals what merging the fields into a bare record with that id gives |
| SeatLock.FindSeat | server/server_protected_seatlock.js:54-75 | the index of the first stored seat whose id equals the requested one, with no earlier match, and none exactly when no stored seat has that id |
| SeatLock.Selection | server/server_protected_seatlock.js:65-66 | exactly the stored seats that match the room and id filters, with a falsy filter not filtering |
| SeatLock.MaskAll | server/server_protected_seatlock.js:67 | one masked record per selected record, position by position |
| SeatLock.ViewSeats | server/server_protected_seatlock.js:61-69 | every selected seat appears masked, nothing else appears, and every shown seat is either live-locked or has no holder and no end |
| SeatLock.SeatLockDb.constructor | server/server_protected_seatlock.js:14-33 | the default TTL is the environment's or 120, and a missing `seats` array starts empty |
| SeatLock.SeatLockDb.Upsert | server/server_protected_seatlock.js:53-57 | the first seat with the id has the given fields overwritten and the others kept; with no such seat a new one is appended; no other seat changes, and the returned record is the stored one |
| SeatLock.SeatLockDb.Lock | server/server_protected_seatlock.js:71-89 | missing seat or user gives 400 with no change; a live lock of someone else gives 409 with holder and seconds left, with no change; otherwise the seat is locked by the user at `now` until `now + ttl*1000` and stays locked for at least 10 s |
| SeatLock.SeatLockDb.Refresh | server/server_protected_seatlock.js:91-103 | only the holder of a live lock may extend it; otherwise 409 with no change; on success only the hold end changes, to at least 10 s from now |
| SeatLock.SeatLockDb.Unlock | server/server_protected_seatlock.js:105-117 | an unknown seat is ok with no change; a live lock of someone else gives 403 with no change; otherwise holder and end are cleared and the seat is marked free |
| SeatLock.Contend | server/server_protected_seatlock.js:71-103 | once user A holds a seat, within the next 10 s user B's lock is refused naming A, and B's refresh is refused |
| SeatLock.Relock | server/server_protected_seatlock.js:71-89 | the holder may lock again, and the hold then runs from the new request |

## Left out

- HTTP routing, CORS, static mounts and server start-up are not modelled. Failures are result values that carry their status code.
- Filesystem I/O is not modelled: reading and writing JSON, `os.listdir`, `os.remove`, `fs.readFileSync` and `writeFileSync`. The seat-map directory is a `map` keyed by sanitized name. The lock database is a `seq` of records.
- `SeatMapStore.Store.ListSeatMaps`: a map file placed in the directory by other means is represented through the documents the store starts with, under any name. Such a name need not be a sanitized one, and then it is listed but cannot be loaded, as in the source. The filter on the `.json` suffix is not modelled. A stored document is always a JSON object here. Other file contents behave in the source as follows:
  - a top-level array or string that does not contain "seats" fails the membership test at backend.py:87 and gets the 400 of backend.py:88, the same answer as `BadFormat`;
  - a file that is not valid JSON makes `json.load` raise at backend.py:86, and the answer is a 500;
  - a top level that is a number, `true`, `false` or `null` makes the `in` test raise at backend.py:87, and the answer is a 500;
  - an array or string that does contain "seats" makes `m["seats"]` raise at backend.py:87, and the answer is a 500.

  None of the 500 cases is modelled.
- Object detection, image decoding and annotation saving are not modelled: `detect_from_bytes`, `decode_shape` and the `annotated_url` output. Detections and a positive image size are inputs.
- Floating point is not modelled. Coordinates are exact reals, so `bbox_center_norm` divides exactly.
- `SeatMapStore.Sanitize`: Python's Unicode-aware `str.isalnum` is an abstract predicate, fixed when the store is created.
- `QueryFlags.Lower` lowercases ASCII letters only. No other character lowercases to a letter of the yes-words, so `_boolish` is unaffected.
- JSON shapes outside the modelled ones are not represented:
  - in the lock records, `SeatLock.SeatRec` gives a `null` field and an absent field the same value, `None`, and `String(...)` of it is "undefined". In JavaScript, `String(null)` is "null". So a seat stored with `roomId: null` is selected by `GET /seats?roomId=null` in the source, but by `?roomId=undefined` in the model;
  - seats without a string `id`;
  - rectangles that are not four numbers;
  - extra per-seat fields in a seat map;
  - lock records whose `id` is not a string, with `String(...)` comparisons reduced to string equality.
- Authentication is not modelled: `/login`, JWT, bcrypt, `authGuard` and the admin-password part of `migrate`.
- The json-server router is not modelled.
- The browser client, the admin reset script, `ml_baseline.py`, `hello_team.py` and `test_client.py` are not modelled.
- Concurrency is not modelled: each request is an atomic transition.
- A request reads the clock once. The source calls `now()` several times within one lock request.
- `SeatLock.Ttl`: a TTL is an unbounded integer or absent, so the claim "at least the requested TTL" and the `holdUntil` equations of `Lock` and `Refresh` hold only for ordinary magnitudes. Three cases of the source are not modelled: a non-numeric `ttlSeconds` or `SEAT_LOCK_TTL` makes `parseInt` return `NaN`, and the lease is then `NaN`; a value of 10^21 or more is turned into exponent form by `String`, and `parseInt` keeps only its leading digit, so `ttlSeconds: 1e21` gives a 10 s lease; and `now + ttl*1000` is a double, which rounds once it passes 2^53.
- `SeatLock.SeatLockDb.Unlock` leaves `lockedAt` as it was, as the source does. Nothing in the model reads it after an unlock.
- `v1/backend.py:29` holds a stray character that stops the module from importing. The model covers the functions of that file as if it imported.
- `check_seat` is not modelled. It passes detector output through without any logic of its own.
- `get_seatmap` is not modelled separately. It is `load_seat_map`.
