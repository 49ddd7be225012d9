# PetTrail: a verified model of walk recording and point delivery

PetTrail records dog and cat walks. A phone or browser samples GPS
fixes while a walk is being recorded. It buffers them into batches,
keeps the batches in an IndexedDB queue that survives going offline,
and uploads them to a Spring backend. The backend filters the points
and stores them. When the walk stops, it computes distance, duration
and average speed.

This project models that core in Dafny and proves what each part
promises.

Backend, as values and small stores:
- **Ingestion** (`WalkPointsService`). A walk must exist and be active.
  Its batch is copied and stably sorted by timestamp. Each point is
  checked against the last accepted point: it is dropped when the
  whole-second gap is not positive, or when the implied speed is over
  50 m/s. The accepted points are saved in one call.
- **Walk lifecycle** (both `WalkService`s and both `Walk` entities):
  ownership and one-active-walk-per-pet checks, stopping with metrics,
  the active-walk lookup and the GeoJSON route.
- **Repositories**: the JPA query methods over a sequence of rows.
- **Controllers**: the 1..5000 batch-size validator, the pagination
  guard, the exception-to-response table and the partial pet update.

Clients, as classes whose methods change their fields in place:
- the React client's `GeolocationService` (`geo.ts`) and `IDBQueue`
  (`idbQueue.ts`);
- the static client's IndexedDB batch store. `static/db.js` and the
  batch half of `web/db.js` are the same code, modelled once as
  `BatchStore`.
- the metadata store of `web/db.js`, which lets a recording survive a
  reload;
- the upload and retry policy of `net.js`;
- the recording screen of `app.js`.

Conventions:
- Backend instants are nanosecond counts and client times are
  millisecond counts.
- Walk ids are abstract numbers.
- The great-circle distance, the clock, `Math.random()`, the
  server's replies and the browser's geolocation answers are parameters
  of the operations that use them.

## Model

| member | source | states |
|---|---|---|
| Common.WholeSeconds | backend/src/main/java/com/example/demo/service/WalkPointsService.java:81-82 | `Duration.between(a, b).getSeconds()` is the whole number of seconds `s` with `s*1e9 <= b-a < (s+1)*1e9`, i.e. rounded towards negative infinity |
| Common.ToInt32 | backend/src/main/java/com/example/pettrail/service/WalkService.java:119 | Java's `(int)` cast lands in the 32-bit range, is congruent to its input modulo 2^32, and is the identity on values that fit |
| Common.KeepCount | backend/src/main/java/com/example/pettrail/repository/WalkPointRepository.java:28-29 | the rows a `WHERE` clause selects number exactly its `COUNT`, and every row satisfying it is selected |
| Common.CountPositive | backend/src/main/java/com/example/pettrail/repository/WalkRepository.java:30-31 | `COUNT(...) > 0` holds exactly when some row satisfies the condition |
| Common.KeepKeep | backend/src/main/resources/static/db.js:181-203 | filtering twice is filtering once by both conditions |
| StableSort.SortByIsSorted | backend/src/main/java/com/example/demo/service/WalkPointsService.java:68-69 | the sort orders the copy by timestamp |
| StableSort.SortByIsPermutation | backend/src/main/java/com/example/demo/service/WalkPointsService.java:68-69 | the sorted copy holds exactly the request's points (same multiset) |
| StableSort.SortByIsStable | backend/src/main/java/com/example/demo/service/WalkPointsService.java:68-69 | `List.sort` is stable: points sharing a timestamp keep their submitted order |
| StableSort.SortBySorted | backend/src/main/java/com/example/demo/service/WalkPointsService.java:68-69 | an already ordered list is left unchanged |
| StableSort.InsertionSort | backend/src/main/java/com/example/demo/service/WalkPointsService.java:68-69 | the in-place sort of the array leaves it equal to the stable sort of its old contents |
| WalkPointRepository.FindByWalkIdOrderByTimestamp | backend/src/main/java/com/example/pettrail/repository/WalkPointRepository.java:20-21 | returns exactly the walk's rows, each as often as stored, in non-decreasing timestamp order |
| WalkPointRepository.CountByWalkId | backend/src/main/java/com/example/pettrail/repository/WalkPointRepository.java:28-29 | the count equals the length of the walk's ordered point list |
| WalkPointRepository.DeleteByWalkIdEffect | backend/src/main/java/com/example/pettrail/repository/WalkPointRepository.java:35-36 | after deleting a walk's points it has none, and every other walk's ordered points are unchanged |
| WalkPointRepository.SaveAllCount | backend/src/main/java/com/example/demo/service/WalkPointsService.java:128-131 | `saveAll` raises each walk's count by exactly the number of batch rows of that walk |
| WalkPointRepository.PointTable.SaveAll | backend/src/main/java/com/example/demo/repository/WalkPointRepository.java:12 | the rows are stored after the existing ones, in order, and the call is recorded |
| WalkPointRepository.PointTable.DeleteByWalkId | backend/src/main/java/com/example/demo/repository/WalkPointRepository.java:34-35 | removes exactly the walk's rows; the walk then has no points and every other walk's points are unchanged |
| DemoWalkModel.Walk.constructor | backend/src/main/java/com/example/demo/model/Walk.java:36-40 | a new walk has no id, the given pet and start, no finish, and is active |
| DemoWalkModel.Walk.WithFinish | backend/src/main/java/com/example/demo/model/Walk.java:42-47 | the three-argument walk is active exactly when it has no finish |
| DemoWalkModel.Walk.SetId | backend/src/main/java/com/example/demo/model/Walk.java:53-55 | sets the id and nothing else |
| DemoWalkModel.Walk.SetPetId | backend/src/main/java/com/example/demo/model/Walk.java:61-63 | sets the pet id and nothing else |
| DemoWalkModel.Walk.SetStartedAt | backend/src/main/java/com/example/demo/model/Walk.java:69-71 | sets the start and nothing else |
| DemoWalkModel.Walk.SetFinishedAt | backend/src/main/java/com/example/demo/model/Walk.java:77-79 | sets the finish; the walk is then active exactly when the finish is null |
| DemoWalkModel.Walk.IsActive | backend/src/main/java/com/example/demo/model/Walk.java:81-83 | a saved walk is active exactly when the record it is stored as is one `existsActiveWalkByPetId` counts |
| DemoWalkModel.WalkStore.FindById | backend/src/main/java/com/example/demo/service/WalkPointsService.java:56-57 | finds a stored row with that id, and finds none only when no row has it |
| DemoWalkModel.WalkStore.ExistsActiveWalkByPetId | backend/src/main/java/com/example/demo/service/WalkService.java:44-46 | true exactly when some stored walk of the pet has no finish |
| DemoWalkModel.WalkStore.SaveNew | backend/src/main/java/com/example/demo/service/WalkService.java:49-51 | saving a new walk appends one row under an id no stored row has, and writes the id back into the entity |
| DemoWalkModel.FindIn | backend/src/main/java/com/example/demo/service/WalkPointsService.java:56-57 | the row lookup behind `findById`: a hit has that id, a miss means no row has it |
| DemoWalkService.SecondStartRefused | backend/src/main/java/com/example/demo/service/WalkService.java:38-56 | a second start for the same pet without a stop is refused with `ActiveWalkExists`, and the two starts store at most the first walk |
| DemoWalkService.Service.StartWalk | backend/src/main/java/com/example/demo/service/WalkService.java:38-56 | an unknown pet and a pet with an active walk are refused with nothing stored; otherwise exactly one active walk started at `now` is added under a fresh id |
| WalkPointsService.Accepted | backend/src/main/java/com/example/demo/service/WalkPointsService.java:74-125 | the filter never accepts more points than it sees, and always accepts the first |
| WalkPointsService.Rows | backend/src/main/java/com/example/demo/service/WalkPointsService.java:110-117 | one `WalkPoint` per accepted point, in order, carrying the walk id and the point's fields |
| WalkPointsService.ScanSorted | backend/src/main/java/com/example/demo/service/WalkPointsService.java:72-125 | the loop's rows are those of the filter's accepted points, its accepted count is their number, and accepted plus discarded is the batch size |
| WalkPointsService.Service.IngestPoints | backend/src/main/java/com/example/demo/service/WalkPointsService.java:54-137 | unknown walk and finished walk are errors that save nothing; otherwise the response is (received, accepted, discarded) of the filter over the sorted batch, and exactly the accepted rows are saved in one `saveAll` made only when there are some |
| WalkPointsService.AcceptedIsSubsequence | backend/src/main/java/com/example/demo/service/WalkPointsService.java:74-125 | accepted points are a subsequence of the sorted batch |
| WalkPointsService.AcceptedConsecutive | backend/src/main/java/com/example/demo/service/WalkPointsService.java:79-119 | each accepted point after the first passed the gap and speed test against the accepted point just before it |
| WalkPointsService.TooFast | backend/src/main/java/com/example/demo/service/WalkPointsService.java:97-101 | for a positive gap, the speed is over 50 m/s exactly when the distance is over 50 m per second of gap |
| WalkPointsService.Follows | backend/src/main/java/com/example/demo/service/WalkPointsService.java:85-104 | a point passes exactly when it is at least one second later than the last accepted one and at most 50 m per whole second away from it |
| WalkPointsService.AcceptedIncreasing | backend/src/main/java/com/example/demo/service/WalkPointsService.java:85-87 | accepted timestamps strictly increase, by at least a second per step |
| WalkPointsService.SameTimestampKeepsOne | backend/src/main/java/com/example/demo/service/WalkPointsService.java:85-87 | a run of points with one timestamp keeps only its first point |
| WalkPointsService.NonEmptyBatchAcceptsEarliest | backend/src/main/java/com/example/demo/service/WalkPointsService.java:72-79 | a non-empty batch always accepts a point with its smallest timestamp, whatever earlier batches stored |
| WalkPointsService.TwoPointsTenSecondsApart | backend/src/test/java/com/example/demo/service/WalkPointsServiceTest.java:54-75 | two points ten seconds and at most 500 m apart are both accepted |
| WalkPointsService.FastSecondPointDiscarded | backend/src/test/java/com/example/demo/service/WalkPointsServiceTest.java:121-142 | a second point over 50 m away one second later is discarded |
| WalkPointsService.DuplicateTimestampDiscarded | backend/src/test/java/com/example/demo/service/WalkPointsServiceTest.java:148-169 | of two points with the same timestamp only the first submitted is kept |
| WalkModel.Walk.constructor | backend/src/main/java/com/example/pettrail/model/Walk.java:54-62 | a new walk has no id, the given pet, user and start, no finish and no metrics, and is active |
| WalkModel.Walk.WithFinish | backend/src/main/java/com/example/pettrail/model/Walk.java:64-73 | the four-argument walk has no metrics and is active exactly when it has no finish |
| WalkModel.Walk.SetId | backend/src/main/java/com/example/pettrail/model/Walk.java:79-81 | sets the id and nothing else |
| WalkModel.Walk.SetPetId | backend/src/main/java/com/example/pettrail/model/Walk.java:87-89 | sets the pet id and nothing else |
| WalkModel.Walk.SetUserId | backend/src/main/java/com/example/pettrail/model/Walk.java:95-97 | sets the user id and nothing else |
| WalkModel.Walk.SetStartedAt | backend/src/main/java/com/example/pettrail/model/Walk.java:103-105 | sets the start and nothing else |
| WalkModel.Walk.SetFinishedAt | backend/src/main/java/com/example/pettrail/model/Walk.java:111-113 | sets the finish; the walk is then active exactly when the finish is null |
| WalkModel.Walk.SetDistanciaM | backend/src/main/java/com/example/pettrail/model/Walk.java:119-121 | sets the distance and nothing else |
| WalkModel.Walk.SetDuracaoS | backend/src/main/java/com/example/pettrail/model/Walk.java:127-129 | sets the duration and nothing else |
| WalkModel.Walk.SetVelMediaKmh | backend/src/main/java/com/example/pettrail/model/Walk.java:135-137 | sets the average speed and nothing else |
| WalkModel.Walk.IsActive | backend/src/main/java/com/example/pettrail/model/Walk.java:139-141 | a saved walk is active exactly when its stored row is one the active-walk queries select |
| WalkRepository.ExistsActiveWalkByPetId | backend/src/main/java/com/example/pettrail/repository/WalkRepository.java:30-31 | true exactly when some stored walk of the pet has no finish |
| WalkRepository.FindActiveWalkByPetId | backend/src/main/java/com/example/pettrail/repository/WalkRepository.java:22-23 | a hit is a stored unfinished walk of the pet; a miss means the pet has none |
| WalkRepository.FindByPetIdOrderByStartedAtDesc | backend/src/main/java/com/example/pettrail/repository/WalkRepository.java:39-40 | exactly the pet's walks, each as often as stored, newest start first |
| WalkRepository.CountByPetId | backend/src/main/java/com/example/pettrail/repository/WalkRepository.java:47-48 | the count equals the length of the pet's walk list |
| WalkRepository.CountByPetIdSplits | backend/src/main/java/com/example/pettrail/repository/WalkRepository.java:47-48 | the count is the pet's active walks plus its finished walks |
| WalkRepository.FindRow | backend/src/main/java/com/example/pettrail/repository/WalkRepository.java:15 | `findById`: a hit has that id, a miss means no row has it |
| WalkRepository.ExistsById | backend/src/main/java/com/example/pettrail/repository/WalkRepository.java:15 | `existsById` is true exactly when some row has the id |
| WalkRepository.Replace | backend/src/main/java/com/example/pettrail/repository/WalkRepository.java:15 | `save` of a stored entity overwrites the rows with its id and leaves every other row in place |
| WalkRepository.ReplaceFound | backend/src/main/java/com/example/pettrail/service/WalkService.java:125-131 | with unique ids, the saved walk is what `findById` then returns, and ids stay unique |
| WalkRepository.FinishKeepsOneActive | backend/src/main/java/com/example/pettrail/service/WalkService.java:125-131 | saving a finished walk never breaks "at most one active walk per pet" |
| WalkRepository.WalkTable.FindById | backend/src/main/java/com/example/pettrail/service/WalkService.java:101-102 | loads the stored row as a fresh entity with the same fields, or nothing when no row has the id |
| WalkRepository.WalkTable.SaveNew | backend/src/main/java/com/example/pettrail/service/WalkService.java:82-84 | a new walk is appended under an id no row has, and the id is written back into it |
| WalkRepository.WalkTable.SaveExisting | backend/src/main/java/com/example/pettrail/service/WalkService.java:131 | a loaded walk's row is overwritten and is what `findById` then finds |
| WalkService.PathLengthIsRouteLength | backend/src/main/java/com/example/pettrail/service/WalkService.java:151-173 | summing the legs between consecutive points from the end and from the front gives the same total |
| WalkService.PathLength | backend/src/main/java/com/example/pettrail/service/WalkService.java:151-173 | fewer than two points give 0; with a non-negative distance the total is non-negative |
| WalkService.PathLengthDropFirst | backend/src/main/java/com/example/pettrail/service/WalkService.java:151-173 | the total is the first leg plus the total of the rest |
| WalkService.CalculateTotalDistance | backend/src/main/java/com/example/pettrail/service/WalkService.java:151-173 | the loop returns 0 for fewer than two points and otherwise the sum of the legs between consecutive points |
| WalkService.RoundHalfUp2 | backend/src/main/java/com/example/pettrail/service/WalkService.java:190-192 | rounding to two decimals half away from zero: within half a hundredth, ties away from zero, sign kept |
| WalkService.AverageSpeedHundredths | backend/src/main/java/com/example/pettrail/service/WalkService.java:181-193 | 0 for a zero duration, else metres per second times 3.6 rounded to hundredths of km/h |
| WalkService.AverageSpeed | backend/src/main/java/com/example/pettrail/service/WalkService.java:181-193 | 0.0 for a zero duration, else the rounded km/h value |
| WalkService.AverageSpeedBounds | backend/src/main/java/com/example/pettrail/service/WalkService.java:181-193 | for a real walk the speed is non-negative and within half a hundredth of the exact km/h |
| WalkService.DurationSeconds | backend/src/main/java/com/example/pettrail/service/WalkService.java:119 | the duration is a 32-bit value, and equals the whole seconds walked whenever that fits |
| WalkService.Finished | backend/src/main/java/com/example/pettrail/service/WalkService.java:110-131 | the stopped walk keeps its id, pet, user and start, finishes at `now` and is no longer active |
| WalkService.Positions | backend/src/main/java/com/example/pettrail/service/WalkService.java:277-295 | one `[lon, lat]` position per stored point, in order (RFC 7946 section 3.1.1) |
| WalkService.Service.StartWalk | backend/src/main/java/com/example/pettrail/service/WalkService.java:66-89 | a pet the user does not own and a pet with an active walk are refused with nothing stored; otherwise one active walk started at `now` is added; at most one active walk per pet is preserved |
| WalkService.Service.StopWalk | backend/src/main/java/com/example/pettrail/service/WalkService.java:99-144 | unknown and finished walks are refused with nothing changed; otherwise the walk's row becomes `Finished` with distance, duration and speed of its ordered points, and the response carries them |
| WalkService.Service.GetGeoJson | backend/src/main/java/com/example/pettrail/service/WalkService.java:277-295 | refused exactly for an unknown walk; otherwise a LineString of the walk's ordered points |
| WalkService.Service.GetActiveWalk | backend/src/main/java/com/example/pettrail/service/WalkService.java:303-323 | refused exactly when the user does not own the pet; otherwise null exactly when the pet has no active walk, else that walk's id and start |
| WalkService.StartTwiceStopTwice | backend/src/main/java/com/example/pettrail/service/WalkService.java:77-107 | a second start without a stop is refused with `ActiveWalkExists`; when the first start succeeded, the first stop succeeds and a second stop of the same walk is refused with `WalkFinished` |
| PointsValidator.IsValid | backend/src/main/java/com/example/demo/validation/WalkPointsArrayValidator.java:12-30 | a batch is valid exactly when present with 1..5000 points; an invalid present batch records the size message, a null one records none |
| PointsValidator.OnlySizeMatters | backend/src/main/java/com/example/demo/validation/WalkPointsArrayValidator.java:12-30 | the verdict depends on the size of the batch only |
| ExceptionHandler.ContainsAt | backend/src/main/java/com/example/pettrail/exception/GlobalExceptionHandler.java:168 | a text occurring at some position is contained |
| ExceptionHandler.NotContainsFirstCharAbsent | backend/src/main/java/com/example/pettrail/exception/GlobalExceptionHandler.java:171 | a string never contains a text whose first character it lacks |
| ExceptionHandler.PaginationDetail | backend/src/main/java/com/example/pettrail/exception/GlobalExceptionHandler.java:161-185 | a message naming the page gives the page detail, else one naming the size gives the size detail, else the generic detail |
| ExceptionHandler.SizeDetail | backend/src/main/java/com/example/pettrail/exception/GlobalExceptionHandler.java:171-173 | a pagination message naming only the size answers with the size detail |
| ExceptionHandler.Respond | backend/src/main/java/com/example/pettrail/exception/GlobalExceptionHandler.java:27-43 | the response carries the status that belongs to its code, and the given code, message and details |
| ExceptionHandler.Handle | backend/src/main/java/com/example/pettrail/exception/GlobalExceptionHandler.java:27-197 | 404 exactly for unknown pet or walk, 409 exactly for an active or finished walk (with the exception's message), 500 exactly for anything else unknown, 400 otherwise; field errors are passed through; the message and details of every other case are fixed (a missing or mistyped parameter is named in its detail, a pagination error gets the detail its message picks), and which responses have no details |
| WalkController.WithDefault | backend/src/main/java/com/example/pettrail/controller/WalkController.java:392-397 | an absent query parameter takes its default, a given one is used as is |
| WalkController.CheckPagination | backend/src/main/java/com/example/pettrail/controller/WalkController.java:400-407 | page and size reach the service exactly when page >= 0 and 1 <= size <= 100; a bad page is reported before a bad size |
| WalkController.DefaultsAreFirstPageOfTen | backend/src/main/java/com/example/pettrail/controller/WalkController.java:392-397 | with no parameters the first page of ten is asked for |
| WalkController.PageMessageNamesPage | backend/src/main/java/com/example/pettrail/controller/WalkController.java:400-401 | the page guard's message reaches the client as the page detail |
| WalkController.SizeMessageIsNoPageError | backend/src/main/java/com/example/pettrail/controller/WalkController.java:403-404 | the size guard's message is not taken for a page error |
| WalkController.SizeMessageNamesSize | backend/src/main/java/com/example/pettrail/controller/WalkController.java:403-404 | the size guard's message reaches the client as the size detail |
| WalkController.PageCheckedFirst | backend/src/main/java/com/example/pettrail/controller/WalkController.java:400-405 | with both parameters wrong the client hears about the page |
| WalkController.GetActiveWalk | backend/src/main/java/com/example/pettrail/controller/WalkController.java:163-175 | a null result is a bare 404, a walk is a 200 with that walk, an exception is passed to the handler |
| PetModel.Pet.constructor | backend/src/main/java/com/example/pettrail/model/Pet.java:71-76 | a new pet has no id, the given fields and no picture |
| PetModel.Pet.Load | backend/src/main/java/com/example/pettrail/model/Pet.java:69 | a pet loaded from the table carries the row's id, and its row is the one it was loaded from |
| PetModel.Pet.SetId | backend/src/main/java/com/example/pettrail/model/Pet.java:91-93 | sets the id |
| PetModel.Pet.SetName | backend/src/main/java/com/example/pettrail/model/Pet.java:99-101 | sets the name |
| PetModel.Pet.SetSpecies | backend/src/main/java/com/example/pettrail/model/Pet.java:107-109 | sets the species |
| PetModel.Pet.SetAge | backend/src/main/java/com/example/pettrail/model/Pet.java:115-117 | sets the age |
| PetModel.Pet.SetRace | backend/src/main/java/com/example/pettrail/model/Pet.java:123-125 | sets the race |
| PetModel.PetStore.FindById | backend/src/main/java/com/example/pettrail/repository/PetRepository.java:12 | loads the stored pet as a fresh entity, or nothing for an unknown id |
| PetModel.PetStore.SaveNew | backend/src/main/java/com/example/pettrail/repository/PetRepository.java:12 | a new pet is stored under an unused id, written back into the entity |
| PetModel.PetStore.SaveExisting | backend/src/main/java/com/example/pettrail/repository/PetRepository.java:12 | a loaded pet's row is overwritten and nothing else changes |
| PetModel.PetStore.DeleteById | backend/src/main/java/com/example/pettrail/repository/PetRepository.java:12 | exactly that id is removed |
| PetController.Merge | backend/src/main/java/com/example/pettrail/controller/PetController.java:284-295 | each field given in the update replaces the stored one; absent fields and the picture are kept |
| PetController.MergeIdempotent | backend/src/main/java/com/example/pettrail/controller/PetController.java:284-295 | sending the same update twice changes nothing the second time |
| PetController.EmptyUpdateKeepsPet | backend/src/main/java/com/example/pettrail/controller/PetController.java:284-295 | an update with no fields leaves the pet as it was |
| PetController.FullUpdateReplaces | backend/src/main/java/com/example/pettrail/controller/PetController.java:284-295 | an update with every field makes the pet what the request says, whatever it was |
| PetController.Controller.GetPetById | backend/src/main/java/com/example/pettrail/controller/PetController.java:126-135 | 404 exactly for an unknown id, else the stored pet |
| PetController.Controller.CreatePet | backend/src/main/java/com/example/pettrail/controller/PetController.java:192-198 | stores exactly the request's fields under a new id and answers 201 with them |
| PetController.Controller.UpdatePet | backend/src/main/java/com/example/pettrail/controller/PetController.java:274-301 | 404 with nothing saved for an unknown id; otherwise the stored pet becomes the merge of it and the request, and is returned |
| PetController.Controller.DeletePet | backend/src/main/java/com/example/pettrail/controller/PetController.java:353-363 | a stored id is deleted with 204; any other id answers 404 with nothing changed; afterwards the id is not stored |
| Geolocation.CalculateSpeed | web/src/lib/geo.ts:46-50 | distance over the gap in seconds: a finite speed exactly when the timestamps differ, and then speed times gap is the distance; equal timestamps give +Infinity, -Infinity or NaN by the sign of the distance |
| Geolocation.Exceeds | web/src/lib/geo.ts:56 | `speed > maxSpeed` on a JavaScript number: +Infinity exceeds every bound, -Infinity and NaN none, a finite speed exactly the bounds below it |
| Geolocation.ExceedsLowerBound | web/src/lib/geo.ts:56 | a speed over a bound is over every lower bound too |
| Geolocation.IsOutlier | web/src/lib/geo.ts:52-57 | without a previous point nothing is an outlier |
| Geolocation.OutlierMeansTooFast | web/src/lib/geo.ts:46-57 | a later fix is an outlier exactly when it is farther than `maxSpeed` times the gap; a same-time fix exactly when it moved; an earlier one never |
| Geolocation.EffectiveMaxSpeed | web/src/lib/geo.ts:135 | an absent or zero bound means 50 m/s, any other is used as given |
| Geolocation.Addressed | web/src/lib/geo.ts:81-84 | the empty callback receives nothing; a watch's `onPoint` receives every point, in order |
| Geolocation.AddressedAppend | web/src/lib/geo.ts:81-84 | handing over two runs of points one after the other is handing over both together |
| Geolocation.Cancel | web/src/lib/geo.ts:63-65 | `clearTimeout`: exactly the timers with another id stay scheduled |
| Geolocation.CancelOnly | web/src/lib/geo.ts:63-65 | clearing the only scheduled timer leaves none |
| Geolocation.GeolocationService.constructor | web/src/lib/geo.ts:22-29 | no watch, no point, an empty batch and no timer |
| Geolocation.GeolocationService.SendBatch | web/src/lib/geo.ts:78-88 | an empty batch changes nothing; otherwise every batched point reaches the given callback in order, and the batch and `batchTimeout` are reset while the timer itself stays scheduled |
| Geolocation.GeolocationService.AddToBatch | web/src/lib/geo.ts:59-76 | the tracked timer is cleared; the tenth point sends the whole batch, in order, to the watch's `onPoint`; before that the point is appended and a new timer holding that `onPoint` is scheduled and tracked; a tracked-only schedule stays tracked-only |
| Geolocation.GeolocationService.OnBatchTimeout | web/src/lib/geo.ts:72-74 | a firing timer leaves the schedule and hands the whole batch, in order, to the `onPoint` it captured; when only the tracked timer was scheduled, that is the current watch's |
| Geolocation.GeolocationService.StartWatch | web/src/lib/geo.ts:123-172 | as written: a running watch is stopped as `StopWatch` does, so its timer stays scheduled and untracked; without geolocation no watch starts; otherwise a new watch begins with the filter switch and speed bound captured |
| Geolocation.GeolocationService.StartWatchClearingTimer | web/src/lib/geo.ts:123-172 | as intended: the same, with the running watch stopped by `StopWatchClearingTimer`, so a tracked-only schedule stays tracked-only across the restart |
| Geolocation.GeolocationService.OnPosition | web/src/lib/geo.ts:149-166 | a fix is kept exactly when the filter is off or it is not an outlier; a kept fix becomes the last point and enters the batch for the current watch; a rejected one changes nothing, timers included |
| Geolocation.GeolocationService.StopWatch | web/src/lib/geo.ts:174-192 | as written: the watch stops, the last point and batch are cleared and batched points reach no caller, but every scheduled timer stays scheduled |
| Geolocation.GeolocationService.StopWatchClearingTimer | web/src/lib/geo.ts:174-192 | as intended: the same, with the tracked timer cleared first, so a tracked-only schedule is left empty |
| Geolocation.TenFixesMakeABatch | web/src/lib/geo.ts:59-76 | ten unfiltered fixes from an empty batch reach the current watch's `onPoint` together, in arrival order |
| Geolocation.StaleTimerMisroutes | web/src/lib/geo.ts:174-192 | as written: a fix of watch 1, a stop, a new watch 2 with a fix `b`: watch 1's timer fires and hands `b` to watch 1's `onPoint`, and watch 2's timer stays scheduled untracked |
| Geolocation.ClearedTimerDeliversToCurrentWatch | web/src/lib/geo.ts:174-192 | with the timer cleared on stop, the same steps hand `b` to watch 2's `onPoint` and leave no timer |
| Geolocation.RestartMisroutes | web/src/lib/geo.ts:123-126 | as written: a fix of watch 1, then `startWatch` again while it runs and a fix `b` of watch 2: watch 1's timer hands `b` to watch 1's `onPoint` |
| Geolocation.ClearedRestartDeliversToCurrentWatch | web/src/lib/geo.ts:123-126 | with the timer cleared on restart, the same steps hand `b` to watch 2's `onPoint` and leave no timer |
| BatchStore.NextReady | backend/src/main/resources/static/db.js:61-88 | the cursor's first entry: a ready record with the smallest `nextAttemptAt`, the earliest in key order among equals, and none exactly when nothing is ready |
| BatchStore.RescheduleId | backend/src/main/resources/static/db.js:104-129 | only the record with that key is rewritten, in place, with the new retry fields |
| BatchStore.KeepIncreasing | backend/src/main/resources/static/db.js:181-203 | deleting records keeps keys increasing |
| BatchStore.IdNamesOne | backend/src/main/resources/static/db.js:41-59 | a key names at most one record |
| BatchStore.BatchStore.constructor | backend/src/main/resources/static/db.js:28-31 | a new object store is empty and its key generator starts at 1 |
| BatchStore.BatchStore.AddBatch | backend/src/main/resources/static/db.js:41-59 | a never-tried record, ready at `now`, is appended under the next key, larger than every stored key |
| BatchStore.BatchStore.GetNextReadyBatch | backend/src/main/resources/static/db.js:61-88 | a stored ready record with the smallest `nextAttemptAt`, or null exactly when nothing is ready |
| BatchStore.BatchStore.RemoveBatch | backend/src/main/resources/static/db.js:90-102 | removes exactly the record with that key; an absent key is not an error |
| BatchStore.BatchStore.UpdateBatchRetry | backend/src/main/resources/static/db.js:104-129 | rejects with "Batch not found" exactly when no record has the key; otherwise only that record's two retry fields change |
| BatchStore.BatchStore.GetBatchesByWalkId | backend/src/main/resources/static/db.js:131-151 | exactly the walk's records, as many as the walk has, in key order |
| BatchStore.BatchStore.GetQueueSize | backend/src/main/resources/static/db.js:153-165 | the number of stored records, zero exactly when no walk has any |
| BatchStore.BatchStore.ClearAll | backend/src/main/resources/static/db.js:167-179 | every record goes and the key generator keeps counting |
| BatchStore.BatchStore.RemoveBatchesForWalk | backend/src/main/resources/static/db.js:181-203 | the cursor deletes exactly the walk's records and keeps every other in order |
| BatchStore.KeysUpToMembers | backend/src/main/resources/static/db.js:189-198 | the keys the cursor has visited are those of the records before its position |
| BatchStore.DeleteOneMore | backend/src/main/resources/static/db.js:194 | one more cursor delete is deleting one more key |
| BatchStore.CursorCoversWalk | backend/src/main/resources/static/db.js:181-203 | deleting every key the walk's cursor visits removes exactly the walk's records |
| Networking.SendPointsBatch | backend/src/main/resources/static/net.js:18-55 | success exactly for a 2xx reply with a JSON body; stop retrying exactly for 409, 404 and 400, each with its error; everything else is a retryable network error |
| Networking.Pow2 | backend/src/main/resources/static/net.js:141-147 | `Math.pow(2, n)` is at least 1 |
| Networking.Backoff | backend/src/main/resources/static/net.js:141-147 | the capped delay lies between 5 s and 60 s and is 60 s from the fourth retry on |
| Networking.PowGrows | backend/src/main/resources/static/net.js:141-147 | powers of two grow with the exponent |
| Networking.BackoffSchedule | backend/src/main/resources/static/net.js:141-147 | the delay runs 5 s, 10 s, 20 s, 40 s and never shrinks |
| Networking.CalculateBackoff | backend/src/main/resources/static/net.js:141-147 | with jitter in [0, 1000) the wait is the capped delay plus less than a second |
| Networking.Decide | backend/src/main/resources/static/net.js:172-207 | a batch is deleted exactly on success, on a stop-retrying error, or past ten retries; otherwise it gets one more retry and a next attempt 5 to 61 s from now |
| Networking.RetryWritesBack | backend/src/main/resources/static/net.js:195-207 | a retryable failure within the limit writes back the incremented count and `now` plus the backoff |
| Networking.AtMostElevenAttempts | backend/src/main/resources/static/net.js:179-193 | a new batch survives `k` failures exactly when `k <= 10`, with retry count `k`, so it is uploaded at most eleven times |
| Networking.Settle | backend/src/main/resources/static/net.js:162-213 | handling a set of keys never grows the store, keeps every unhandled record and every written-back one |
| Networking.StepPostpones | backend/src/main/resources/static/net.js:195-207 | what the drain writes back only changes the retry fields and is not due at `now` |
| Networking.SettleMembers | backend/src/main/resources/static/net.js:162-213 | every record of a partly drained store is an unhandled original or the write-back of a handled one |
| Networking.ReadyIsOriginal | backend/src/main/resources/static/net.js:162-171 | the next ready record during a drain has not been handled yet |
| Networking.SettleNothingDone | backend/src/main/resources/static/net.js:162 | before the first pass the store is as it was |
| Networking.SettleRemove | backend/src/main/resources/static/net.js:172-178 | deleting a record is handling it with a step that drops it |
| Networking.SettleReschedule | backend/src/main/resources/static/net.js:195-207 | rewriting a record in place is handling it with a step that writes it back |
| Networking.RescheduleOne | backend/src/main/resources/static/net.js:195-207 | the in-place rewrite of the last record agrees with handling its key |
| Networking.RescheduleAppend | backend/src/main/resources/static/db.js:104-129 | the in-place rewrite distributes over concatenation |
| Networking.HandleOne | backend/src/main/resources/static/net.js:172-207 | deleting or rewriting one more due original is handling its key |
| Networking.Advance | backend/src/main/resources/static/net.js:162-213 | each pass handles a key due at the start that was not handled yet, so the drain ends |
| Networking.AllDueHandled | backend/src/main/resources/static/net.js:162-171 | when nothing is ready any more, every key due at the start has been handled |
| Networking.DrainOutcome | backend/src/main/resources/static/net.js:152-221 | after a drain a record not due stays as it was, a due one is rewritten as decided, and a deleted one leaves no record with its key |
| Networking.Networking.constructor | backend/src/main/resources/static/net.js:7-9 | no drain is running at first |
| Networking.Networking.UploadOne | backend/src/main/resources/static/net.js:165-207 | one pass uploads the batch, then deletes it or writes back its retry exactly as `Decide` says |
| Networking.Networking.DrainQueue | backend/src/main/resources/static/net.js:152-221 | nothing happens during a drain or offline; otherwise every batch due at the start is handled once, in its own place, by the reply to that stored batch, and nothing is due at `now` afterwards; the draining flag is restored |
| IdbQueue.WalkItems | web/src/lib/idbQueue.ts:50-56 | exactly the walk's items, unchanged |
| IdbQueue.Processed | web/src/lib/idbQueue.ts:89-121 | after sending a set of keys the delivered ones are gone and the failed ones carry one more retry; others are unchanged |
| IdbQueue.MinExists | web/src/lib/idbQueue.ts:79-81 | a non-empty set of timestamps has a least one |
| IdbQueue.Min | web/src/lib/idbQueue.ts:79-81 | `Math.min` of the timestamps is one of them and below all others |
| IdbQueue.IDBQueue.constructor | web/src/lib/idbQueue.ts:25-34 | a new queue is empty |
| IdbQueue.IDBQueue.Enqueue | web/src/lib/idbQueue.ts:36-48 | a new item, never retried, stamped `now`, is added; an id already stored is rejected with nothing changed |
| IdbQueue.IDBQueue.GetQueuedBatches | web/src/lib/idbQueue.ts:50-56 | exactly the walk's stored items |
| IdbQueue.IDBQueue.RemoveBatch | web/src/lib/idbQueue.ts:58-61 | removes exactly that key |
| IdbQueue.IDBQueue.IncrementRetryCount | web/src/lib/idbQueue.ts:63-73 | a stored item gets one more retry; an absent key changes nothing |
| IdbQueue.IDBQueue.GetStats | web/src/lib/idbQueue.ts:75-87 | the walk's item count, and the oldest timestamp among them, null exactly when there are none |
| IdbQueue.IDBQueue.SendQueued | web/src/lib/idbQueue.ts:100-115 | an item the sender accepts is removed; any other gets one more retry |
| IdbQueue.IDBQueue.Drain | web/src/lib/idbQueue.ts:89-121 | each of the walk's items is sent once, with its own outcome; delivered ones are removed and the rest retried; sent plus failed is the walk's item count, and what remains is the failed ones |
| IdbQueue.IDBQueue.ClearWalk | web/src/lib/idbQueue.ts:123-132 | removes exactly the walk's items |
| IdbQueue.ProcessOne | web/src/lib/idbQueue.ts:100-115 | sending one more item deletes it or retries it, and adds its key to the sent or failed keys |
| IdbQueue.DrainCounts | web/src/lib/idbQueue.ts:89-121 | once every item of the walk is sent, the sent and failed keys partition them and the walk's remaining items are the failed ones |
| WebQueueDb.ParseInt | backend/src/main/resources/web/db.js:112 | `parseInt` gives the number stored, and nothing for any other value |
| WebQueueDb.Lookup | backend/src/main/resources/web/db.js:67-82 | the stored value under the key, null exactly when there is none |
| WebQueueDb.CurrentWalkOf | backend/src/main/resources/web/db.js:105-118 | a walk exactly when id, start and recording flag are all truthy, carrying the parsed id and the start |
| WebQueueDb.SavedWalkIsCurrent | backend/src/main/resources/web/db.js:99-118 | after saving, the walk just saved is current, unless its id is 0 or its start is empty |
| WebQueueDb.ClearedWalkIsGone | backend/src/main/resources/web/db.js:120-124 | after clearing there is no current walk and the recording flag is false |
| WebQueueDb.WalkKeysOnly | backend/src/main/resources/web/db.js:99-124 | saving and clearing the walk touch no other key, so `lastSyncedAt` survives |
| WebQueueDb.WalkQueueDB.constructor | backend/src/main/resources/web/db.js:26-47 | a new database has both stores empty |
| WebQueueDb.WalkQueueDB.SetMetadata | backend/src/main/resources/web/db.js:53-65 | the key now holds the value, replacing any earlier one |
| WebQueueDb.WalkQueueDB.GetMetadata | backend/src/main/resources/web/db.js:67-82 | the value stored under the key, or null |
| WebQueueDb.WalkQueueDB.RemoveMetadata | backend/src/main/resources/web/db.js:84-96 | the key is gone; an absent key is not an error |
| WebQueueDb.WalkQueueDB.SaveCurrentWalk | backend/src/main/resources/web/db.js:99-103 | the three recording keys are written, and a usable walk is then current |
| WebQueueDb.WalkQueueDB.GetCurrentWalk | backend/src/main/resources/web/db.js:105-118 | the current walk as read from the metadata store |
| WebQueueDb.WalkQueueDB.ClearCurrentWalk | backend/src/main/resources/web/db.js:120-124 | id and start are deleted, the flag written false, and no walk is current |
| WebQueueDb.WalkQueueDB.UpdateLastSynced | backend/src/main/resources/web/db.js:126-128 | `lastSyncedAt` holds `now`, read back when non-zero |
| WebQueueDb.WalkQueueDB.GetLastSynced | backend/src/main/resources/web/db.js:130-133 | the stored time when truthy, else null |
| WebQueueDb.WalkQueueDB.ClearAll | backend/src/main/resources/web/db.js:262-284 | both stores are emptied in one go, the key generator keeps counting, and no walk or sync time is left |
| RecordingApp.PointOf | backend/src/main/resources/static/app.js:721-726 | the point carries the fix's position and time; an absent or zero altitude gives no elevation |
| RecordingApp.PatTrailApp.constructor | backend/src/main/resources/static/app.js:312-344 | idle, no walk, an empty buffer and a fresh, empty queue database |
| RecordingApp.PatTrailApp.FlushBuffer | backend/src/main/resources/static/app.js:787-809 | nothing without samples or a walk id; otherwise the buffer is emptied and its samples, in order, become one new batch of the walk |
| RecordingApp.PatTrailApp.StartGeolocationTracking | backend/src/main/resources/static/app.js:692-716 | with the location controller on, no watch of the app's own starts; otherwise one does |
| RecordingApp.PatTrailApp.HandleGeolocationSuccess | backend/src/main/resources/static/app.js:718-751 | a sample counts only while recording and in range; it is appended, and the tenth is flushed with the rest as one batch |
| RecordingApp.PatTrailApp.StartRecording | backend/src/main/resources/static/app.js:626-690 | nothing without a pet or when the backend refuses; otherwise the id is kept and saved with its start, and recording begins when geolocation is available, with a watch of the app's own only when the location controller is off |
| RecordingApp.PatTrailApp.RestoreAppState | backend/src/main/resources/static/app.js:390-452 | a saved walk is taken up again, with its own watch unless the restored controller setting is on; if tracking cannot restart, it is dropped |
| RecordingApp.PatTrailApp.StopRecording | backend/src/main/resources/static/app.js:811-887 | the app's own watch is cleared unless the location controller is on, and the buffer is flushed; a confirmed stop clears the saved walk and returns to idle; a failed one keeps the walk current |
| RecordingApp.PatTrailApp.OnControllerPosition | backend/src/main/resources/static/app.js:305-308 | as intended: while the app has no watch of its own, a controller fix is recorded exactly as `handleGeolocationSuccess` records one; with its own watch, nothing is added twice |
| RecordingApp.TenSamplesMakeABatch | backend/src/main/resources/static/app.js:735-743 | ten in-range samples from the app's own watch while recording reach the queue as one batch holding exactly those samples in order |
| RecordingApp.LocateOnRecordsNothing | backend/src/main/resources/static/app.js:700-705 | as written: a recording started with the location controller on has no watch of its own, and however many controller fixes arrive the buffer and the queue stay as they were |
| RecordingApp.LocateOnTenSamplesMakeABatch | backend/src/main/resources/static/app.js:182-184 | with controller fixes forwarded, ten in-range samples reach the queue as one batch holding exactly those samples in order |
| RecordingApp.ReloadResumesWalk | backend/src/main/resources/static/app.js:390-417 | a walk started with a usable id and start time is picked up by the next page load |
| RecordingApp.StoppedWalkStaysStopped | backend/src/main/resources/static/app.js:857-864 | after a confirmed stop, the next page load resumes nothing |
| RecordingApp.SamplePoints | backend/src/main/resources/static/app.js:735 | one point per fix, in order |
| RecordingApp.SamplePointsAppend | backend/src/main/resources/static/app.js:735 | the points of one more fix are the earlier points plus its own |
| RecordingApp.LocationController.constructor | backend/src/main/resources/static/app.js:11-55 | starts off, then takes the stored on/off and follow settings |
| RecordingApp.LocationController.SaveState | backend/src/main/resources/static/app.js:268-278 | local storage holds the current on/off and follow settings |
| RecordingApp.LocationController.RestoreState | backend/src/main/resources/static/app.js:280-291 | the stored settings come back, without starting a watch |
| RecordingApp.LocationController.EnableLocate | backend/src/main/resources/static/app.js:72-107 | once on, nothing; without geolocation or permission it stays off; otherwise a watch starts and the setting is saved |
| RecordingApp.LocationController.DisableLocate | backend/src/main/resources/static/app.js:109-132 | the watch stops, follow goes off with it, the marker leaves the map and the setting is saved |
| RecordingApp.LocationController.SetFollow | backend/src/main/resources/static/app.js:134-138 | follow takes the given value and is saved |
| RecordingApp.LocationController.ToggleLocate | backend/src/main/resources/static/app.js:140-146 | turns location off (and follow with it) when on, else tries to turn it on |
| RecordingApp.LocationController.ToggleFollow | backend/src/main/resources/static/app.js:148-152 | ignored while location is off; otherwise flips follow and saves it |
| RecordingApp.LocationController.HandlePositionUpdate | backend/src/main/resources/static/app.js:164-228 | once a fix was shown, one less accurate than 100 m is ignored; any other moves the marker, records its accuracy and recentres the map when following |

## Left out

- The haversine formula and IEEE floating point. Distances come from a
  `Distance` parameter. Reals are exact, apart from the zero-divisor
  cases of `calculateSpeed`, which are written out.
- The clock, `Math.random()`, UUID generation and `Date.now()`. They are
  parameters (`now`, `jitter`, `id`) or abstract counters (`nextId`,
  `nextKey`).
- Concurrency, transactions and promise interleaving. Each async
  operation runs to completion.
- Networking.Networking.DrainQueue: one `now` holds for the whole drain,
  so a batch that becomes due during the drain is not picked up in the
  same run.
- IdbQueue.IDBQueue.Drain: the order in which `getAll` returns a walk's
  items is not modelled; the contract holds for any order.
- Timers of `app.js`: `flushTimer`, `setInterval` and the recording
  clock. The `batchTimeout` timers of `geo.ts` are modelled: a firing is
  a call of `OnBatchTimeout` on one scheduled timer, in any order.
- `listByPet` paging and the `WalkListItem` mapping
  (`WalkService.java:233`). Only the pagination guard in front of it is
  modelled.
- The first backend's `WalkRepository` interface is not part of this
  model. Its two queries are modelled on `WalkStore` with the same
  selection as the second backend's.
- The second backend's copy of `WalkPointsService` is not part of this
  model. The filter is modelled from the first backend's copy.
- WalkRepository.FindActiveWalkByPetId: with two active walks of one
  pet the query throws `IncorrectResultSizeDataAccessException`; the
  model returns the first. The state cannot arise under the proved
  one-active-walk-per-pet invariant, only through concurrent starts.
- The store's order among rows with equal timestamps or start times.
  Insertion order is used there.
- The `Pet`–`User` association, the pet picture upload, and the
  bean-validation ranges on requests.
- The exception handler's log lines and timestamps.
- The handler's test for an unknown walk
  (`GlobalExceptionHandlerTest.java:79-92`) expects no details. The
  handler itself answers with the detail `("id", "unknown")`. The model
  follows the handler.
- UI: toasts, buttons, the summary modal, the map library, and
  local-storage errors.
- `init`/`openDB` and the schema upgrade. Both stores are taken as already open.
- The text format of `idbQueue.ts` ids. The id is a parameter.
- The recording start time kept by `app.js`. Only the on-screen timer
  reads it.
- RecordingApp.PointOf: the ISO string `ts` is represented by the
  millisecond timestamp it encodes.
- WebQueueDb.ParseInt: `parseInt` of a stored string is taken as `NaN`.
  The client only ever stores a number there.
- `getCurrentPosition` in `geo.ts`. It is a one-shot promise wrapper
  with no state.
- The `drainQueue` call that follows `flushBuffer` and the call in
  `stopRecording`. The drain itself is `Networking.DrainQueue`.
- The `startWalk`/`stopWalk`/`getPets` REST calls of `net.js`. Their
  outcomes are parameters (`started`, `stopSucceeded`).
- `sendBeaconFallback`, the service worker and background sync.
- The location controller's own `watchPosition` and permission prompt.
  Its fixes arrive as calls of `HandlePositionUpdate`.

## Findings

| source | as written | input that shows it | evidently intended | confidence | as-written member | corrected member |
|---|---|---|---|---|---|---|
| web/src/lib/geo.ts:174-192 | `stopWatch` hands a non-empty batch to `sendBatch`, which sets `batchTimeout` to null without clearing its timer, so the `clearTimeout` guard after it never fires; the timer keeps the stopped watch's `onPoint` | watch 1 keeps one fix, `stopWatch`, `startWatch` within 5 s and watch 2 keeps fix `b`: watch 1's timer fires and hands `b` to watch 1's `onPoint` | clear the tracked timer before the batch is dropped, so every later delivery goes to the current watch | high, not executed | Geolocation.StaleTimerMisroutes | Geolocation.GeolocationService.StopWatchClearingTimer |
| web/src/lib/geo.ts:123-126 | `startWatch` on a running watch stops it through the same `stopWatch`, so the old watch's timer survives the restart | watch 1 keeps one fix, `startWatch` is called again and watch 2 keeps fix `b`: watch 1's timer hands `b` to watch 1's `onPoint` | stop the running watch with its tracked timer cleared | high, not executed | Geolocation.RestartMisroutes | Geolocation.GeolocationService.StartWatchClearingTimer |
| backend/src/main/resources/static/app.js:700-705 | with the location controller on, `startGeolocationTracking` starts no watch and relies on the controller, whose `onPositionUpdate` (lines 305-308) is empty, so no fix reaches `handleGeolocationSuccess` | turn location on, start a walk, move: the buffer and the queue stay empty and the walk is stopped with no points | forward each controller fix to `handleGeolocationSuccess` while the app has no watch of its own; this does not cover a reload with the saved setting on, where the controller comes back enabled but with no watch (lines 280-291, 406-412), so no fix arrives to forward | medium, not executed | RecordingApp.LocateOnRecordsNothing | RecordingApp.PatTrailApp.OnControllerPosition |
