/** The second backend's `WalkService`: starting a walk, stopping it with its
    consolidated metrics, the GeoJSON route and the active-walk lookup.
    The clock and the logged-in user are parameters; the pet table is the
    map from each pet to its owner. */
module WalkService {
  import opened Common
  import opened WalkModel
  import opened WalkRepository
  import opened WalkPointRepository

  datatype WalkError = PetNotFound | ActiveWalkExists | WalkNotFound | WalkFinished

  /** `StartWalkResponse`: the walk id and its start instant. */
  datatype StartWalkResponse = StartWalkResponse(walkId: nat, startedAt: int)

  /** `StopWalkResponse` */
  datatype StopWalkResponse = StopWalkResponse(
    walkId: nat,
    distanciaM: real,
    duracaoS: int,
    velMediaKmh: real,
    startedAt: int,
    finishedAt: int)

  /** A GeoJSON position: `[longitude, latitude]` (section 3.1.1 of RFC 7946). */
  type Position = seq<real>

  datatype GeoJson = GeoJson(walkId: nat, coordinates: seq<Position>)

  /** `existsByIdAndUserId(petId, userId)` */
  predicate OwnsPet(petOwners: map<nat, nat>, petId: nat, userId: nat)
  {
    petId in petOwners && petOwners[petId] == userId
  }

  function RowPos(p: PointRow): Coord { Coord(p.lat, p.lon) }

  /** The distance of the leg ending at `points[i]`. */
  function Leg(dist: Distance, points: seq<PointRow>, i: nat): real
    requires 1 <= i < |points|
  {
    dist(RowPos(points[i - 1]), RowPos(points[i]))
  }

  /** Sum of the legs between consecutive points, grown at the end as the
      loop in `calculateTotalDistance` does. */
  function PathLength(dist: Distance, points: seq<PointRow>): (r: real)
    ensures |points| < 2 ==> r == 0.0
    ensures (forall a, b :: dist(a, b) >= 0.0) ==> r >= 0.0
  {
    if |points| < 2 then 0.0
    else PathLength(dist, points[..|points| - 1]) + Leg(dist, points, |points| - 1)
  }

  /** The same sum taken from the front: the first leg plus the rest of the
      route. An independent reading of "summed leg distance". */
  function RouteLength(dist: Distance, points: seq<PointRow>): real
  {
    if |points| < 2 then 0.0
    else dist(RowPos(points[0]), RowPos(points[1])) + RouteLength(dist, points[1..])
  }

  lemma {:induction false} PathLengthDropFirst(dist: Distance, points: seq<PointRow>)
    requires |points| >= 2
    ensures PathLength(dist, points) == dist(RowPos(points[0]), RowPos(points[1])) + PathLength(dist, points[1..])
    decreases |points|
  {
    if |points| > 2 {
      var init := points[..|points| - 1];
      PathLengthDropFirst(dist, init);
      assert init[1..] == points[1..][..|points| - 2];
      assert init[0] == points[0] && init[1] == points[1];
      assert Leg(dist, points, |points| - 1) == Leg(dist, points[1..], |points| - 2);
    }
  }

  /** Summing legs from the end and from the front gives the same total. */
  lemma {:induction false} PathLengthIsRouteLength(dist: Distance, points: seq<PointRow>)
    ensures PathLength(dist, points) == RouteLength(dist, points)
    decreases |points|
  {
    if |points| >= 2 {
      PathLengthDropFirst(dist, points);
      PathLengthIsRouteLength(dist, points[1..]);
    }
  }

  /** `calculateTotalDistance`: 0 for fewer than two points, else the sum of
      the legs between consecutive points in the given order. */
  method CalculateTotalDistance(points: seq<PointRow>, dist: Distance) returns (total: real)
    ensures total == PathLength(dist, points) && total == RouteLength(dist, points)
    ensures |points| < 2 ==> total == 0.0
  {
    PathLengthIsRouteLength(dist, points);
    if |points| < 2 {
      return 0.0;
    }
    total := 0.0;
    for i := 1 to |points|
      invariant total == PathLength(dist, points[..i])
    {
      assert points[..i + 1][..i] == points[..i];
      total := total + Leg(dist, points, i);
    }
    assert points[..|points|] == points;
  }

  /** `BigDecimal.setScale(2, RoundingMode.HALF_UP)` in hundredths: the
      nearest hundredth, ties away from zero. */
  function RoundHalfUp2(x: real): (h: int)
    ensures x >= 0.0 ==> (h as real) - 0.5 <= 100.0 * x < (h as real) + 0.5
    ensures x < 0.0 ==> (h as real) - 0.5 < 100.0 * x <= (h as real) + 0.5
    ensures x >= 0.0 ==> h >= 0
    ensures x <= 0.0 ==> h <= 0
  {
    if x >= 0.0 then (100.0 * x + 0.5).Floor
    else -((-100.0 * x + 0.5).Floor)
  }

  /** `calculateAverageSpeed` in hundredths of km/h: 0 for a zero duration,
      else (distance / 1000) / (duration / 3600) rounded half-up. */
  function AverageSpeedHundredths(distanceM: real, durationS: int): (h: int)
    ensures durationS == 0 ==> h == 0
    ensures durationS != 0 ==>
      var exact := 100.0 * ((distanceM / 1000.0) / ((durationS as real) / 3600.0));
      (h as real) - 0.5 <= exact <= (h as real) + 0.5
  {
    if durationS == 0 then 0
    else RoundHalfUp2((distanceM / 1000.0) / ((durationS as real) / 3600.0))
  }

  function AverageSpeed(distanceM: real, durationS: int): (v: real)
    ensures durationS == 0 ==> v == 0.0
  {
    AverageSpeedHundredths(distanceM, durationS) as real / 100.0
  }

  /** The speed of a real walk: a non-negative distance over a positive
      duration gives a non-negative speed within half a hundredth of the
      exact km/h value. */
  lemma AverageSpeedBounds(distanceM: real, durationS: int)
    requires distanceM >= 0.0 && durationS > 0
    ensures AverageSpeed(distanceM, durationS) >= 0.0
    ensures var exact := distanceM * 3.6 / (durationS as real);
      exact - 0.005 <= AverageSpeed(distanceM, durationS) <= exact + 0.005
  {
    var d := durationS as real;
    var exact := distanceM * 3.6 / d;
    assert (distanceM / 1000.0) / (d / 3600.0) == exact;
    assert exact >= 0.0;
  }

  /** `(int) Duration.between(startedAt, finishedAt).getSeconds()`: whole
      seconds, fraction dropped toward the earlier instant, then narrowed
      to a Java `int`. */
  function DurationSeconds(startedAt: int, finishedAt: int): (s: int)
    ensures -TwoTo31 <= s < TwoTo31
    ensures 0 <= finishedAt - startedAt < TwoTo31 * NanosPerSecond ==>
      0 <= s && s * NanosPerSecond <= finishedAt - startedAt < (s + 1) * NanosPerSecond
  {
    ToInt32(WholeSeconds(startedAt, finishedAt))
  }

  /** The walk row after a successful stop at `now` with the given points. */
  function Finished(row: WalkRow, points: seq<PointRow>, dist: Distance, now: int): (f: WalkRow)
    ensures f.id == row.id && f.petId == row.petId && f.userId == row.userId
    ensures f.startedAt == row.startedAt && f.finishedAt == Some(now) && !RowActive(f)
  {
    var total := PathLength(dist, points);
    var duracao := DurationSeconds(row.startedAt, now);
    row.(finishedAt := Some(now),
         distanciaM := Some(total),
         duracaoS := Some(duracao),
         velMediaKmh := Some(AverageSpeed(total, duracao)))
  }

  /** The coordinates of a route, one `[lon, lat]` per point, in order. */
  function Positions(points: seq<PointRow>): (c: seq<Position>)
    ensures |c| == |points|
    ensures forall i :: 0 <= i < |points| ==> c[i] == [points[i].lon, points[i].lat]
  {
    if points == [] then [] else [[points[0].lon, points[0].lat]] + Positions(points[1..])
  }

  /** The metrics and setter calls of a successful `stopWalk`, applied to
      the loaded entity. */
  method RecordStop(walk: Walk, points: seq<PointRow>, dist: Distance, now: int)
    requires walk.id.Some?
    modifies walk
    ensures walk.id == old(walk.id)
    ensures walk.Row() == Finished(old(walk.Row()), points, dist, now)
  {
    ghost var row := walk.Row();
    var totalDistanceM := CalculateTotalDistance(points, dist);
    var finishedAt := now;
    var duracaoS := DurationSeconds(walk.startedAt, finishedAt);
    var velMediaKmh := AverageSpeed(totalDistanceM, duracaoS);
    walk.SetFinishedAt(Some(finishedAt));
    walk.SetDistanciaM(Some(totalDistanceM));
    walk.SetDuracaoS(Some(duracaoS));
    walk.SetVelMediaKmh(Some(velMediaKmh));
  }

  class Service {
    const walkRepository: WalkTable
    const walkPointRepository: PointTable

    constructor (walkRepository: WalkTable, walkPointRepository: PointTable)
      ensures this.walkRepository == walkRepository && this.walkPointRepository == walkPointRepository
    {
      this.walkRepository := walkRepository;
      this.walkPointRepository := walkPointRepository;
    }

    /** `startWalk`: ownership first, then the active-walk check, then one
        new active walk started at `now`. */
    method StartWalk(petId: nat, petOwners: map<nat, nat>, userId: nat, now: int)
      returns (r: Result<StartWalkResponse, WalkError>)
      requires walkRepository.Valid()
      modifies walkRepository
      ensures walkRepository.Valid()
      ensures !OwnsPet(petOwners, petId, userId) ==>
        r == Err(PetNotFound) && walkRepository.rows == old(walkRepository.rows)
      ensures OwnsPet(petOwners, petId, userId) && ExistsActiveWalkByPetId(old(walkRepository.rows), petId) ==>
        r == Err(ActiveWalkExists) && walkRepository.rows == old(walkRepository.rows)
      ensures OwnsPet(petOwners, petId, userId) && !ExistsActiveWalkByPetId(old(walkRepository.rows), petId) ==>
        && r.Ok? && r.value.startedAt == now
        && !ExistsById(old(walkRepository.rows), r.value.walkId)
        && walkRepository.rows
           == old(walkRepository.rows) + [WalkRow(r.value.walkId, petId, userId, now, None, None, None, None)]
        && ExistsActiveWalkByPetId(walkRepository.rows, petId)
      ensures OneActivePerPet(old(walkRepository.rows)) ==> OneActivePerPet(walkRepository.rows)
    {
      if !OwnsPet(petOwners, petId, userId) {
        return Err(PetNotFound);
      }
      if ExistsActiveWalkByPetId(walkRepository.rows, petId) {
        return Err(ActiveWalkExists);
      }
      var walk := new Walk(petId, userId, now);
      var saved := walkRepository.SaveNew(walk);
      assert saved in walkRepository.rows;
      ghost var rows := walkRepository.rows;
      forall i, j | 0 <= i < j < |rows| && RowActive(rows[i]) && RowActive(rows[j])
        && OneActivePerPet(old(walkRepository.rows))
        ensures rows[i].petId != rows[j].petId
      {
        if j == |rows| - 1 {
          assert rows[i] in old(walkRepository.rows);
        }
      }
      return Ok(StartWalkResponse(saved.id, now));
    }

    /** `stopWalk`: unknown and finished walks are refused with nothing
        saved; otherwise the walk is finished at `now` with its distance,
        duration and speed, saved once, and those values returned. */
    method StopWalk(walkId: nat, now: int, dist: Distance) returns (r: Result<StopWalkResponse, WalkError>)
      requires walkRepository.Valid()
      modifies walkRepository
      ensures walkRepository.Valid()
      ensures FindRow(old(walkRepository.rows), walkId).None? ==>
        r == Err(WalkNotFound) && walkRepository.rows == old(walkRepository.rows)
      ensures FindRow(old(walkRepository.rows), walkId).Some? && !RowActive(FindRow(old(walkRepository.rows), walkId).value) ==>
        r == Err(WalkFinished) && walkRepository.rows == old(walkRepository.rows)
      ensures FindRow(old(walkRepository.rows), walkId).Some? && RowActive(FindRow(old(walkRepository.rows), walkId).value) ==>
        var row := FindRow(old(walkRepository.rows), walkId).value;
        var points := FindByWalkIdOrderByTimestamp(walkPointRepository.rows, walkId);
        var f := Finished(row, points, dist, now);
        && walkRepository.rows == Replace(old(walkRepository.rows), f)
        && r == Ok(StopWalkResponse(walkId, f.distanciaM.value, f.duracaoS.value, f.velMediaKmh.value, row.startedAt, now))
        && FindRow(walkRepository.rows, walkId) == Some(f)
      ensures OneActivePerPet(old(walkRepository.rows)) ==> OneActivePerPet(walkRepository.rows)
    {
      var found := walkRepository.FindById(walkId);
      if found.None? {
        return Err(WalkNotFound);
      }
      var walk := found.value;
      if walk.finishedAt != None {
        return Err(WalkFinished);
      }
      var points := FindByWalkIdOrderByTimestamp(walkPointRepository.rows, walkId);
      RecordStop(walk, points, dist, now);
      if OneActivePerPet(walkRepository.rows) {
        FinishKeepsOneActive(walkRepository.rows, walk.Row());
      }
      var saved := walkRepository.SaveExisting(walk);
      return Ok(StopWalkResponse(saved.id, saved.distanciaM.value, saved.duracaoS.value,
                                 saved.velMediaKmh.value, saved.startedAt, saved.finishedAt.value));
    }

    /** `getGeoJson`: refused for an unknown walk, else one `[lon, lat]` per
        stored point of the walk, in timestamp order. */
    function GetGeoJson(walkId: nat): (r: Result<GeoJson, WalkError>)
      reads this, walkRepository, walkPointRepository
      ensures r.Err? <==> !ExistsById(walkRepository.rows, walkId)
      ensures r.Err? ==> r.error == WalkNotFound
      ensures r.Ok? ==>
        var points := FindByWalkIdOrderByTimestamp(walkPointRepository.rows, walkId);
        && r.value.walkId == walkId
        && |r.value.coordinates| == CountByWalkId(walkPointRepository.rows, walkId)
        && forall i :: 0 <= i < |points| ==> r.value.coordinates[i] == [points[i].lon, points[i].lat]
    {
      if !ExistsById(walkRepository.rows, walkId) then Err(WalkNotFound)
      else Ok(GeoJson(walkId, Positions(FindByWalkIdOrderByTimestamp(walkPointRepository.rows, walkId))))
    }

    /** `getActiveWalk`: refused unless the user owns the pet; otherwise the
        pet's active walk, or nothing (`null`) when it has none. */
    function GetActiveWalk(petId: nat, petOwners: map<nat, nat>, userId: nat): (r: Result<Option<StartWalkResponse>, WalkError>)
      reads this, walkRepository
      ensures !OwnsPet(petOwners, petId, userId) <==> r == Err(PetNotFound)
      ensures r.Ok? ==> (r.value.None? <==> !ExistsActiveWalkByPetId(walkRepository.rows, petId))
      ensures r.Ok? && r.value.Some? ==>
        exists w :: w in walkRepository.rows && w.id == r.value.value.walkId && w.petId == petId
          && RowActive(w) && w.startedAt == r.value.value.startedAt
    {
      if !OwnsPet(petOwners, petId, userId) then Err(PetNotFound)
      else
        match FindActiveWalkByPetId(walkRepository.rows, petId)
        case None => Ok(None)
        case Some(w) => Ok(Some(StartWalkResponse(w.id, w.startedAt)))
    }
  }

  /** Without a stop in between, a second start for the same pet is refused,
      and after a successful stop every further stop is refused. */
  method StartTwiceStopTwice(s: Service, petId: nat, petOwners: map<nat, nat>, userId: nat, t0: int, t1: int, dist: Distance)
    returns (first: Result<StartWalkResponse, WalkError>, second: Result<StartWalkResponse, WalkError>,
             stops: seq<Result<StopWalkResponse, WalkError>>)
    requires s.walkRepository.Valid() && OwnsPet(petOwners, petId, userId)
    modifies s.walkRepository
    ensures s.walkRepository.Valid()
    ensures second == Err(ActiveWalkExists)
    ensures first.Err? ==> stops == []
    ensures first.Ok? ==> |stops| == 2 && stops[0].Ok? && stops[1] == Err(WalkFinished)
  {
    first := s.StartWalk(petId, petOwners, userId, t0);
    second := s.StartWalk(petId, petOwners, userId, t0);
    stops := [];
    if first.Ok? {
      var stop1 := s.StopWalk(first.value.walkId, t1, dist);
      var stop2 := s.StopWalk(first.value.walkId, t1, dist);
      stops := [stop1, stop2];
    }
  }
}
