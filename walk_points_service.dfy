/** `WalkPointsService.ingestPoints`: a batch of GPS points for an active walk
    is copied, stably sorted by timestamp, filtered against the last accepted
    point (non-increasing whole-second gap, or implied speed over 50 m/s), and
    the accepted points are saved. */
module WalkPointsService {
  import opened Common
  import StableSort
  import DemoWalkModel
  import opened WalkPointRepository

  /** Speed threshold in metres per second (180 km/h). */
  const SpeedThresholdMps: real := 50.0

  /** A `WalkPointRequest`; `ts` in nanoseconds. The bean-validation ranges
      on the request (latitude in [-90, 90], longitude in [-180, 180]) are
      checked before the service runs and play no part in the filter. */
  datatype PointRequest = PointRequest(lat: real, lon: real, ts: int, elev: Option<real>)

  datatype BatchResponse = BatchResponse(received: nat, accepted: nat, discarded: nat)

  datatype IngestError = WalkNotFound | WalkFinished

  function Pos(p: PointRequest): Coord { Coord(p.lat, p.lon) }

  function RequestTs(p: PointRequest): int { p.ts }

  /** Whether `cur` is accepted when `prev` is the last accepted point: the
      whole-second gap must be positive and the implied speed at most 50 m/s,
      that is, `cur` is at least a second later and at most 50 m per whole
      second away. */
  function Follows(dist: Distance, prev: PointRequest, cur: PointRequest): (b: bool)
    ensures b <==> prev.ts + NanosPerSecond <= cur.ts
                   && dist(Pos(prev), Pos(cur)) <= SpeedThresholdMps * (WholeSeconds(prev.ts, cur.ts) as real)
  {
    var gap := WholeSeconds(prev.ts, cur.ts);
    gap > 0 && !TooFast(dist(Pos(prev), Pos(cur)), gap)
  }

  /** `distance / seconds > SPEED_THRESHOLD_MPS` for a positive gap. */
  function TooFast(d: real, gap: int): (b: bool)
    requires gap > 0
    ensures b <==> d > SpeedThresholdMps * (gap as real)
  {
    assert d == (d / (gap as real)) * (gap as real);
    d / (gap as real) > SpeedThresholdMps
  }

  /** The points the scan accepts from `s`, taken in order; the reference
      point is the last accepted one and starts empty, so the first point is
      always accepted. */
  function Accepted(dist: Distance, s: seq<PointRequest>): (r: seq<PointRequest>)
    ensures |r| <= |s|
    ensures s != [] ==> r != [] && r[0] == s[0]
  {
    if s == [] then []
    else
      var acc := Accepted(dist, s[..|s| - 1]);
      var cur := s[|s| - 1];
      if acc == [] || Follows(dist, acc[|acc| - 1], cur) then acc + [cur] else acc
  }

  /** What one call accepts: the filter over the stably sorted batch. */
  function Ingested(dist: Distance, points: seq<PointRequest>): seq<PointRequest>
  {
    Accepted(dist, StableSort.SortBy(points, RequestTs))
  }

  /** `new WalkPoint(walkId, lat, lon, ts, elev)` */
  function ToRow(walkId: nat, p: PointRequest): PointRow
  {
    PointRow(walkId, p.lat, p.lon, p.ts, p.elev)
  }

  function Rows(walkId: nat, s: seq<PointRequest>): (r: seq<PointRow>)
    ensures |r| == |s|
    ensures forall i :: 0 <= i < |s| ==> r[i] == ToRow(walkId, s[i])
  {
    if s == [] then [] else Rows(walkId, s[..|s| - 1]) + [ToRow(walkId, s[|s| - 1])]
  }

  /** The loop of `ingestPoints` over the sorted copy: the rows to save and
      the accepted and discarded counts. */
  method ScanSorted(sorted: array<PointRequest>, walkId: nat, dist: Distance)
    returns (toSave: seq<PointRow>, accepted: nat, discarded: nat)
    ensures toSave == Rows(walkId, Accepted(dist, sorted[..]))
    ensures accepted == |Accepted(dist, sorted[..])|
    ensures accepted + discarded == sorted.Length
  {
    var previous: Option<PointRequest> := None;
    ghost var acc: seq<PointRequest> := [];
    toSave, accepted, discarded := [], 0, 0;
    for i := 0 to sorted.Length
      invariant acc == Accepted(dist, sorted[..i])
      invariant previous == if acc == [] then None else Some(acc[|acc| - 1])
      invariant toSave == Rows(walkId, acc)
      invariant accepted == |acc| && accepted + discarded == i
    {
      var current := sorted[i];
      assert sorted[..i + 1] == sorted[..i] + [current];
      AcceptedSnoc(dist, sorted[..i], current);
      RowsSnoc(walkId, acc, current);
      var shouldAccept := true;
      if previous.Some? {
        var gapSeconds := WholeSeconds(previous.value.ts, current.ts);
        if gapSeconds <= 0 {
          shouldAccept := false;
        } else {
          var distanceMeters := dist(Pos(previous.value), Pos(current));
          var speedMps := distanceMeters / (gapSeconds as real);
          if speedMps > SpeedThresholdMps {
            shouldAccept := false;
          }
        }
      }
      if shouldAccept {
        toSave := toSave + [ToRow(walkId, current)];
        accepted := accepted + 1;
        previous := Some(current);
        acc := acc + [current];
      } else {
        discarded := discarded + 1;
      }
    }
    assert sorted[..sorted.Length] == sorted[..];
  }

  /** One more point is accepted exactly when nothing was accepted yet or
      it follows the last accepted point. */
  lemma AcceptedSnoc(dist: Distance, s: seq<PointRequest>, x: PointRequest)
    ensures var acc := Accepted(dist, s);
      Accepted(dist, s + [x]) == if acc == [] || Follows(dist, acc[|acc| - 1], x) then acc + [x] else acc
  {
    var t := s + [x];
    assert t[..|t| - 1] == s;
    assert t[|t| - 1] == x;
  }

  lemma RowsSnoc(walkId: nat, s: seq<PointRequest>, x: PointRequest)
    ensures Rows(walkId, s + [x]) == Rows(walkId, s) + [ToRow(walkId, x)]
  {
    assert (s + [x])[..|s|] == s;
  }

  class Service {
    const walkRepository: DemoWalkModel.WalkStore
    const walkPointRepository: PointTable

    constructor (walks: DemoWalkModel.WalkStore, points: PointTable)
      ensures walkRepository == walks && walkPointRepository == points
    {
      walkRepository := walks;
      walkPointRepository := points;
    }

    /** `ingestPoints(walkId, points)`. An unknown walk and a finished walk
        are errors that save nothing; otherwise exactly the accepted points
        are saved, in one `saveAll` call made only when there are some. */
    method IngestPoints(walkId: nat, points: seq<PointRequest>, dist: Distance)
      returns (r: Result<BatchResponse, IngestError>)
      modifies walkPointRepository
      ensures var found := walkRepository.FindById(walkId);
        if found.None? then r == Err(WalkNotFound)
        else if !DemoWalkModel.Active(found.value) then r == Err(WalkFinished)
        else r.Ok?
      ensures r.Err? ==>
        && walkPointRepository.rows == old(walkPointRepository.rows)
        && walkPointRepository.saveAllCalls == old(walkPointRepository.saveAllCalls)
      ensures r.Ok? ==>
        var accepted := Ingested(dist, points);
        && r.value == BatchResponse(|points|, |accepted|, |points| - |accepted|)
        && walkPointRepository.rows == old(walkPointRepository.rows) + Rows(walkId, accepted)
        && walkPointRepository.saveAllCalls
             == old(walkPointRepository.saveAllCalls) + (if accepted == [] then [] else [Rows(walkId, accepted)])
    {
      var walk := walkRepository.FindById(walkId);
      if walk.None? {
        return Err(WalkNotFound);
      }
      if !DemoWalkModel.Active(walk.value) {
        return Err(WalkFinished);
      }
      var received := |points|;
      var sortedPoints := new PointRequest[|points|](i requires 0 <= i < |points| => points[i]);
      assert sortedPoints[..] == points;
      StableSort.InsertionSort(sortedPoints, RequestTs);
      var pointsToSave, accepted, discarded := ScanSorted(sortedPoints, walkId, dist);
      if pointsToSave != [] {
        walkPointRepository.SaveAll(pointsToSave);
      }
      return Ok(BatchResponse(received, accepted, discarded));
    }
  }

  // ---------------------------------------------------------------------
  // Properties of the filter

  /** Accepted points appear in the input, in the input's order. */
  ghost predicate IsSubsequence<T>(a: seq<T>, b: seq<T>)
    decreases |b|
  {
    if a == [] then true
    else if b == [] then false
    else if a[|a| - 1] == b[|b| - 1] then IsSubsequence(a[..|a| - 1], b[..|b| - 1])
    else IsSubsequence(a, b[..|b| - 1])
  }

  lemma {:induction false} SubsequenceDropLast<T>(a: seq<T>, b: seq<T>)
    requires a != [] && IsSubsequence(a, b)
    ensures IsSubsequence(a[..|a| - 1], b)
    decreases |b|, 0
  {
    if a[|a| - 1] == b[|b| - 1] {
      SubsequenceExtend(a[..|a| - 1], b[..|b| - 1], b[|b| - 1]);
    } else {
      SubsequenceDropLast(a, b[..|b| - 1]);
      SubsequenceExtend(a[..|a| - 1], b[..|b| - 1], b[|b| - 1]);
    }
  }

  lemma {:induction false} SubsequenceExtend<T>(a: seq<T>, b: seq<T>, x: T)
    requires IsSubsequence(a, b)
    ensures IsSubsequence(a, b + [x])
    decreases |b|, 1
  {
    var b' := b + [x];
    assert b'[..|b'| - 1] == b;
    if a != [] && a[|a| - 1] == x {
      SubsequenceDropLast(a, b);
    }
  }

  lemma {:induction false} AcceptedIsSubsequence(dist: Distance, s: seq<PointRequest>)
    ensures IsSubsequence(Accepted(dist, s), s)
  {
    if s != [] {
      var init := s[..|s| - 1];
      AcceptedIsSubsequence(dist, init);
      var acc := Accepted(dist, init);
      if Accepted(dist, s) == acc + [s[|s| - 1]] {
        assert (acc + [s[|s| - 1]])[..|acc|] == acc;
      } else {
        SubsequenceExtend(acc, init, s[|s| - 1]);
        assert init + [s[|s| - 1]] == s;
      }
    }
  }

  /** Every accepted point after the first was accepted against the one
      before it: a gap of at least one whole second, and no more than 50 m
      per second of gap. */
  lemma {:induction false} AcceptedConsecutive(dist: Distance, s: seq<PointRequest>)
    ensures Chained(dist, Accepted(dist, s))
  {
    if s != [] {
      var init := s[..|s| - 1];
      AcceptedConsecutive(dist, init);
      var acc := Accepted(dist, init);
      var cur := s[|s| - 1];
      if acc != [] && Follows(dist, acc[|acc| - 1], cur) {
        var r := acc + [cur];
        assert Accepted(dist, s) == r;
        forall i | 0 <= i < |r| - 1 ensures Follows(dist, r[i], r[i + 1]) {
          if i < |acc| - 1 {
            assert r[i] == acc[i] && r[i + 1] == acc[i + 1];
            assert Follows(dist, acc[i], acc[i + 1]);
          } else {
            assert r[i] == acc[|acc| - 1] && r[i + 1] == cur;
          }
        }
      }
    }
  }

  ghost predicate Chained(dist: Distance, r: seq<PointRequest>)
  {
    forall i :: 0 <= i < |r| - 1 ==> Follows(dist, r[i], r[i + 1])
  }

  /** The accepted timestamps strictly increase, by at least a second per step. */
  lemma AcceptedIncreasing(dist: Distance, s: seq<PointRequest>)
    ensures var r := Accepted(dist, s);
      forall i, j :: 0 <= i < j < |r| ==> r[i].ts + (j - i) * NanosPerSecond <= r[j].ts
  {
    var r := Accepted(dist, s);
    AcceptedConsecutive(dist, s);
    forall i, j | 0 <= i < j < |r| ensures r[i].ts + (j - i) * NanosPerSecond <= r[j].ts {
      var k := i;
      while k < j
        invariant i <= k <= j
        invariant r[i].ts + (k - i) * NanosPerSecond <= r[k].ts
      {
        assert Follows(dist, r[k], r[k + 1]);
        k := k + 1;
      }
    }
  }

  /** A batch whose points all share one timestamp keeps only its first point. */
  lemma {:induction false} SameTimestampKeepsOne(dist: Distance, s: seq<PointRequest>)
    requires s != []
    requires forall i :: 0 <= i < |s| ==> s[i].ts == s[0].ts
    ensures Accepted(dist, s) == [s[0]]
  {
    if |s| > 1 {
      SameTimestampKeepsOne(dist, s[..|s| - 1]);
    }
  }

  /** A non-empty batch always accepts a point with the smallest timestamp,
      whatever the walk already holds: the reference is never seeded from an
      earlier batch. */
  lemma NonEmptyBatchAcceptsEarliest(dist: Distance, points: seq<PointRequest>)
    requires points != []
    ensures var r := Ingested(dist, points);
      1 <= |r| <= |points| && r[0] in points
      && forall p :: p in points ==> r[0].ts <= p.ts
  {
    var sorted := StableSort.SortBy(points, RequestTs);
    StableSort.SortByMembers(points, RequestTs);
    StableSort.SortByIsSorted(points, RequestTs);
    forall p | p in points ensures sorted[0].ts <= p.ts {
      var k :| 0 <= k < |sorted| && sorted[k] == p;
      assert RequestTs(sorted[0]) <= RequestTs(sorted[k]) || k == 0;
    }
  }

  // ---------------------------------------------------------------------
  // The cases exercised by the service's tests

  /** Two points ten seconds apart and at most 500 m apart are both kept. */
  lemma TwoPointsTenSecondsApart(dist: Distance, p: PointRequest, q: PointRequest)
    requires q.ts == p.ts + 10 * NanosPerSecond
    requires dist(Pos(p), Pos(q)) <= 500.0
    ensures Ingested(dist, [p, q]) == [p, q]
  {
    var s := [p, q];
    assert StableSort.SortedBy(s, RequestTs);
    StableSort.SortBySorted(s, RequestTs);
    assert s[..1] == [p];
  }

  /** A second point over 50 m away after one second is discarded. */
  lemma FastSecondPointDiscarded(dist: Distance, p: PointRequest, q: PointRequest)
    requires q.ts == p.ts + NanosPerSecond
    requires dist(Pos(p), Pos(q)) > 50.0
    ensures Ingested(dist, [p, q]) == [p]
  {
    var s := [p, q];
    assert StableSort.SortedBy(s, RequestTs);
    StableSort.SortBySorted(s, RequestTs);
    assert s[..1] == [p];
  }

  /** Of two points with the same timestamp only the first submitted is kept. */
  lemma DuplicateTimestampDiscarded(dist: Distance, p: PointRequest, q: PointRequest)
    requires q.ts == p.ts
    ensures Ingested(dist, [p, q]) == [p]
  {
    var s := [p, q];
    assert StableSort.SortedBy(s, RequestTs);
    StableSort.SortBySorted(s, RequestTs);
    SameTimestampKeepsOne(dist, s);
  }
}
