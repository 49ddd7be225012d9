/** The web client's `GeolocationService`: position fixes pass an optional
    speed-based outlier filter, are collected into batches of ten and handed
    to the caller's `onPoint` one by one, in arrival order. Timers are
    explicit: `timers` holds every scheduled `batchTimeout` with the watch
    whose `onPoint` it captured, `OnBatchTimeout` is one of them firing, and
    `delivered` records which watch's callback received which point. */
module Geolocation {
  import opened Common

  datatype GeoPoint = GeoPoint(latitude: real, longitude: real, timestamp: int, elevation: Option<real>, accuracy: Option<real>)

  const BatchSize: nat := 10
  const DefaultMaxSpeed: real := 50.0

  function PointPos(p: GeoPoint): Coord { Coord(p.latitude, p.longitude) }

  /** The value of a JavaScript division, keeping the cases IEEE gives for
      a zero divisor. */
  datatype Speed = Finite(v: real) | PlusInfinity | MinusInfinity | NotANumber

  /** `calculateSpeed`: distance over the gap in seconds (timestamps are in
      milliseconds). A zero gap gives IEEE's infinity, or NaN when the
      points coincide. */
  function CalculateSpeed(dist: Distance, p1: GeoPoint, p2: GeoPoint): (s: Speed)
    ensures var d := dist(PointPos(p1), PointPos(p2));
      && (s.Finite? <==> p1.timestamp != p2.timestamp)
      && (s.Finite? ==> s.v * ((p2.timestamp - p1.timestamp) as real / 1000.0) == d)
      && (s.PlusInfinity? <==> p1.timestamp == p2.timestamp && d > 0.0)
      && (s.MinusInfinity? <==> p1.timestamp == p2.timestamp && d < 0.0)
      && (s.NotANumber? <==> p1.timestamp == p2.timestamp && d == 0.0)
  {
    var distance := dist(PointPos(p1), PointPos(p2));
    var timeDiff := (p2.timestamp - p1.timestamp) as real / 1000.0;
    if timeDiff != 0.0 then Finite(distance / timeDiff)
    else if distance > 0.0 then PlusInfinity
    else if distance < 0.0 then MinusInfinity
    else NotANumber
  }

  /** `speed > maxSpeed`: an infinite speed exceeds every bound, and any
      comparison with NaN is false. */
  function Exceeds(s: Speed, maxSpeed: real): (b: bool)
    ensures s.PlusInfinity? ==> b
    ensures s.MinusInfinity? || s.NotANumber? ==> !b
    ensures s.Finite? ==> (b <==> maxSpeed < s.v)
  {
    match s
    case Finite(v) => v > maxSpeed
    case PlusInfinity => true
    case MinusInfinity => false
    case NotANumber => false
  }

  /** A speed over a bound is over every lower bound too, so raising
      `maxSpeed` only ever lets more fixes through. */
  lemma ExceedsLowerBound(s: Speed, maxSpeed: real, lower: real)
    requires lower <= maxSpeed && Exceeds(s, maxSpeed)
    ensures Exceeds(s, lower)
  {
  }

  /** `isOutlier` */
  function IsOutlier(lastPoint: Option<GeoPoint>, p: GeoPoint, maxSpeed: real, dist: Distance): (b: bool)
    ensures lastPoint.None? ==> !b
  {
    lastPoint.Some? && Exceeds(CalculateSpeed(dist, lastPoint.value, p), maxSpeed)
  }

  /** A later fix is an outlier exactly when it lies farther from the last
      kept one than `maxSpeed` allows over the gap; a fix with the same
      timestamp exactly when it moved; an earlier fix never, for a
      non-negative distance and bound. */
  lemma OutlierMeansTooFast(q: GeoPoint, p: GeoPoint, maxSpeed: real, dist: Distance)
    ensures var d := dist(PointPos(q), PointPos(p));
      var secs := (p.timestamp - q.timestamp) as real / 1000.0;
      && (p.timestamp > q.timestamp ==> (IsOutlier(Some(q), p, maxSpeed, dist) <==> d > maxSpeed * secs))
      && (p.timestamp == q.timestamp ==> (IsOutlier(Some(q), p, maxSpeed, dist) <==> d > 0.0))
      && (p.timestamp < q.timestamp && d >= 0.0 && maxSpeed >= 0.0 ==> !IsOutlier(Some(q), p, maxSpeed, dist))
  {
    var d := dist(PointPos(q), PointPos(p));
    var secs := (p.timestamp - q.timestamp) as real / 1000.0;
    if p.timestamp > q.timestamp {
      assert secs > 0.0;
      assert d / secs > maxSpeed <==> d > maxSpeed * secs by {
        assert d == (d / secs) * secs;
      }
    } else if p.timestamp < q.timestamp && d >= 0.0 && maxSpeed >= 0.0 {
      assert secs < 0.0;
      assert d / secs <= 0.0 by {
        assert d == (d / secs) * secs;
      }
    }
  }

  /** `options.maxSpeed || DEFAULT_MAX_SPEED`: an absent or zero bound means
      50 m/s. */
  function EffectiveMaxSpeed(maxSpeed: Option<real>): (m: real)
    ensures maxSpeed.None? || maxSpeed.value == 0.0 ==> m == DefaultMaxSpeed
    ensures maxSpeed.Some? && maxSpeed.value != 0.0 ==> m == maxSpeed.value
  {
    if maxSpeed.None? || maxSpeed.value == 0.0 then DefaultMaxSpeed else maxSpeed.value
  }

  /** A callback points are handed to: the `onPoint` of the watch with
      that number, or the empty callback `stopWatch` passes. */
  datatype Callback = Caller(watch: nat) | Discard

  /** A scheduled `batchTimeout` callback: its `setTimeout` id and the
      watch whose `onPoint` it captured. */
  datatype Timer = Timer(id: nat, watch: nat)

  /** One call of a watch's `onPoint`. */
  datatype Delivery = Delivery(watch: nat, point: GeoPoint)

  /** The calls `sendBatch` makes for `points` through `cb`, in order. */
  function Addressed(cb: Callback, points: seq<GeoPoint>): (r: seq<Delivery>)
    ensures cb.Discard? ==> r == []
    ensures cb.Caller? ==> |r| == |points| && forall i :: 0 <= i < |points| ==> r[i] == Delivery(cb.watch, points[i])
  {
    if cb.Discard? then [] else seq(|points|, i requires 0 <= i < |points| => Delivery(cb.watch, points[i]))
  }

  lemma AddressedAppend(cb: Callback, a: seq<GeoPoint>, b: seq<GeoPoint>)
    ensures Addressed(cb, a + b) == Addressed(cb, a) + Addressed(cb, b)
  {
    if cb.Caller? {
      assert forall i :: 0 <= i < |a + b| ==> Addressed(cb, a + b)[i] == (Addressed(cb, a) + Addressed(cb, b))[i];
    }
  }

  /** `clearTimeout(id)`: the timer with that id no longer fires. */
  function Cancel(timers: seq<Timer>, id: nat): (r: seq<Timer>)
    ensures forall t :: t in r <==> t in timers && t.id != id
  {
    if timers == [] then []
    else (if timers[0].id == id then [] else [timers[0]]) + Cancel(timers[1..], id)
  }

  /** Clearing the only scheduled timer leaves none. */
  lemma CancelOnly(id: nat, w: nat)
    ensures Cancel([Timer(id, w)], id) == []
  {
    assert [Timer(id, w)][1..] == [];
  }

  /** `if (this.batchTimeout) clearTimeout(this.batchTimeout)` */
  function ClearTracked(timers: seq<Timer>, batchTimeout: Option<nat>): seq<Timer>
  {
    if batchTimeout.Some? then Cancel(timers, batchTimeout.value) else timers
  }

  class GeolocationService {
    var watching: bool
    var lastPoint: Option<GeoPoint>
    var batch: seq<GeoPoint>
    /** `batchTimeout`: the id of the timer the service keeps track of. */
    var batchTimeout: Option<nat>
    /** Every timer scheduled and not yet fired or cleared, in scheduling
        order, including any the service no longer tracks. */
    var timers: seq<Timer>
    /** The id the next `setTimeout` returns; ids start at 1, so every id
        is truthy. */
    var nextTimerId: nat
    /** The number of the latest watch started; its options (`onPoint`
        and the filter settings) are the current ones. */
    var watchNo: nat
    var filterOn: bool
    var maxSpeed: real
    /** Every `onPoint` call made so far, in order. */
    var delivered: seq<Delivery>
    /** Every point that passed the filter, and those of them that have
        left the batch (delivered or dropped). */
    ghost var kept: seq<GeoPoint>
    ghost var flushed: seq<GeoPoint>

    ghost predicate Valid()
      reads this
    {
      && |batch| < BatchSize
      && (batchTimeout.Some? <==> batch != [])
      && (!watching ==> batch == [])
      && nextTimerId > 0
      && kept == flushed + batch
    }

    /** Every scheduled timer is the tracked one, and it calls the current
        watch's `onPoint`. */
    ghost predicate TimersTracked()
      reads this
    {
      timers == if batchTimeout.Some? then [Timer(batchTimeout.value, watchNo)] else []
    }

    constructor ()
      ensures Valid() && TimersTracked()
      ensures !watching && lastPoint == None && batch == [] && timers == [] && delivered == []
      ensures nextTimerId == 1 && watchNo == 0
    {
      watching := false;
      lastPoint := None;
      batch := [];
      batchTimeout := None;
      timers := [];
      nextTimerId := 1;
      watchNo := 0;
      filterOn := false;
      maxSpeed := DefaultMaxSpeed;
      delivered := [];
      kept := [];
      flushed := [];
    }

    /** `sendBatch`: nothing for an empty batch; otherwise each point goes
        to `cb` in order, and the batch and `batchTimeout` are reset
        without clearing any timer. */
    method SendBatch(cb: Callback)
      modifies this`batch, this`batchTimeout, this`delivered, this`flushed
      ensures old(batch) == [] ==> batch == [] && batchTimeout == old(batchTimeout)
      ensures old(batch) != [] ==> batch == [] && batchTimeout == None
      ensures delivered == old(delivered) + Addressed(cb, old(batch))
      ensures flushed == old(flushed) + old(batch)
    {
      if |batch| == 0 {
        return;
      }
      var items := batch;
      if cb.Caller? {
        for i := 0 to |items|
          invariant delivered == old(delivered) + Addressed(cb, items[..i])
          invariant batch == items && flushed == old(flushed)
        {
          delivered := delivered + [Delivery(cb.watch, items[i])];
          assert Addressed(cb, items[..i + 1]) == Addressed(cb, items[..i]) + [Delivery(cb.watch, items[i])];
        }
        assert items[..|items|] == items;
      }
      flushed := flushed + items;
      batch := [];
      batchTimeout := None;
    }

    /** `addToBatch` with the `onPoint` of watch `w`: the tracked timer is
        cleared; the tenth point sends the whole batch at once, and before
        that a new timer is scheduled and tracked. */
    method AddToBatch(p: GeoPoint, w: nat)
      requires Valid() && watching
      modifies this`batch, this`batchTimeout, this`timers, this`nextTimerId, this`delivered, this`flushed, this`kept
      ensures Valid() && kept == old(kept) + [p]
      ensures |old(batch)| + 1 >= BatchSize ==>
        && batch == [] && batchTimeout == None && nextTimerId == old(nextTimerId)
        && timers == ClearTracked(old(timers), old(batchTimeout))
        && delivered == old(delivered) + Addressed(Caller(w), old(batch) + [p])
      ensures |old(batch)| + 1 < BatchSize ==>
        && batch == old(batch) + [p] && delivered == old(delivered)
        && batchTimeout == Some(old(nextTimerId)) && nextTimerId == old(nextTimerId) + 1
        && timers == ClearTracked(old(timers), old(batchTimeout)) + [Timer(old(nextTimerId), w)]
      ensures old(TimersTracked()) && w == watchNo ==> TimersTracked()
    {
      batch := batch + [p];
      kept := kept + [p];
      if batchTimeout.Some? {
        CancelOnly(batchTimeout.value, watchNo);
        timers := Cancel(timers, batchTimeout.value);
      }
      if |batch| >= BatchSize {
        SendBatch(Caller(w));
      } else {
        timers := timers + [Timer(nextTimerId, w)];
        batchTimeout := Some(nextTimerId);
        nextTimerId := nextTimerId + 1;
      }
    }

    /** The scheduled timer `timers[i]` firing: it leaves the schedule and
        calls `sendBatch` with the `onPoint` it captured, whichever watch
        that belongs to. */
    method OnBatchTimeout(i: nat)
      requires Valid() && i < |timers|
      modifies this`batch, this`batchTimeout, this`timers, this`delivered, this`flushed
      ensures Valid() && batch == [] && batchTimeout == None
      ensures timers == old(timers[..i] + timers[i + 1..])
      ensures delivered == old(delivered) + Addressed(Caller(old(timers[i].watch)), old(batch))
      ensures old(TimersTracked()) ==> TimersTracked() && delivered == old(delivered) + Addressed(Caller(watchNo), old(batch))
    {
      var t := timers[i];
      timers := timers[..i] + timers[i + 1..];
      SendBatch(Caller(t.watch));
    }

    /** `startWatch` as written: a running watch is stopped first by
        `stopWatch`, so a timer it scheduled stays scheduled; without the
        geolocation API no watch starts (the caller's `onError` hears of
        it); otherwise a new watch with the given options begins. */
    method StartWatch(outlierFilter: Option<bool>, maxSpeedOption: Option<real>, geolocationAvailable: bool)
      requires Valid()
      modifies this`watching, this`lastPoint, this`batch, this`batchTimeout, this`delivered, this`flushed,
        this`filterOn, this`maxSpeed, this`watchNo
      ensures Valid() && watching == geolocationAvailable && delivered == old(delivered)
      ensures geolocationAvailable ==>
        && filterOn == (outlierFilter == Some(true)) && maxSpeed == EffectiveMaxSpeed(maxSpeedOption)
        && watchNo == old(watchNo) + 1
      ensures !geolocationAvailable ==> watchNo == old(watchNo)
      ensures batch == [] && batchTimeout == None && timers == old(timers)
      ensures old(watching) ==> lastPoint == None
      ensures !old(watching) ==> lastPoint == old(lastPoint)
      ensures old(batch) == [] && old(TimersTracked()) ==> TimersTracked()
    {
      if watching {
        StopWatch();
      }
      if !geolocationAvailable {
        return;
      }
      filterOn := outlierFilter == Some(true);
      maxSpeed := EffectiveMaxSpeed(maxSpeedOption);
      watchNo := watchNo + 1;
      watching := true;
    }

    /** `startWatch` with the running watch stopped as intended, its
        tracked timer cleared: no timer of the old watch survives the
        restart. */
    method StartWatchClearingTimer(outlierFilter: Option<bool>, maxSpeedOption: Option<real>, geolocationAvailable: bool)
      requires Valid()
      modifies this`watching, this`lastPoint, this`batch, this`batchTimeout, this`timers, this`delivered, this`flushed,
        this`filterOn, this`maxSpeed, this`watchNo
      ensures Valid() && watching == geolocationAvailable && delivered == old(delivered)
      ensures geolocationAvailable ==>
        && filterOn == (outlierFilter == Some(true)) && maxSpeed == EffectiveMaxSpeed(maxSpeedOption)
        && watchNo == old(watchNo) + 1
      ensures !geolocationAvailable ==> watchNo == old(watchNo)
      ensures old(watching) ==>
        lastPoint == None && batch == [] && timers == ClearTracked(old(timers), old(batchTimeout))
      ensures !old(watching) ==> lastPoint == old(lastPoint) && batch == [] && timers == old(timers)
      ensures old(TimersTracked()) ==> TimersTracked()
    {
      if watching {
        StopWatchClearingTimer();
      }
      StartWatch(outlierFilter, maxSpeedOption, geolocationAvailable);
    }

    /** The watch callback: a fix the filter rejects changes nothing;
        any other becomes `lastPoint` and enters the batch for the current
        watch's `onPoint`. The browser calls it only while a watch runs. */
    method OnPosition(p: GeoPoint, dist: Distance) returns (keptPoint: bool)
      requires Valid() && watching
      modifies this`lastPoint, this`batch, this`batchTimeout, this`timers, this`nextTimerId, this`delivered, this`flushed, this`kept
      ensures Valid()
      ensures keptPoint <==> !(filterOn && IsOutlier(old(lastPoint), p, maxSpeed, dist))
      ensures !keptPoint ==>
        && lastPoint == old(lastPoint) && batch == old(batch) && delivered == old(delivered) && kept == old(kept)
        && timers == old(timers) && batchTimeout == old(batchTimeout) && nextTimerId == old(nextTimerId)
      ensures keptPoint ==> lastPoint == Some(p) && kept == old(kept) + [p]
      ensures keptPoint && |old(batch)| + 1 >= BatchSize ==>
        && batch == [] && batchTimeout == None
        && timers == ClearTracked(old(timers), old(batchTimeout))
        && delivered == old(delivered) + Addressed(Caller(watchNo), old(batch) + [p])
      ensures keptPoint && |old(batch)| + 1 < BatchSize ==>
        && batch == old(batch) + [p] && delivered == old(delivered)
        && batchTimeout == Some(old(nextTimerId)) && nextTimerId == old(nextTimerId) + 1
        && timers == ClearTracked(old(timers), old(batchTimeout)) + [Timer(old(nextTimerId), watchNo)]
      ensures old(TimersTracked()) ==> TimersTracked()
    {
      if filterOn && IsOutlier(lastPoint, p, maxSpeed, dist) {
        return false;
      }
      lastPoint := Some(p);
      AddToBatch(p, watchNo);
      return true;
    }

    /** `stopWatch` as written: batched points go to an empty callback, so
        the caller never receives them. `sendBatch` resets `batchTimeout`
        without clearing its timer, so the later `if (this.batchTimeout)`
        guard finds nothing to clear (an empty batch has no tracked timer
        either): every scheduled timer stays scheduled, still holding the
        stopped watch's `onPoint`. */
    method StopWatch()
      requires Valid()
      modifies this`watching, this`lastPoint, this`batch, this`batchTimeout, this`delivered, this`flushed
      ensures Valid() && !watching && lastPoint == None && batch == [] && batchTimeout == None
      ensures timers == old(timers)
      ensures delivered == old(delivered) && flushed == old(flushed) + old(batch)
    {
      watching := false;
      if |batch| > 0 {
        SendBatch(Discard);
      }
      lastPoint := None;
      batch := [];
    }

    /** `stopWatch` with the tracked timer cleared before the batch is
        dropped, as the guard at its end intends: no timer of the stopped
        watch survives it. */
    method StopWatchClearingTimer()
      requires Valid()
      modifies this`watching, this`lastPoint, this`batch, this`batchTimeout, this`timers, this`delivered, this`flushed
      ensures Valid() && !watching && lastPoint == None && batch == [] && batchTimeout == None
      ensures timers == ClearTracked(old(timers), old(batchTimeout))
      ensures delivered == old(delivered) && flushed == old(flushed) + old(batch)
      ensures old(TimersTracked()) ==> timers == []
    {
      watching := false;
      if batchTimeout.Some? {
        CancelOnly(batchTimeout.value, watchNo);
        timers := Cancel(timers, batchTimeout.value);
        batchTimeout := None;
      }
      if |batch| > 0 {
        SendBatch(Discard);
      }
      lastPoint := None;
      batch := [];
    }
  }

  /** Ten kept fixes in a row from an empty batch reach the current
      watch's `onPoint` together, in arrival order. */
  method TenFixesMakeABatch(g: GeolocationService, fixes: seq<GeoPoint>, dist: Distance)
    requires g.Valid() && g.watching && g.batch == [] && !g.filterOn && |fixes| == BatchSize
    modifies g
    ensures g.Valid() && g.batch == [] && g.delivered == old(g.delivered) + Addressed(Caller(g.watchNo), fixes)
  {
    for i := 0 to |fixes|
      invariant g.Valid() && g.watching && !g.filterOn && g.watchNo == old(g.watchNo)
      invariant i < BatchSize ==> g.batch == fixes[..i] && g.delivered == old(g.delivered)
      invariant i == BatchSize ==> g.batch == [] && g.delivered == old(g.delivered) + Addressed(Caller(g.watchNo), fixes)
    {
      var k := g.OnPosition(fixes[i], dist);
      assert fixes[..i + 1] == fixes[..i] + [fixes[i]];
    }
  }

  /** The stale timer of `stopWatch` as written: watch 1 keeps a fix `a`
      and stops; watch 2 keeps a fix `b`; the timer watch 1 scheduled for
      `a` then fires and hands `b` to watch 1's `onPoint`, while watch 2's
      own timer is left scheduled but untracked. */
  method StaleTimerMisroutes(a: GeoPoint, b: GeoPoint, dist: Distance) returns (g: GeolocationService)
    ensures g.watchNo == 2 && g.watching
    ensures g.delivered == [Delivery(1, b)]
    ensures g.timers == [Timer(2, 2)] && g.batchTimeout == None
  {
    g := new GeolocationService();
    g.StartWatch(None, None, true);
    assert g.timers == [] && g.batch == [] && g.batchTimeout == None && g.nextTimerId == 1 && g.watchNo == 1;
    var keptA := g.OnPosition(a, dist);
    assert keptA;
    assert g.timers == [Timer(1, 1)];
    g.StopWatch();
    g.StartWatch(None, None, true);
    var keptB := g.OnPosition(b, dist);
    assert g.timers == [Timer(1, 1), Timer(2, 2)];
    g.OnBatchTimeout(0);
  }

  /** The same stale timer through a restart: watch 1 keeps a fix `a`,
      `startWatch` is called again while it runs, and watch 2 keeps `b`;
      watch 1's timer fires and hands `b` to watch 1's `onPoint`. */
  method RestartMisroutes(a: GeoPoint, b: GeoPoint, dist: Distance) returns (g: GeolocationService)
    ensures g.watchNo == 2 && g.watching
    ensures g.delivered == [Delivery(1, b)]
    ensures g.timers == [Timer(2, 2)] && g.batchTimeout == None
  {
    g := new GeolocationService();
    g.StartWatch(None, None, true);
    assert g.timers == [] && g.batch == [] && g.batchTimeout == None && g.nextTimerId == 1 && g.watchNo == 1;
    var keptA := g.OnPosition(a, dist);
    assert keptA;
    assert g.timers == [Timer(1, 1)];
    g.StartWatch(None, None, true);
    var keptB := g.OnPosition(b, dist);
    assert g.timers == [Timer(1, 1), Timer(2, 2)];
    g.OnBatchTimeout(0);
  }

  /** The restart with the timer cleared: only watch 2's timer is
      scheduled, and it hands `b` to watch 2's `onPoint`. */
  method ClearedRestartDeliversToCurrentWatch(a: GeoPoint, b: GeoPoint, dist: Distance) returns (g: GeolocationService)
    ensures g.watchNo == 2 && g.watching
    ensures g.delivered == [Delivery(2, b)]
    ensures g.timers == [] && g.batchTimeout == None
  {
    g := new GeolocationService();
    g.StartWatchClearingTimer(None, None, true);
    var keptA := g.OnPosition(a, dist);
    g.StartWatchClearingTimer(None, None, true);
    assert g.timers == [] && g.batch == [] && g.batchTimeout == None && g.nextTimerId == 2 && g.watchNo == 2;
    var keptB := g.OnPosition(b, dist);
    assert keptB;
    assert g.timers == [Timer(2, 2)];
    g.OnBatchTimeout(0);
  }

  /** The same steps with the timer cleared on stop: only watch 2's timer
      is scheduled, and it hands `b` to watch 2's `onPoint`. */
  method ClearedTimerDeliversToCurrentWatch(a: GeoPoint, b: GeoPoint, dist: Distance) returns (g: GeolocationService)
    ensures g.watchNo == 2 && g.watching
    ensures g.delivered == [Delivery(2, b)]
    ensures g.timers == [] && g.batchTimeout == None
  {
    g := new GeolocationService();
    g.StartWatchClearingTimer(None, None, true);
    var keptA := g.OnPosition(a, dist);
    g.StopWatchClearingTimer();
    g.StartWatchClearingTimer(None, None, true);
    assert g.timers == [] && g.batch == [] && g.batchTimeout == None && g.nextTimerId == 2 && g.watchNo == 2;
    var keptB := g.OnPosition(b, dist);
    assert keptB;
    assert g.timers == [Timer(2, 2)];
    g.OnBatchTimeout(0);
  }
}
