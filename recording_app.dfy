/** The static client's recording screen (app.js): `PatTrailApp` buffers
    GPS samples of the current walk and moves them, ten at a time or on
    request, into the IndexedDB batch queue; `LocationController` shows
    the user's position and keeps its on/off and follow settings in
    local storage. The browser's geolocation, the backend replies and the
    clock arrive as parameters. */
module RecordingApp {
  import opened Common
  import opened ClientTypes
  import opened BatchStore
  import opened WebQueueDb

  /** `this.bufferSize` */
  const BufferSize: nat := 10

  /** The accuracy above which a fix is ignored once one has been shown. */
  const MaxAccuracy: real := 100.0

  /** A browser `GeolocationPosition`, as far as the app reads it;
      `timestamp` is in milliseconds. */
  datatype GpsFix = GpsFix(latitude: real, longitude: real, timestamp: int, altitude: Option<real>, accuracy: real)

  /** The point built from a fix: `elev` is `altitude || undefined`, so an
      altitude of exactly 0 is dropped. The ISO string `ts` stands for the
      millisecond timestamp it encodes. */
  function PointOf(fix: GpsFix): (p: BatchPoint)
    ensures p.lat == fix.latitude && p.lon == fix.longitude && p.ts == fix.timestamp
    ensures p.elev.Some? <==> fix.altitude.Some? && fix.altitude.value != 0.0
    ensures p.elev.Some? ==> p.elev == fix.altitude
  {
    var elev := if fix.altitude.Some? && fix.altitude.value != 0.0 then fix.altitude else None;
    BatchPoint(fix.latitude, fix.longitude, fix.timestamp, elev)
  }

  /** The coordinate check that clips bogus samples. */
  predicate InRange(p: BatchPoint)
  {
    !(p.lat < -90.0 || p.lat > 90.0 || p.lon < -180.0 || p.lon > 180.0)
  }

  /** `!this.currentWalkId` is false: an id is set and it is not 0. */
  predicate HasWalk(walkId: Option<int>)
  {
    walkId.Some? && walkId.value != 0
  }

  /** The record `addBatch` stores for a flushed buffer. */
  function QueuedRecord(key: nat, walkId: int, points: seq<BatchPoint>, now: int): BatchRecord
  {
    BatchRecord(key, walkId, points, 0, now as real, now)
  }

  class PatTrailApp {
    var currentWalkId: Option<int>
    var isRecording: bool
    var buffer: seq<BatchPoint>
    /** A live `geolocationId`: the app's own `watchPosition`, the only
        source that calls `handleGeolocationSuccess`. */
    var ownWatch: bool
    const walkQueue: WalkQueueDB
    /** Every sample that entered the buffer, and those of them that have
        left it (queued, or dropped by a reset), in order. */
    ghost var accepted: seq<BatchPoint>
    ghost var released: seq<BatchPoint>

    /** No sample is lost or repeated on its way through the buffer. */
    ghost predicate Valid()
      reads this, walkQueue, walkQueue.batchStore
    {
      && walkQueue.Valid()
      && accepted == released + buffer
    }

    constructor ()
      ensures Valid() && fresh(walkQueue) && fresh(walkQueue.batchStore)
      ensures currentWalkId == None && !isRecording && buffer == [] && !ownWatch
      ensures walkQueue.batchStore.batches == [] && walkQueue.metadata == map[]
    {
      currentWalkId := None;
      isRecording := false;
      buffer := [];
      ownWatch := false;
      walkQueue := new WalkQueueDB();
      accepted := [];
      released := [];
    }

    /** `flushBuffer`: without samples or without a walk id it does
        nothing; otherwise the buffer is emptied and its samples, in
        order, become one new batch of the current walk. The drain that
        follows is `Networking.DrainQueue`. */
    method FlushBuffer(now: int)
      requires Valid()
      modifies this`buffer, this`released, walkQueue.batchStore
      ensures Valid()
      ensures old(buffer) == [] || !HasWalk(currentWalkId) ==>
        buffer == old(buffer) && walkQueue.batchStore.batches == old(walkQueue.batchStore.batches)
        && walkQueue.batchStore.nextKey == old(walkQueue.batchStore.nextKey)
      ensures old(buffer) != [] && HasWalk(currentWalkId) ==>
        && buffer == []
        && walkQueue.batchStore.batches == old(walkQueue.batchStore.batches)
             + [QueuedRecord(old(walkQueue.batchStore.nextKey), currentWalkId.value, old(buffer), now)]
    {
      if |buffer| == 0 || !HasWalk(currentWalkId) {
        return;
      }
      var points := buffer;
      buffer := [];
      released := released + points;
      var id := walkQueue.batchStore.AddBatch(currentWalkId.value, points, now);
    }

    /** `handleGeolocationSuccess`: a sample counts only while recording
        and inside the coordinate ranges; it is appended, and a buffer of
        ten or more is flushed. */
    method HandleGeolocationSuccess(fix: GpsFix, now: int)
      requires Valid()
      modifies this`buffer, this`accepted, this`released, walkQueue.batchStore
      ensures Valid()
      ensures !isRecording || !InRange(PointOf(fix)) ==>
        buffer == old(buffer) && accepted == old(accepted)
        && walkQueue.batchStore.batches == old(walkQueue.batchStore.batches)
      ensures isRecording && InRange(PointOf(fix)) ==> accepted == old(accepted) + [PointOf(fix)]
      ensures isRecording && InRange(PointOf(fix)) && (|old(buffer)| + 1 < BufferSize || !HasWalk(currentWalkId)) ==>
        buffer == old(buffer) + [PointOf(fix)]
        && walkQueue.batchStore.batches == old(walkQueue.batchStore.batches)
        && walkQueue.batchStore.nextKey == old(walkQueue.batchStore.nextKey)
      ensures isRecording && InRange(PointOf(fix)) && |old(buffer)| + 1 >= BufferSize && HasWalk(currentWalkId) ==>
        && buffer == []
        && walkQueue.batchStore.batches == old(walkQueue.batchStore.batches)
             + [QueuedRecord(old(walkQueue.batchStore.nextKey), currentWalkId.value, old(buffer) + [PointOf(fix)], now)]
    {
      if !isRecording {
        return;
      }
      var point := PointOf(fix);
      if !InRange(point) {
        return;
      }
      buffer := buffer + [point];
      accepted := accepted + [point];
      if |buffer| >= BufferSize {
        FlushBuffer(now);
      }
    }

    /** `startGeolocationTracking` once geolocation is known to exist:
        when the location controller is on (`locateEnabled`), its watch is
        reused and the app starts none of its own. */
    method StartGeolocationTracking(locateEnabled: bool)
      modifies this`ownWatch
      ensures ownWatch == (old(ownWatch) || !locateEnabled)
    {
      if locateEnabled {
        return;
      }
      ownWatch := true;
    }

    /** `startRecording`: nothing without a selected pet or when the
        backend refuses the walk. Otherwise the walk id is kept and saved
        with its start time; recording begins only when geolocation is
        available, yet the id and the saved walk stay either way. With
        the location controller on, no watch of the app's own starts. */
    method StartRecording(petSelected: bool, started: Option<int>, startedAtIso: string, geolocationAvailable: bool,
                          locateEnabled: bool, now: int)
      requires Valid()
      modifies this`currentWalkId, this`isRecording, this`ownWatch, walkQueue`metadata
      ensures Valid() && buffer == old(buffer)
      ensures !petSelected || started.None? ==>
        currentWalkId == old(currentWalkId) && isRecording == old(isRecording) && ownWatch == old(ownWatch)
        && walkQueue.metadata == old(walkQueue.metadata)
      ensures petSelected && started.Some? ==>
        && currentWalkId == started
        && walkQueue.metadata == SavedWalk(old(walkQueue.metadata), started.value, startedAtIso, now)
        && isRecording == (geolocationAvailable || old(isRecording))
        && ownWatch == (old(ownWatch) || (geolocationAvailable && !locateEnabled))
    {
      if !petSelected {
        return;
      }
      if started.None? {
        return;
      }
      currentWalkId := started;
      walkQueue.SaveCurrentWalk(started.value, startedAtIso, now);
      if !geolocationAvailable {
        return;
      }
      StartGeolocationTracking(locateEnabled);
      isRecording := true;
    }

    /** `restoreAppState` with `resumeRecording`: a walk saved in the
        metadata store is taken up again; if tracking cannot restart, the
        walk is dropped. `locateEnabled` is the location controller's
        restored setting, which starts no watch of its own. */
    method RestoreAppState(geolocationAvailable: bool, locateEnabled: bool)
      requires Valid()
      modifies this`currentWalkId, this`isRecording, this`ownWatch
      ensures Valid() && buffer == old(buffer)
      ensures walkQueue.GetCurrentWalk().None? ==>
        currentWalkId == old(currentWalkId) && isRecording == old(isRecording) && ownWatch == old(ownWatch)
      ensures walkQueue.GetCurrentWalk().Some? && geolocationAvailable ==>
        currentWalkId == walkQueue.GetCurrentWalk().value.walkId && isRecording
        && ownWatch == (old(ownWatch) || !locateEnabled)
      ensures walkQueue.GetCurrentWalk().Some? && !geolocationAvailable ==>
        currentWalkId == None && !isRecording && ownWatch == old(ownWatch)
    {
      var currentWalk := walkQueue.GetCurrentWalk();
      if currentWalk.None? {
        return;
      }
      currentWalkId := currentWalk.value.walkId;
      isRecording := currentWalk.value.isRecording;
      if isRecording {
        if !geolocationAvailable {
          isRecording := false;
          currentWalkId := None;
          return;
        }
        StartGeolocationTracking(locateEnabled);
      }
    }

    /** The location controller's `onPositionUpdate` as its comment means
        it: while the app has no watch of its own, a fix of the reused
        controller watch is recorded exactly as `handleGeolocationSuccess`
        records one; with an own watch running, that watch already
        delivers the fix, so nothing is added twice. */
    method OnControllerPosition(fix: GpsFix, now: int)
      requires Valid()
      modifies this`buffer, this`accepted, this`released, walkQueue.batchStore
      ensures Valid()
      ensures ownWatch || !isRecording || !InRange(PointOf(fix)) ==>
        buffer == old(buffer) && accepted == old(accepted)
        && walkQueue.batchStore.batches == old(walkQueue.batchStore.batches)
      ensures !ownWatch && isRecording && InRange(PointOf(fix)) ==> accepted == old(accepted) + [PointOf(fix)]
      ensures !ownWatch && isRecording && InRange(PointOf(fix)) && (|old(buffer)| + 1 < BufferSize || !HasWalk(currentWalkId)) ==>
        buffer == old(buffer) + [PointOf(fix)]
        && walkQueue.batchStore.batches == old(walkQueue.batchStore.batches)
        && walkQueue.batchStore.nextKey == old(walkQueue.batchStore.nextKey)
      ensures !ownWatch && isRecording && InRange(PointOf(fix)) && |old(buffer)| + 1 >= BufferSize && HasWalk(currentWalkId) ==>
        && buffer == []
        && walkQueue.batchStore.batches == old(walkQueue.batchStore.batches)
             + [QueuedRecord(old(walkQueue.batchStore.nextKey), currentWalkId.value, old(buffer) + [PointOf(fix)], now)]
    {
      if ownWatch {
        return;
      }
      HandleGeolocationSuccess(fix, now);
    }

    /** `stopRecording`: what is left in the buffer is flushed first.
        When the backend then confirms the stop, the saved walk is cleared
        and the app is back to idle with an empty buffer; when it does
        not, the walk stays current. */
    method StopRecording(stopSucceeded: bool, locateEnabled: bool, now: int)
      requires Valid()
      modifies this, walkQueue`metadata, walkQueue.batchStore
      ensures Valid()
      ensures ownWatch == (old(ownWatch) && locateEnabled)
      ensures old(buffer) != [] && HasWalk(old(currentWalkId)) ==>
        walkQueue.batchStore.batches == old(walkQueue.batchStore.batches)
          + [QueuedRecord(old(walkQueue.batchStore.nextKey), old(currentWalkId).value, old(buffer), now)]
      ensures old(buffer) == [] || !HasWalk(old(currentWalkId)) ==>
        walkQueue.batchStore.batches == old(walkQueue.batchStore.batches)
      ensures stopSucceeded ==>
        && !isRecording && currentWalkId == None && buffer == []
        && walkQueue.metadata == ClearedWalk(old(walkQueue.metadata), now)
        && walkQueue.GetCurrentWalk() == None
      ensures !stopSucceeded ==>
        && isRecording == old(isRecording) && currentWalkId == old(currentWalkId)
        && buffer == (if HasWalk(old(currentWalkId)) then [] else old(buffer))
        && walkQueue.metadata == old(walkQueue.metadata)
    {
      if ownWatch && !locateEnabled {
        ownWatch := false;
      }
      if |buffer| > 0 {
        FlushBuffer(now);
      }
      if !stopSucceeded {
        return;
      }
      walkQueue.ClearCurrentWalk(now);
      isRecording := false;
      currentWalkId := None;
      released := released + buffer;
      buffer := [];
    }
  }

  /** Ten in-range samples in a row from the app's own watch, while
      recording a walk with an id, starting from an empty buffer, reach the
      queue as one batch holding exactly those samples in order. */
  method TenSamplesMakeABatch(app: PatTrailApp, fixes: seq<GpsFix>, now: int)
    requires app.Valid() && app.isRecording && app.ownWatch && HasWalk(app.currentWalkId) && app.buffer == []
    requires |fixes| == BufferSize && forall i :: 0 <= i < |fixes| ==> InRange(PointOf(fixes[i]))
    modifies app`buffer, app`accepted, app`released, app.walkQueue.batchStore
    ensures app.Valid() && app.buffer == []
    ensures app.walkQueue.batchStore.batches == old(app.walkQueue.batchStore.batches)
      + [QueuedRecord(old(app.walkQueue.batchStore.nextKey), app.currentWalkId.value, SamplePoints(fixes), now)]
  {
    for i := 0 to |fixes|
      invariant app.Valid()
      invariant i < BufferSize ==> (
        && app.buffer == SamplePoints(fixes[..i])
        && app.walkQueue.batchStore.batches == old(app.walkQueue.batchStore.batches)
        && app.walkQueue.batchStore.nextKey == old(app.walkQueue.batchStore.nextKey))
      invariant i == BufferSize ==> (
        && app.buffer == []
        && app.walkQueue.batchStore.batches == old(app.walkQueue.batchStore.batches)
             + [QueuedRecord(old(app.walkQueue.batchStore.nextKey), app.currentWalkId.value, SamplePoints(fixes), now)])
    {
      app.HandleGeolocationSuccess(fixes[i], now);
      assert fixes[..i + 1] == fixes[..i] + [fixes[i]];
      SamplePointsAppend(fixes[..i], fixes[i]);
      assert i + 1 == BufferSize ==> fixes[..i + 1] == fixes;
    }
  }

  /** A recording started while the location controller is on, as the
      code stands: the app starts no watch of its own, the controller's
      fixes only move its marker (its `onPositionUpdate` hook is empty),
      and so however many fixes arrive the buffer and the queue stay as
      they were. */
  method LocateOnRecordsNothing(app: PatTrailApp, ctl: LocationController, walkId: int, startedAtIso: string,
                                fixes: seq<GpsFix>, now: int)
    requires app.Valid() && !app.ownWatch && ctl.Valid() && ctl.isEnabled
    modifies app`currentWalkId, app`isRecording, app`ownWatch, app.walkQueue`metadata, ctl`lastAccuracy, ctl`marker, ctl`view
    ensures app.isRecording && !app.ownWatch && app.currentWalkId == Some(walkId)
    ensures app.buffer == old(app.buffer) && app.walkQueue.batchStore.batches == old(app.walkQueue.batchStore.batches)
  {
    app.StartRecording(true, Some(walkId), startedAtIso, true, ctl.isEnabled, now);
    for i := 0 to |fixes|
      invariant ctl.Valid() && app.Valid()
      invariant app.isRecording && !app.ownWatch && app.currentWalkId == Some(walkId)
      invariant app.buffer == old(app.buffer) && app.walkQueue.batchStore.batches == old(app.walkQueue.batchStore.batches)
    {
      ctl.HandlePositionUpdate(fixes[i].latitude, fixes[i].longitude, fixes[i].accuracy);
    }
  }

  /** With the controller's fixes forwarded, a recording that reuses the
      controller's watch gets its ten in-range samples into the queue as
      one batch, in order. */
  method LocateOnTenSamplesMakeABatch(app: PatTrailApp, fixes: seq<GpsFix>, now: int)
    requires app.Valid() && app.isRecording && !app.ownWatch && HasWalk(app.currentWalkId) && app.buffer == []
    requires |fixes| == BufferSize && forall i :: 0 <= i < |fixes| ==> InRange(PointOf(fixes[i]))
    modifies app`buffer, app`accepted, app`released, app.walkQueue.batchStore
    ensures app.Valid() && app.buffer == []
    ensures app.walkQueue.batchStore.batches == old(app.walkQueue.batchStore.batches)
      + [QueuedRecord(old(app.walkQueue.batchStore.nextKey), app.currentWalkId.value, SamplePoints(fixes), now)]
  {
    for i := 0 to |fixes|
      invariant app.Valid()
      invariant i < BufferSize ==> (
        && app.buffer == SamplePoints(fixes[..i])
        && app.walkQueue.batchStore.batches == old(app.walkQueue.batchStore.batches)
        && app.walkQueue.batchStore.nextKey == old(app.walkQueue.batchStore.nextKey))
      invariant i == BufferSize ==> (
        && app.buffer == []
        && app.walkQueue.batchStore.batches == old(app.walkQueue.batchStore.batches)
             + [QueuedRecord(old(app.walkQueue.batchStore.nextKey), app.currentWalkId.value, SamplePoints(fixes), now)])
    {
      app.OnControllerPosition(fixes[i], now);
      assert fixes[..i + 1] == fixes[..i] + [fixes[i]];
      SamplePointsAppend(fixes[..i], fixes[i]);
      assert i + 1 == BufferSize ==> fixes[..i + 1] == fixes;
    }
  }

  /** A walk started with a usable id and start time is picked up again
      by the next page load. */
  method ReloadResumesWalk(app: PatTrailApp, walkId: int, startedAtIso: string, now: int)
    requires app.Valid() && walkId != 0 && startedAtIso != ""
    modifies app`currentWalkId, app`isRecording, app`ownWatch, app.walkQueue`metadata
    ensures app.Valid() && app.currentWalkId == Some(walkId) && app.isRecording && app.ownWatch
  {
    app.StartRecording(true, Some(walkId), startedAtIso, true, false, now);
    // The reload: the page's fields start over, IndexedDB keeps its data.
    app.currentWalkId := None;
    app.isRecording := false;
    app.ownWatch := false;
    app.RestoreAppState(true, false);
  }

  /** After a confirmed stop, the next page load resumes nothing. */
  method StoppedWalkStaysStopped(app: PatTrailApp, now: int)
    requires app.Valid()
    modifies app, app.walkQueue`metadata, app.walkQueue.batchStore
    ensures app.Valid() && app.currentWalkId == None && !app.isRecording && !app.ownWatch
  {
    app.StopRecording(true, false, now);
    app.RestoreAppState(true, false);
  }

  /** The points built from a run of fixes, in order. */
  function SamplePoints(fixes: seq<GpsFix>): (r: seq<BatchPoint>)
    ensures |r| == |fixes|
    ensures forall i :: 0 <= i < |fixes| ==> r[i] == PointOf(fixes[i])
  {
    if fixes == [] then [] else SamplePoints(fixes[..|fixes| - 1]) + [PointOf(fixes[|fixes| - 1])]
  }

  lemma SamplePointsAppend(fixes: seq<GpsFix>, fix: GpsFix)
    ensures SamplePoints(fixes + [fix]) == SamplePoints(fixes) + [PointOf(fix)]
  {
    assert (fixes + [fix])[..|fixes|] == fixes;
  }

  /** What `saveState` writes to local storage. */
  datatype SavedLocation = SavedLocation(isEnabled: bool, followMe: bool)

  /** `LocationController`: `watching` stands for a live `watchId`,
      `marker` for the marker and accuracy circle on the map, `view` for
      the map centre set while following, and `saved` for the local
      storage entry. */
  class LocationController {
    var isEnabled: bool
    var followMe: bool
    var watching: bool
    var lastAccuracy: Option<real>
    var marker: Option<Coord>
    var view: Option<Coord>
    var saved: Option<SavedLocation>

    /** Follow mode only while location is on, in memory and in storage. */
    ghost predicate Valid()
      reads this
    {
      && (followMe ==> isEnabled)
      && (saved.Some? && saved.value.followMe ==> saved.value.isEnabled)
    }

    /** The constructor's `init`: off, then `restoreState` from what
        local storage holds. */
    constructor (stored: Option<SavedLocation>)
      ensures saved == stored && !watching && lastAccuracy == None && marker == None
      ensures stored.None? ==> !isEnabled && !followMe
      ensures stored.Some? ==> isEnabled == stored.value.isEnabled && followMe == stored.value.followMe
      ensures (stored.Some? && stored.value.followMe ==> stored.value.isEnabled) ==> Valid()
    {
      isEnabled := false;
      followMe := false;
      watching := false;
      lastAccuracy := None;
      marker := None;
      view := None;
      saved := stored;
      new;
      RestoreState();
    }

    /** `saveState` */
    method SaveState()
      modifies this`saved
      ensures saved == Some(SavedLocation(isEnabled, followMe))
    {
      saved := Some(SavedLocation(isEnabled, followMe));
    }

    /** `restoreState`: the stored settings come back, but a restored
        `isEnabled` does not start a watch. */
    method RestoreState()
      modifies this`isEnabled, this`followMe
      ensures saved.None? ==> isEnabled == old(isEnabled) && followMe == old(followMe)
      ensures saved.Some? ==> isEnabled == saved.value.isEnabled && followMe == saved.value.followMe
      ensures old(Valid()) ==> Valid()
    {
      if saved.Some? {
        isEnabled := saved.value.isEnabled;
        followMe := saved.value.followMe;
      }
    }

    /** `enableLocate`: once on, nothing; without the geolocation API or
        when the first position is refused, it stays off; otherwise a
        watch starts and the setting is saved. */
    method EnableLocate(geolocationAvailable: bool, positionGranted: bool)
      requires Valid()
      modifies this`isEnabled, this`watching, this`saved
      ensures Valid() && followMe == old(followMe)
      ensures old(isEnabled) || !geolocationAvailable || !positionGranted ==>
        isEnabled == old(isEnabled) && watching == old(watching) && saved == old(saved)
      ensures !old(isEnabled) && geolocationAvailable && positionGranted ==>
        isEnabled && watching && saved == Some(SavedLocation(true, followMe))
    {
      if isEnabled {
        return;
      }
      if !geolocationAvailable {
        return;
      }
      if !positionGranted {
        return;
      }
      watching := true;
      isEnabled := true;
      SaveState();
    }

    /** `disableLocate`: the watch stops, follow mode goes off with it,
        the marker leaves the map and the setting is saved. */
    method DisableLocate()
      requires Valid()
      modifies this`isEnabled, this`followMe, this`watching, this`marker, this`saved
      ensures Valid()
      ensures !old(isEnabled) ==>
        isEnabled == old(isEnabled) && followMe == old(followMe) && watching == old(watching)
        && marker == old(marker) && saved == old(saved)
      ensures old(isEnabled) ==>
        !isEnabled && !followMe && !watching && marker == None && saved == Some(SavedLocation(false, false))
    {
      if !isEnabled {
        return;
      }
      watching := false;
      isEnabled := false;
      followMe := false;
      SaveState();
      marker := None;
    }

    /** `setFollow` */
    method SetFollow(enabled: bool)
      modifies this`followMe, this`saved
      ensures followMe == enabled && saved == Some(SavedLocation(isEnabled, enabled))
      ensures old(Valid()) && (enabled ==> isEnabled) ==> Valid()
    {
      followMe := enabled;
      SaveState();
    }

    /** `toggleLocate` */
    method ToggleLocate(geolocationAvailable: bool, positionGranted: bool)
      requires Valid()
      modifies this`isEnabled, this`followMe, this`watching, this`marker, this`saved
      ensures Valid()
      ensures old(isEnabled) ==> !isEnabled && !followMe
      ensures !old(isEnabled) ==> isEnabled == (geolocationAvailable && positionGranted)
    {
      if isEnabled {
        DisableLocate();
      } else {
        EnableLocate(geolocationAvailable, positionGranted);
      }
    }

    /** `toggleFollow`: ignored while location is off. */
    method ToggleFollow()
      requires Valid()
      modifies this`followMe, this`saved
      ensures Valid()
      ensures !isEnabled ==> followMe == old(followMe) && saved == old(saved)
      ensures isEnabled ==> followMe == !old(followMe) && saved == Some(SavedLocation(true, followMe))
    {
      if !isEnabled {
        return;
      }
      SetFollow(!followMe);
    }

    /** `handlePositionUpdate` with `updateMarkerPosition`: once a fix has
        been shown, one less accurate than 100 m is ignored; any other
        moves the marker, records its accuracy and, when following,
        recentres the map. */
    method HandlePositionUpdate(lat: real, lon: real, accuracy: real)
      requires Valid()
      modifies this`lastAccuracy, this`marker, this`view
      ensures Valid()
      ensures accuracy > MaxAccuracy && old(lastAccuracy).Some? ==>
        lastAccuracy == old(lastAccuracy) && marker == old(marker) && view == old(view)
      ensures !(accuracy > MaxAccuracy && old(lastAccuracy).Some?) ==>
        && lastAccuracy == Some(accuracy) && marker == Some(Coord(lat, lon))
        && view == (if followMe then Some(Coord(lat, lon)) else old(view))
    {
      if accuracy > MaxAccuracy && lastAccuracy.Some? {
        return;
      }
      marker := Some(Coord(lat, lon));
      lastAccuracy := Some(accuracy);
      if followMe {
        view := Some(Coord(lat, lon));
      }
    }
  }
}
