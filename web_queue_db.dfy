/** The newer client's `WalkQueueDB` (web/db.js): the same `batches`
    object store as the static client, plus a `metadata` object store of
    key/value records that lets a recording survive a page reload. The
    clock is a parameter (`now`, in milliseconds). */
module WebQueueDb {
  import opened Common
  import opened BatchStore

  /** The JavaScript values the client stores as metadata: numbers (walk
      ids, `Date.now()`), strings (ISO dates) and booleans. */
  datatype MetaValue = Num(n: int) | Text(s: string) | Flag(b: bool)

  /** A stored metadata record `{ key, value, updatedAt }`, minus its key. */
  datatype MetaEntry = MetaEntry(value: MetaValue, updatedAt: int)

  /** JavaScript truthiness of a stored value. */
  predicate Truthy(v: MetaValue)
  {
    match v
    case Num(n) => n != 0
    case Text(s) => s != ""
    case Flag(b) => b
  }

  /** A value read back through `getMetadata`: `null` is `None`. */
  predicate TruthyOpt(v: Option<MetaValue>)
  {
    v.Some? && Truthy(v.value)
  }

  /** `parseInt` of a stored value: a number is itself; any other value
      is taken as `NaN`, here `None`. */
  function ParseInt(v: MetaValue): (r: Option<int>)
    ensures r.Some? <==> v.Num?
    ensures v.Num? ==> r == Some(v.n)
  {
    if v.Num? then Some(v.n) else None
  }

  /** What `getCurrentWalk` resolves with when it finds a walk. */
  datatype CurrentWalk = CurrentWalk(walkId: Option<int>, startedAt: MetaValue, isRecording: bool)

  const CurrentWalkIdKey: string := "currentWalkId"
  const WalkStartedAtKey: string := "walkStartedAt"
  const IsRecordingKey: string := "isRecording"
  const LastSyncedAtKey: string := "lastSyncedAt"

  /** `getMetadata` on a metadata store: the value of the record under
      `key`, or `null` when there is none. */
  function Lookup(meta: map<string, MetaEntry>, key: string): (r: Option<MetaValue>)
    ensures r.Some? <==> key in meta
    ensures key in meta ==> r.value == meta[key].value
  {
    if key in meta then Some(meta[key].value) else None
  }

  /** `getCurrentWalk` on a metadata store: a walk exactly when the three
      recording keys all hold truthy values. */
  function CurrentWalkOf(meta: map<string, MetaEntry>): (r: Option<CurrentWalk>)
    ensures r.Some? <==>
      TruthyOpt(Lookup(meta, CurrentWalkIdKey)) && TruthyOpt(Lookup(meta, WalkStartedAtKey))
      && TruthyOpt(Lookup(meta, IsRecordingKey))
    ensures r.Some? ==>
      && r.value.walkId == ParseInt(meta[CurrentWalkIdKey].value)
      && r.value.startedAt == meta[WalkStartedAtKey].value
      && r.value.isRecording
  {
    var walkId := Lookup(meta, CurrentWalkIdKey);
    var startedAt := Lookup(meta, WalkStartedAtKey);
    var isRecording := Lookup(meta, IsRecordingKey);
    if TruthyOpt(walkId) && TruthyOpt(startedAt) && TruthyOpt(isRecording) then
      Some(CurrentWalk(ParseInt(walkId.value), startedAt.value, true))
    else
      None
  }

  /** The metadata store after `saveCurrentWalk`'s three writes. */
  function SavedWalk(meta: map<string, MetaEntry>, walkId: int, startedAt: string, now: int): map<string, MetaEntry>
  {
    meta[CurrentWalkIdKey := MetaEntry(Num(walkId), now)]
        [WalkStartedAtKey := MetaEntry(Text(startedAt), now)]
        [IsRecordingKey := MetaEntry(Flag(true), now)]
  }

  /** The metadata store after `clearCurrentWalk`'s two deletes and one
      write. */
  function ClearedWalk(meta: map<string, MetaEntry>, now: int): map<string, MetaEntry>
  {
    (meta - {CurrentWalkIdKey, WalkStartedAtKey})[IsRecordingKey := MetaEntry(Flag(false), now)]
  }

  /** After `saveCurrentWalk`, `getCurrentWalk` finds the walk just saved,
      unless the id is 0 or the start time is empty, which JavaScript
      reads as false. */
  lemma SavedWalkIsCurrent(meta: map<string, MetaEntry>, walkId: int, startedAt: string, now: int)
    ensures CurrentWalkOf(SavedWalk(meta, walkId, startedAt, now)).Some? <==> walkId != 0 && startedAt != ""
    ensures walkId != 0 && startedAt != "" ==>
      CurrentWalkOf(SavedWalk(meta, walkId, startedAt, now)) == Some(CurrentWalk(Some(walkId), Text(startedAt), true))
  {
  }

  /** After `clearCurrentWalk` there is no current walk, whatever was
      stored before. */
  lemma ClearedWalkIsGone(meta: map<string, MetaEntry>, now: int)
    ensures CurrentWalkOf(ClearedWalk(meta, now)) == None
    ensures Lookup(ClearedWalk(meta, now), IsRecordingKey) == Some(Flag(false))
  {
  }

  /** The recording keys are the only ones `saveCurrentWalk` and
      `clearCurrentWalk` touch; `lastSyncedAt` in particular survives
      both. */
  lemma WalkKeysOnly(meta: map<string, MetaEntry>, key: string, walkId: int, startedAt: string, now: int)
    requires key != CurrentWalkIdKey && key != WalkStartedAtKey && key != IsRecordingKey
    ensures Lookup(SavedWalk(meta, walkId, startedAt, now), key) == Lookup(meta, key)
    ensures Lookup(ClearedWalk(meta, now), key) == Lookup(meta, key)
  {
  }

  class WalkQueueDB {
    /** The `batches` object store. */
    const batchStore: BatchStore
    /** The `metadata` object store, keyed by `key`. */
    var metadata: map<string, MetaEntry>

    ghost predicate Valid()
      reads this, batchStore
    {
      batchStore.Valid()
    }

    /** A freshly opened database: both stores empty. */
    constructor ()
      ensures Valid() && fresh(batchStore)
      ensures batchStore.batches == [] && metadata == map[]
    {
      batchStore := new BatchStore();
      metadata := map[];
    }

    /** `setMetadata`: `put` replaces any record under the key. */
    method SetMetadata(key: string, value: MetaValue, now: int)
      modifies this`metadata
      ensures metadata == old(metadata)[key := MetaEntry(value, now)]
      ensures GetMetadata(key) == Some(value)
    {
      metadata := metadata[key := MetaEntry(value, now)];
    }

    /** `getMetadata` */
    function GetMetadata(key: string): (r: Option<MetaValue>)
      reads this
      ensures r == Lookup(metadata, key)
    {
      Lookup(metadata, key)
    }

    /** `removeMetadata`: deleting an absent key is not an error. */
    method RemoveMetadata(key: string)
      modifies this`metadata
      ensures metadata == old(metadata) - {key}
      ensures GetMetadata(key) == None
    {
      metadata := metadata - {key};
    }

    /** `saveCurrentWalk`: three `setMetadata` calls. */
    method SaveCurrentWalk(walkId: int, startedAt: string, now: int)
      modifies this`metadata
      ensures metadata == SavedWalk(old(metadata), walkId, startedAt, now)
      ensures walkId != 0 && startedAt != "" ==>
        GetCurrentWalk() == Some(CurrentWalk(Some(walkId), Text(startedAt), true))
    {
      SetMetadata(CurrentWalkIdKey, Num(walkId), now);
      SetMetadata(WalkStartedAtKey, Text(startedAt), now);
      SetMetadata(IsRecordingKey, Flag(true), now);
      SavedWalkIsCurrent(old(metadata), walkId, startedAt, now);
    }

    /** `getCurrentWalk` */
    function GetCurrentWalk(): (r: Option<CurrentWalk>)
      reads this
      ensures r == CurrentWalkOf(metadata)
    {
      CurrentWalkOf(metadata)
    }

    /** `clearCurrentWalk`: the id and start time are deleted and
        `isRecording` is written `false`. */
    method ClearCurrentWalk(now: int)
      modifies this`metadata
      ensures metadata == ClearedWalk(old(metadata), now)
      ensures GetCurrentWalk() == None
    {
      RemoveMetadata(CurrentWalkIdKey);
      RemoveMetadata(WalkStartedAtKey);
      SetMetadata(IsRecordingKey, Flag(false), now);
      assert metadata == ClearedWalk(old(metadata), now);
      ClearedWalkIsGone(old(metadata), now);
    }

    /** `updateLastSynced` */
    method UpdateLastSynced(now: int)
      modifies this`metadata
      ensures metadata == old(metadata)[LastSyncedAtKey := MetaEntry(Num(now), now)]
      ensures now != 0 ==> GetLastSynced() == Some(Num(now))
    {
      SetMetadata(LastSyncedAtKey, Num(now), now);
    }

    /** `getLastSynced`: the stored time, or `null` when it is missing or
        falsy. */
    function GetLastSynced(): (r: Option<MetaValue>)
      reads this
      ensures r.Some? <==> TruthyOpt(Lookup(metadata, LastSyncedAtKey))
      ensures r.Some? ==> r == Lookup(metadata, LastSyncedAtKey)
    {
      var timestamp := GetMetadata(LastSyncedAtKey);
      if TruthyOpt(timestamp) then timestamp else None
    }

    /** `clearAll`: one transaction clears both object stores; the batch
        key generator keeps counting. */
    method ClearAll()
      requires Valid()
      modifies this`metadata, batchStore`batches
      ensures Valid()
      ensures batchStore.batches == [] && metadata == map[]
      ensures batchStore.nextKey == old(batchStore.nextKey)
      ensures GetCurrentWalk() == None && GetLastSynced() == None
    {
      batchStore.ClearAll();
      metadata := map[];
    }
  }
}
