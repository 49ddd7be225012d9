/** The client's IndexedDB batch store: `WalkQueueDB` of the static client
    (static/db.js) and the `batches` object store of the newer one
    (web/db.js), whose batch methods are the same code. Keys come from the
    store's auto-increment generator: they start at 1, grow with every
    insert and are not reset by `clear`. The sequence `batches` is kept in
    insertion order, which is therefore also primary-key order. */
module BatchStore {
  import opened Common
  import opened ClientTypes

  datatype BatchRecord = BatchRecord(
    id: nat, walkId: int, points: seq<BatchPoint>,
    retryCount: nat, nextAttemptAt: real, createdAt: int)

  /** Primary keys strictly increase along the store. */
  ghost predicate Increasing(s: seq<BatchRecord>)
  {
    forall i, j :: 0 <= i < j < |s| ==> s[i].id < s[j].id
  }

  /** Inside `IDBKeyRange.upperBound(now)` on the `nextAttemptAt` index. */
  predicate ReadyAt(b: BatchRecord, now: int)
  {
    b.nextAttemptAt <= now as real
  }

  function OfWalk(walkId: int): BatchRecord -> bool
  {
    (b: BatchRecord) => b.walkId == walkId
  }

  function NotOfWalk(walkId: int): BatchRecord -> bool
  {
    (b: BatchRecord) => b.walkId != walkId
  }

  function NotId(id: nat): BatchRecord -> bool
  {
    (b: BatchRecord) => b.id != id
  }

  function NotAmong(ids: set<nat>): BatchRecord -> bool
  {
    (b: BatchRecord) => b.id !in ids
  }

  /** Where the first entry of a cursor over the `nextAttemptAt` index,
      bounded above by `now`, sits: the ready record with the smallest
      `nextAttemptAt`, ties going to the smaller primary key. */
  function NextReady(s: seq<BatchRecord>, now: int): (r: Option<nat>)
    ensures r.Some? ==> r.value < |s| && ReadyAt(s[r.value], now)
    ensures r.Some? ==> forall j :: 0 <= j < |s| && ReadyAt(s[j], now) ==> s[r.value].nextAttemptAt <= s[j].nextAttemptAt
    ensures r.Some? ==> forall j :: 0 <= j < r.value && ReadyAt(s[j], now) ==> s[j].nextAttemptAt > s[r.value].nextAttemptAt
    ensures r.None? <==> forall j :: 0 <= j < |s| ==> !ReadyAt(s[j], now)
  {
    if s == [] then None
    else
      var r := NextReady(s[..|s| - 1], now);
      var last := s[|s| - 1];
      if ReadyAt(last, now) && (r.None? || last.nextAttemptAt < s[r.value].nextAttemptAt) then Some(|s| - 1)
      else r
  }

  /** The record with a new `retryCount` and `nextAttemptAt`, as the `put`
      in `updateBatchRetry` writes it. */
  function Rescheduled(b: BatchRecord, retryCount: nat, nextAttemptAt: real): BatchRecord
  {
    b.(retryCount := retryCount, nextAttemptAt := nextAttemptAt)
  }

  /** The store after that `put`: the record with key `id` is rewritten in
      place, every other record stays as it was. */
  function RescheduleId(s: seq<BatchRecord>, id: nat, retryCount: nat, nextAttemptAt: real): (r: seq<BatchRecord>)
    ensures |r| == |s|
    ensures forall i :: 0 <= i < |s| ==> r[i] == if s[i].id == id then Rescheduled(s[i], retryCount, nextAttemptAt) else s[i]
  {
    if s == [] then []
    else
      var last := s[|s| - 1];
      RescheduleId(s[..|s| - 1], id, retryCount, nextAttemptAt)
        + [if last.id == id then Rescheduled(last, retryCount, nextAttemptAt) else last]
  }

  /** A filtered store keeps its keys increasing. */
  lemma {:induction false} KeepIncreasing(s: seq<BatchRecord>, p: BatchRecord -> bool)
    requires Increasing(s)
    ensures Increasing(Keep(s, p))
  {
    if s != [] {
      var prefix := s[..|s| - 1];
      KeepIncreasing(prefix, p);
      forall x | x in Keep(prefix, p)
        ensures x.id < s[|s| - 1].id
      {
        var i :| 0 <= i < |prefix| && prefix[i] == x;
      }
    }
  }

  /** With increasing keys, a key names at most one record. */
  lemma IdNamesOne(s: seq<BatchRecord>, x: BatchRecord, y: BatchRecord)
    requires Increasing(s) && x in s && y in s && x.id == y.id
    ensures x == y
  {
    var i :| 0 <= i < |s| && s[i] == x;
    var j :| 0 <= j < |s| && s[j] == y;
    assert i == j;
  }

  class BatchStore {
    var batches: seq<BatchRecord>
    /** The key generator's next value. */
    var nextKey: nat

    ghost predicate Valid()
      reads this
    {
      && Increasing(batches)
      && 1 <= nextKey
      && forall i :: 0 <= i < |batches| ==> batches[i].id < nextKey
    }

    /** A freshly created object store. */
    constructor ()
      ensures Valid() && batches == [] && nextKey == 1
    {
      batches := [];
      nextKey := 1;
    }

    /** `addBatch`: a new record under the next generated key, never tried,
        due and created at `now`. The key is returned. */
    method AddBatch(walkId: int, points: seq<BatchPoint>, now: int) returns (id: nat)
      requires Valid()
      modifies this
      ensures Valid()
      ensures id == old(nextKey) && nextKey == id + 1
      ensures forall b :: b in old(batches) ==> b.id < id
      ensures batches == old(batches) + [BatchRecord(id, walkId, points, 0, now as real, now)]
    {
      id := nextKey;
      batches := batches + [BatchRecord(id, walkId, points, 0, now as real, now)];
      nextKey := nextKey + 1;
    }

    /** `getNextReadyBatch`: the ready record with the smallest
        `nextAttemptAt` (the first stored among equals), or null when no
        record is due at `now`. */
    function GetNextReadyBatch(now: int): (r: Option<BatchRecord>)
      reads this
      ensures r.Some? ==> r.value in batches && ReadyAt(r.value, now)
      ensures r.Some? ==> forall b :: b in batches && ReadyAt(b, now) ==> r.value.nextAttemptAt <= b.nextAttemptAt
      ensures r.None? <==> forall b :: b in batches ==> !ReadyAt(b, now)
    {
      match NextReady(batches, now)
      case None => None
      case Some(k) => Some(batches[k])
    }

    /** `removeBatch`: deleting a key that is not stored is not an error. */
    method RemoveBatch(id: nat)
      requires Valid()
      modifies this`batches
      ensures Valid()
      ensures batches == Keep(old(batches), NotId(id))
      ensures forall b :: b in batches <==> b in old(batches) && b.id != id
    {
      KeepIncreasing(batches, NotId(id));
      KeepCount(batches, NotId(id));
      batches := Keep(batches, NotId(id));
    }

    /** `updateBatchRetry`: only the two scheduling fields of that record
        change; an absent key rejects with "Batch not found". */
    method UpdateBatchRetry(id: nat, retryCount: nat, nextAttemptAt: real) returns (r: Result<(), string>)
      requires Valid()
      modifies this`batches
      ensures Valid()
      ensures (exists b :: b in old(batches) && b.id == id) <==> r.Ok?
      ensures r.Err? ==> r.error == "Batch not found" && batches == old(batches)
      ensures r.Ok? ==> batches == RescheduleId(old(batches), id, retryCount, nextAttemptAt)
    {
      var k := 0;
      while k < |batches| && batches[k].id != id
        invariant 0 <= k <= |batches|
        invariant forall j :: 0 <= j < k ==> batches[j].id != id
      {
        k := k + 1;
      }
      if k == |batches| {
        return Err("Batch not found");
      }
      batches := RescheduleId(batches, id, retryCount, nextAttemptAt);
      return Ok(());
    }

    /** `getBatchesByWalkId`: the walk's records in key order. */
    function GetBatchesByWalkId(walkId: int): (r: seq<BatchRecord>)
      reads this
      ensures forall b :: b in r <==> b in batches && b.walkId == walkId
      ensures |r| == CountWhere(batches, OfWalk(walkId))
    {
      KeepCount(batches, OfWalk(walkId));
      Keep(batches, OfWalk(walkId))
    }

    /** `getQueueSize` */
    function GetQueueSize(): (n: nat)
      reads this
      ensures n == |batches|
      ensures n == 0 <==> forall w :: GetBatchesByWalkId(w) == []
    {
      assert batches != [] ==> batches[0] in GetBatchesByWalkId(batches[0].walkId);
      |batches|
    }

    /** `clearAll`: every record goes; the key generator keeps counting. */
    method ClearAll()
      requires Valid()
      modifies this`batches
      ensures Valid() && batches == [] && GetQueueSize() == 0
    {
      batches := [];
    }

    /** `removeBatchesForWalk`: a cursor over the `walkId` index deletes the
        walk's records one by one, in key order. */
    method RemoveBatchesForWalk(walkId: int)
      requires Valid()
      modifies this`batches
      ensures Valid()
      ensures batches == Keep(old(batches), NotOfWalk(walkId))
      ensures forall b :: b in batches <==> b in old(batches) && b.walkId != walkId
    {
      var cursor := GetBatchesByWalkId(walkId);
      ghost var deleted: set<nat> := {};
      KeepAll(batches, NotAmong({}));
      for i := 0 to |cursor|
        invariant Valid()
        invariant deleted == KeysUpTo(cursor, i)
        invariant batches == Keep(old(batches), NotAmong(deleted))
      {
        DeleteOneMore(old(batches), deleted, cursor[i].id);
        RemoveBatch(cursor[i].id);
        deleted := deleted + {cursor[i].id};
      }
      CursorCoversWalk(old(batches), walkId, deleted);
      KeepCount(old(batches), NotOfWalk(walkId));
    }
  }

  /** The keys of the first `n` records of `s`. */
  function KeysUpTo(s: seq<BatchRecord>, n: nat): set<nat>
    requires n <= |s|
  {
    if n == 0 then {} else KeysUpTo(s, n - 1) + {s[n - 1].id}
  }

  lemma {:induction false} KeysUpToMembers(s: seq<BatchRecord>, n: nat, id: nat)
    requires n <= |s|
    ensures id in KeysUpTo(s, n) <==> exists j :: 0 <= j < n && s[j].id == id
  {
    if n > 0 {
      KeysUpToMembers(s, n - 1, id);
    }
  }

  lemma DeleteOneMore(s: seq<BatchRecord>, deleted: set<nat>, id: nat)
    ensures Keep(Keep(s, NotAmong(deleted)), NotId(id)) == Keep(s, NotAmong(deleted + {id}))
  {
    KeepKeep(s, NotAmong(deleted), NotId(id), NotAmong(deleted + {id}));
  }

  /** Deleting the keys the walk's cursor visits removes exactly the walk's
      records. */
  lemma CursorCoversWalk(s: seq<BatchRecord>, walkId: int, deleted: set<nat>)
    requires Increasing(s)
    requires deleted == KeysUpTo(Keep(s, OfWalk(walkId)), |Keep(s, OfWalk(walkId))|)
    ensures Keep(s, NotAmong(deleted)) == Keep(s, NotOfWalk(walkId))
  {
    var cursor := Keep(s, OfWalk(walkId));
    KeepCount(s, OfWalk(walkId));
    forall j | 0 <= j < |s|
      ensures NotAmong(deleted)(s[j]) == NotOfWalk(walkId)(s[j])
    {
      var x := s[j];
      KeysUpToMembers(cursor, |cursor|, x.id);
      assert x.walkId == walkId ==> x in cursor;
      if x.id in deleted {
        var c :| 0 <= c < |cursor| && cursor[c].id == x.id;
        assert cursor[c] in cursor;
        IdNamesOne(s, x, cursor[c]);
      }
    }
    KeepSameOn(s, NotAmong(deleted), NotOfWalk(walkId));
  }
}
