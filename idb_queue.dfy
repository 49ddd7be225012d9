/** The React client's `IDBQueue`: an IndexedDB object store of queued
    point batches keyed by a generated string id, with an index on the walk
    id. The store is a map from key to item. `getAll` on the index returns
    a walk's items in key order; that order is not modelled, and `drain`
    and `clearWalk` are proved for whichever order the items come in. */
module IdbQueue {
  import opened Common
  import opened ClientTypes

  datatype QueueItem = QueueItem(id: string, walkId: int, batch: seq<BatchPoint>, timestamp: int, retryCount: nat)

  /** The rejection of `add` for a key that is already stored. */
  datatype QueueError = ConstraintError

  /** How the caller's `sender` promise settled. */
  datatype SendOutcome = Resolved(success: bool) | Rejected

  predicate Delivered(o: SendOutcome)
  {
    o == Resolved(true)
  }

  datatype Stats = Stats(count: nat, oldestTimestamp: Option<int>)

  datatype DrainReport = DrainReport(sent: nat, failed: nat, remaining: nat)

  /** `getQueuedBatches`: the items of one walk, by key. */
  function WalkItems(store: map<string, QueueItem>, walkId: int): (m: map<string, QueueItem>)
    ensures forall k :: k in m <==> k in store && store[k].walkId == walkId
    ensures forall k :: k in m ==> m[k] == store[k]
  {
    map k | k in store && store[k].walkId == walkId :: store[k]
  }

  function Retried(item: QueueItem): QueueItem
  {
    item.(retryCount := item.retryCount + 1)
  }

  /** The store once the keys in `done` have been through `drain`: those
      the sender accepted are gone, the others carry one more retry. */
  function Processed(store: map<string, QueueItem>, done: set<string>, sender: QueueItem -> SendOutcome): (m: map<string, QueueItem>)
    ensures forall k :: k in m <==> k in store && !(k in done && Delivered(sender(store[k])))
    ensures forall k :: k in m ==> m[k] == if k in done then Retried(store[k]) else store[k]
  {
    map k | k in store && !(k in done && Delivered(sender(store[k])))
      :: if k in done then Retried(store[k]) else store[k]
  }

  /** A non-empty set has a member. */
  lemma Member<T>(s: set<T>) returns (x: T)
    requires s != {}
    ensures x in s
  {
    x :| x in s;
  }

  lemma {:induction false} MinExists(s: set<int>)
    requires s != {}
    ensures exists x :: x in s && forall y :: y in s ==> x <= y
    decreases |s|
  {
    var x := Member(s);
    if s != {x} {
      MinExists(s - {x});
      var m :| m in s - {x} && forall y :: y in s - {x} ==> m <= y;
      var least := if x < m then x else m;
      forall y | y in s
        ensures least <= y
      {
        if y != x {
          assert y in s - {x};
        }
      }
    }
  }

  /** `Math.min(...)` of a non-empty collection. */
  function Min(s: set<int>): (m: int)
    requires s != {}
    ensures m in s && forall y :: y in s ==> m <= y
  {
    MinExists(s);
    var x :| x in s && forall y :: y in s ==> x <= y;
    x
  }

  class IDBQueue {
    var store: map<string, QueueItem>

    /** Items sit under their own `id` (the store's key path). */
    ghost predicate Valid()
      reads this
    {
      forall k :: k in store ==> store[k].id == k
    }

    constructor ()
      ensures Valid() && store == map[]
    {
      store := map[];
    }

    /** `enqueue`: a new item for the walk, never retried, stamped `now`.
        The id is `${walkId}-${Date.now()}-<random>`, taken here as a
        parameter; `add` rejects a key that is already stored. */
    method Enqueue(walkId: int, batch: seq<BatchPoint>, id: string, now: int) returns (r: Result<(), QueueError>)
      requires Valid()
      modifies this
      ensures Valid()
      ensures id in old(store) <==> r.Err?
      ensures r.Err? ==> store == old(store)
      ensures r.Ok? ==> store == old(store)[id := QueueItem(id, walkId, batch, now, 0)]
    {
      if id in store {
        return Err(ConstraintError);
      }
      store := store[id := QueueItem(id, walkId, batch, now, 0)];
      return Ok(());
    }

    /** `getQueuedBatches` */
    function GetQueuedBatches(walkId: int): (m: map<string, QueueItem>)
      reads this
      ensures forall k :: k in m <==> k in store && store[k].walkId == walkId
      ensures forall k :: k in m ==> m[k] == store[k]
    {
      WalkItems(store, walkId)
    }

    /** `removeBatch`: deleting an absent key is not an error. */
    method RemoveBatch(id: string)
      requires Valid()
      modifies this
      ensures Valid() && store == old(store) - {id}
    {
      store := store - {id};
    }

    /** `incrementRetryCount`: one more retry on the stored item; nothing
        happens for an absent key. */
    method IncrementRetryCount(id: string)
      requires Valid()
      modifies this
      ensures Valid()
      ensures id in old(store) ==> store == old(store)[id := Retried(old(store)[id])]
      ensures id !in old(store) ==> store == old(store)
    {
      if id in store {
        var item := store[id];
        store := store[id := item.(retryCount := item.retryCount + 1)];
      }
    }

    /** `getStats`: how many items the walk has queued, and the oldest
        enqueue time among them, null when there are none. */
    function GetStats(walkId: int): (s: Stats)
      reads this
      ensures s.count == |GetQueuedBatches(walkId)|
      ensures s.oldestTimestamp.None? <==> s.count == 0
      ensures s.oldestTimestamp.Some? ==>
        && (exists k :: k in store && store[k].walkId == walkId && store[k].timestamp == s.oldestTimestamp.value)
        && forall k :: k in store && store[k].walkId == walkId ==> s.oldestTimestamp.value <= store[k].timestamp
    {
      var batches := GetQueuedBatches(walkId);
      var timestamps := set k | k in batches :: batches[k].timestamp;
      assert forall k :: k in batches ==> batches[k].timestamp in timestamps;
      assert |batches| > 0 ==> timestamps != {} by {
        if |batches| > 0 {
          assert |batches.Keys| > 0;
          var k := Member(batches.Keys);
        }
      }
      var oldest := if |batches| > 0 then Some(Min(timestamps)) else None;
      Stats(|batches|, oldest)
    }

    /** One pass of the `drain` loop: send the item; remove it when the
        sender resolved `true`, else count a retry. */
    method SendQueued(item: QueueItem, sender: QueueItem -> SendOutcome) returns (success: bool)
      requires Valid() && item.id in store && store[item.id] == item
      modifies this
      ensures Valid()
      ensures success <==> Delivered(sender(item))
      ensures success ==> store == old(store) - {item.id}
      ensures !success ==> store == old(store)[item.id := Retried(item)]
    {
      var outcome := sender(item);
      if outcome == Resolved(true) {
        RemoveBatch(item.id);
        return true;
      }
      IncrementRetryCount(item.id);
      return false;
    }

    /** `drain`: each of the walk's items is sent once through `sender`; a
        resolved `true` removes it, a resolved `false` or a rejection adds
        a retry. `remaining` is the walk's item count afterwards. The
        outcome is given per item (its key and retry count as well as its
        points), so two items carrying the same points may settle
        differently. */
    method Drain(walkId: int, sender: QueueItem -> SendOutcome) returns (report: DrainReport)
      requires Valid()
      modifies this
      ensures Valid()
      ensures store == Processed(old(store), WalkItems(old(store), walkId).Keys, sender)
      ensures report.sent + report.failed == |WalkItems(old(store), walkId)|
      ensures report.sent == |SentKeys(old(store), WalkItems(old(store), walkId).Keys, sender)|
      ensures report.remaining == |WalkItems(store, walkId)| == report.failed
    {
      var batches := GetQueuedBatches(walkId);
      var pending := batches.Keys;
      ghost var done: set<string> := {};
      var sent := 0;
      var failed := 0;
      assert store == Processed(old(store), done, sender);
      while pending != {}
        invariant Valid()
        invariant forall k :: k in batches <==> k in pending || k in done
        invariant pending !! done
        invariant store == Processed(old(store), done, sender)
        invariant sent == |SentKeys(old(store), done, sender)| && failed == |FailedKeys(old(store), done, sender)|
        decreases |pending|
      {
        ghost var some := Member(pending);
        var id :| id in pending;
        ProcessOne(old(store), done, sender, id);
        var success := SendQueued(batches[id], sender);
        if success {
          sent := sent + 1;
        } else {
          failed := failed + 1;
        }
        done := done + {id};
        pending := pending - {id};
      }
      DrainCounts(old(store), walkId, sender, done);
      var remaining := |GetQueuedBatches(walkId)|;
      return DrainReport(sent, failed, remaining);
    }

    /** `clearWalk`: deletes each of the walk's items in one transaction. */
    method ClearWalk(walkId: int)
      requires Valid()
      modifies this
      ensures Valid()
      ensures store == map k | k in old(store) && old(store)[k].walkId != walkId :: old(store)[k]
    {
      var batches := GetQueuedBatches(walkId);
      var pending := batches.Keys;
      while pending != {}
        invariant Valid()
        invariant pending <= batches.Keys
        invariant store == map k | k in old(store) && (k in pending || old(store)[k].walkId != walkId) :: old(store)[k]
        decreases |pending|
      {
        ghost var some := Member(pending);
        var id :| id in pending;
        store := store - {id};
        pending := pending - {id};
      }
    }
  }

  /** Sending one more item: delete it if the sender accepted it, else
      count a retry on it. */
  lemma ProcessOne(start: map<string, QueueItem>, done: set<string>, sender: QueueItem -> SendOutcome, id: string)
    requires id in start && id !in done
    ensures id in Processed(start, done, sender) && Processed(start, done, sender)[id] == start[id]
    ensures Delivered(sender(start[id])) ==>
      && SentKeys(start, done + {id}, sender) == SentKeys(start, done, sender) + {id}
      && FailedKeys(start, done + {id}, sender) == FailedKeys(start, done, sender)
    ensures !Delivered(sender(start[id])) ==>
      && SentKeys(start, done + {id}, sender) == SentKeys(start, done, sender)
      && FailedKeys(start, done + {id}, sender) == FailedKeys(start, done, sender) + {id}
    ensures id !in SentKeys(start, done, sender) && id !in FailedKeys(start, done, sender)
    ensures Delivered(sender(start[id])) ==> Processed(start, done + {id}, sender) == Processed(start, done, sender) - {id}
    ensures !Delivered(sender(start[id])) ==>
      Processed(start, done + {id}, sender) == Processed(start, done, sender)[id := Retried(start[id])]
  {
  }

  /** The keys in `done` whose send the sender accepted. */
  function SentKeys(start: map<string, QueueItem>, done: set<string>, sender: QueueItem -> SendOutcome): set<string>
  {
    set k | k in done && k in start && Delivered(sender(start[k]))
  }

  /** The keys in `done` whose send failed or threw. */
  function FailedKeys(start: map<string, QueueItem>, done: set<string>, sender: QueueItem -> SendOutcome): set<string>
  {
    set k | k in done && k in start && !Delivered(sender(start[k]))
  }

  /** The walk's items split into those the sender accepted and the
      others, and the walk's items left are exactly the others. */
  lemma DrainCounts(start: map<string, QueueItem>, walkId: int, sender: QueueItem -> SendOutcome, done: set<string>)
    requires forall k :: k in WalkItems(start, walkId) <==> k in done
    ensures done == WalkItems(start, walkId).Keys
    ensures |SentKeys(start, done, sender)| + |FailedKeys(start, done, sender)| == |WalkItems(start, walkId)|
    ensures WalkItems(Processed(start, done, sender), walkId).Keys == FailedKeys(start, done, sender)
    ensures |WalkItems(Processed(start, done, sender), walkId)| == |FailedKeys(start, done, sender)|
  {
    var walk := WalkItems(start, walkId);
    var sentKeys := SentKeys(start, done, sender);
    var failedKeys := FailedKeys(start, done, sender);
    assert done == walk.Keys;
    assert walk.Keys == sentKeys + failedKeys;
    assert sentKeys !! failedKeys;
    var left := WalkItems(Processed(start, done, sender), walkId);
    assert left.Keys == failedKeys;
    assert |left| == |left.Keys|;
    assert |walk| == |walk.Keys|;
  }
}
