/** The static client's `WalkNetworking` upload policy: how a reply to a
    batch upload is classified, how long a failed batch waits, and what one
    `drainQueue` run does to the batch store. The server's replies, the
    clock and `Math.random()` are parameters. */
module Networking {
  import opened Common
  import opened ClientTypes
  import opened BatchStore

  const MaxRetries: nat := 10
  const BaseBackoffMs: nat := 5000
  const MaxBackoffMs: nat := 60000

  /** What `fetch` of `POST /api/walks/{walkId}/points` ended with: a reply
      (with whether its body parses as JSON), or a rejection. */
  datatype HttpReply = Reply(status: int, jsonBody: bool) | NetworkFailure

  datatype ErrorKind = WalkFinished | WalkNotFound | ValidationError | NetworkError

  /** `{ success: true, ... }`, or `{ success: false, stopRetrying, error }`. */
  datatype SendResult = Sent | NotSent(stopRetrying: bool, error: ErrorKind)

  /** `response.ok` */
  predicate IsOk(status: int)
  {
    200 <= status <= 299
  }

  /** `sendPointsBatch`: a 2xx reply whose body parses is a success (a body
      that does not parse throws inside the `try`, which makes it a network
      error); 409, 404 and 400 mean the batch can never be accepted; every
      other status and every rejection is worth retrying. */
  function SendPointsBatch(reply: HttpReply): (r: SendResult)
    ensures r.Sent? <==> reply.Reply? && IsOk(reply.status) && reply.jsonBody
    ensures r.NotSent? && r.stopRetrying <==> reply.Reply? && reply.status in {409, 404, 400}
    ensures r.NotSent? && !r.stopRetrying ==> r.error == NetworkError
    ensures r == NotSent(true, WalkFinished) <==> reply.Reply? && reply.status == 409
    ensures r == NotSent(true, WalkNotFound) <==> reply.Reply? && reply.status == 404
    ensures r == NotSent(true, ValidationError) <==> reply.Reply? && reply.status == 400
  {
    match reply
    case NetworkFailure => NotSent(false, NetworkError)
    case Reply(status, jsonBody) =>
      if IsOk(status) then (if jsonBody then Sent else NotSent(false, NetworkError))
      else if status == 409 then NotSent(true, WalkFinished)
      else if status == 404 then NotSent(true, WalkNotFound)
      else if status == 400 then NotSent(true, ValidationError)
      else NotSent(false, NetworkError)
  }

  function Pow2(n: nat): (p: nat)
    ensures p >= 1
  {
    if n == 0 then 1 else 2 * Pow2(n - 1)
  }

  /** `Math.min(baseBackoffMs * Math.pow(2, retryCount), maxBackoffMs)` */
  function Backoff(retryCount: nat): (d: nat)
    ensures BaseBackoffMs <= d <= MaxBackoffMs
    ensures retryCount >= 4 ==> d == MaxBackoffMs
  {
    assert retryCount >= 4 ==> Pow2(retryCount) >= 16 by {
      if retryCount >= 4 {
        PowGrows(4, retryCount);
      }
    }
    if BaseBackoffMs * Pow2(retryCount) < MaxBackoffMs then BaseBackoffMs * Pow2(retryCount) else MaxBackoffMs
  }

  lemma {:induction false} PowGrows(m: nat, n: nat)
    requires m <= n
    ensures Pow2(m) <= Pow2(n)
    decreases n
  {
    if m < n {
      PowGrows(m, n - 1);
    }
  }

  /** The wait doubles from 5 s up to the 60 s cap and never shrinks. */
  lemma BackoffSchedule(m: nat, n: nat)
    requires m <= n
    ensures Backoff(0) == 5000 && Backoff(1) == 10000 && Backoff(2) == 20000 && Backoff(3) == 40000
    ensures Backoff(m) <= Backoff(n)
  {
    PowGrows(m, n);
  }

  /** `calculateBackoff`: the capped delay plus `Math.random() * 1000`. */
  function CalculateBackoff(retryCount: nat, jitter: real): (d: real)
    ensures 0.0 <= jitter < 1000.0 ==> Backoff(retryCount) as real <= d < Backoff(retryCount) as real + 1000.0
  {
    Backoff(retryCount) as real + jitter
  }

  /** What `drainQueue` does with one ready batch given the upload's
      result: None deletes it, Some is the record it writes back. */
  function Decide(b: BatchRecord, result: SendResult, now: int, jitter: real): (r: Option<BatchRecord>)
    ensures r.None? <==> result.Sent? || result.stopRetrying || b.retryCount + 1 > MaxRetries
    ensures r.Some? ==> r.value == Rescheduled(b, b.retryCount + 1, r.value.nextAttemptAt)
    ensures r.Some? && 0.0 <= jitter < 1000.0 ==>
      now as real + 5000.0 <= r.value.nextAttemptAt < now as real + 61000.0
  {
    if result.Sent? || result.stopRetrying then None
    else
      var newRetryCount := b.retryCount + 1;
      if newRetryCount > MaxRetries then None
      else Some(Rescheduled(b, newRetryCount, now as real + CalculateBackoff(newRetryCount, jitter)))
  }

  lemma RetryWritesBack(b: BatchRecord, result: SendResult, now: int, jitter: real)
    requires result.NotSent? && !result.stopRetrying && b.retryCount + 1 <= MaxRetries
    ensures Decide(b, result, now, jitter)
         == Some(Rescheduled(b, b.retryCount + 1, now as real + CalculateBackoff(b.retryCount + 1, jitter)))
  {
  }

  /** The state of a batch after `k` retryable failures in a row, the i-th
      handled at `now(i)` with jitter `jitter(i)`; None once it was dropped. */
  function AfterFailures(b: BatchRecord, k: nat, now: nat -> int, jitter: nat -> real): Option<BatchRecord>
  {
    if k == 0 then Some(b)
    else match AfterFailures(b, k - 1, now, jitter)
      case None => None
      case Some(c) => Decide(c, NotSent(false, NetworkError), now(k - 1), jitter(k - 1))
  }

  /** A new batch (retry count 0) is still queued after `k` failures exactly
      when `k <= 10`: it is uploaded at most 11 times. */
  lemma {:induction false} AtMostElevenAttempts(b: BatchRecord, k: nat, now: nat -> int, jitter: nat -> real)
    requires b.retryCount == 0
    ensures AfterFailures(b, k, now, jitter).Some? <==> k <= MaxRetries
    ensures AfterFailures(b, k, now, jitter).Some? ==> AfterFailures(b, k, now, jitter).value.retryCount == k
  {
    if k > 0 {
      AtMostElevenAttempts(b, k - 1, now, jitter);
    }
  }

  /** The decision `drainQueue` applies to each ready batch, with the
      server's reply to that batch's request. Replies are given per stored
      batch (its key, retry count and points), so two batches carrying the
      same points may be answered differently. */
  function Step(reply: BatchRecord -> HttpReply, jitter: BatchRecord -> real, now: int): BatchRecord -> Option<BatchRecord>
  {
    (b: BatchRecord) => Decide(b, SendPointsBatch(reply(b)), now, jitter(b))
  }

  /** Keys of the records due at `now`. */
  function ReadyIds(s: seq<BatchRecord>, now: int): set<nat>
  {
    set x | x in s && ReadyAt(x, now) :: x.id
  }

  /** The store once the records whose keys are in `done` have been
      handled by `step`, each in its own place: deleted for None, rewritten
      for Some. */
  function Settle(s: seq<BatchRecord>, done: set<nat>, step: BatchRecord -> Option<BatchRecord>): (r: seq<BatchRecord>)
    ensures |r| <= |s|
    ensures forall x :: x in s && x.id !in done ==> x in r
    ensures forall x :: x in s && x.id in done && step(x).Some? ==> step(x).value in r
  {
    if s == [] then []
    else
      var last := s[|s| - 1];
      var handled := if last.id !in done then [last] else if step(last).Some? then [step(last).value] else [];
      var r := Settle(s[..|s| - 1], done, step) + handled;
      assert forall x :: x in s ==> x in s[..|s| - 1] || x == last;
      r
  }

  /** A step only rewrites the two scheduling fields, and what it writes
      back is not due at `now`. */
  ghost predicate Postpones(step: BatchRecord -> Option<BatchRecord>, now: int)
  {
    forall x :: step(x).Some? ==>
      && step(x).value == Rescheduled(x, step(x).value.retryCount, step(x).value.nextAttemptAt)
      && !ReadyAt(step(x).value, now)
  }

  lemma StepPostpones(reply: BatchRecord -> HttpReply, jitter: BatchRecord -> real, now: int)
    requires forall b :: 0.0 <= jitter(b) < 1000.0
    ensures Postpones(Step(reply, jitter, now), now)
  {
  }

  /** The records of a partly settled store: an original not yet handled,
      or the rewrite of a handled one. */
  lemma {:induction false} SettleMembers(s: seq<BatchRecord>, done: set<nat>, step: BatchRecord -> Option<BatchRecord>, y: BatchRecord)
    requires y in Settle(s, done, step)
    ensures (y in s && y.id !in done) || exists x :: x in s && x.id in done && step(x) == Some(y)
  {
    var prefix := s[..|s| - 1];
    var last := s[|s| - 1];
    if y in Settle(prefix, done, step) {
      SettleMembers(prefix, done, step, y);
      if y in prefix && y.id !in done {
        assert y in s;
      } else {
        var x :| x in prefix && x.id in done && step(x) == Some(y);
        assert x in s;
      }
    } else {
      assert last in s;
    }
  }

  /** Nothing that is due after a partial drain has been handled yet. */
  lemma ReadyIsOriginal(s: seq<BatchRecord>, done: set<nat>, step: BatchRecord -> Option<BatchRecord>, now: int, y: BatchRecord)
    requires Postpones(step, now)
    requires y in Settle(s, done, step) && ReadyAt(y, now)
    ensures y in s && y.id !in done
  {
    SettleMembers(s, done, step, y);
  }

  lemma {:induction false} SettleNothingDone(s: seq<BatchRecord>, step: BatchRecord -> Option<BatchRecord>)
    ensures Settle(s, {}, step) == s
  {
    if s != [] {
      SettleNothingDone(s[..|s| - 1], step);
      assert s == s[..|s| - 1] + [s[|s| - 1]];
    }
  }

  /** Deleting the record with key `id` is handling it with a step that
      drops it. */
  lemma {:induction false} SettleRemove(s: seq<BatchRecord>, done: set<nat>, step: BatchRecord -> Option<BatchRecord>, id: nat)
    requires id !in done
    requires forall x :: x in s && x.id == id ==> step(x).None?
    requires forall x :: x in s && x.id in done && step(x).Some? ==> step(x).value.id == x.id
    ensures Keep(Settle(s, done, step), NotId(id)) == Settle(s, done + {id}, step)
  {
    if s != [] {
      var prefix := s[..|s| - 1];
      var last := s[|s| - 1];
      assert forall x :: x in prefix ==> x in s;
      SettleRemove(prefix, done, step, id);
      var handled := if last.id !in done then [last] else if step(last).Some? then [step(last).value] else [];
      var handled' := if last.id !in done + {id} then [last] else if step(last).Some? then [step(last).value] else [];
      assert Settle(s, done, step) == Settle(prefix, done, step) + handled;
      assert Settle(s, done + {id}, step) == Settle(prefix, done + {id}, step) + handled';
      KeepAppend(Settle(prefix, done, step), handled, NotId(id));
      RemoveOne(handled, handled', last, done, step, id);
    }
  }

  lemma RemoveOne(handled: seq<BatchRecord>, handled': seq<BatchRecord>, last: BatchRecord, done: set<nat>,
                  step: BatchRecord -> Option<BatchRecord>, id: nat)
    requires id !in done
    requires last.id == id ==> step(last).None?
    requires last.id in done && step(last).Some? ==> step(last).value.id == last.id
    requires handled == if last.id !in done then [last] else if step(last).Some? then [step(last).value] else []
    requires handled' == if last.id !in done + {id} then [last] else if step(last).Some? then [step(last).value] else []
    ensures Keep(handled, NotId(id)) == handled'
  {
    if handled != [] {
      assert handled == [] + [handled[0]];
    }
  }

  /** Rewriting the record with key `id` in place is handling it with a
      step that reschedules it. */
  lemma {:induction false} SettleReschedule(s: seq<BatchRecord>, done: set<nat>, step: BatchRecord -> Option<BatchRecord>,
                                            id: nat, retryCount: nat, nextAttemptAt: real)
    requires id !in done
    requires forall x :: x in s && x.id == id ==> step(x) == Some(Rescheduled(x, retryCount, nextAttemptAt))
    requires forall x :: x in s && x.id in done && step(x).Some? ==> step(x).value.id == x.id
    ensures RescheduleId(Settle(s, done, step), id, retryCount, nextAttemptAt) == Settle(s, done + {id}, step)
  {
    if s != [] {
      var prefix := s[..|s| - 1];
      var last := s[|s| - 1];
      assert forall x :: x in prefix ==> x in s;
      SettleReschedule(prefix, done, step, id, retryCount, nextAttemptAt);
      var handled := if last.id !in done then [last] else if step(last).Some? then [step(last).value] else [];
      var handled' := if last.id !in done + {id} then [last] else if step(last).Some? then [step(last).value] else [];
      assert Settle(s, done, step) == Settle(prefix, done, step) + handled;
      assert Settle(s, done + {id}, step) == Settle(prefix, done + {id}, step) + handled';
      RescheduleAppend(Settle(prefix, done, step), handled, id, retryCount, nextAttemptAt);
      RescheduleOne(handled, handled', last, done, step, id, retryCount, nextAttemptAt);
    }
  }

  lemma RescheduleOne(handled: seq<BatchRecord>, handled': seq<BatchRecord>, last: BatchRecord, done: set<nat>,
                      step: BatchRecord -> Option<BatchRecord>, id: nat, retryCount: nat, nextAttemptAt: real)
    requires id !in done
    requires last.id == id ==> step(last) == Some(Rescheduled(last, retryCount, nextAttemptAt))
    requires last.id in done && step(last).Some? ==> step(last).value.id == last.id
    requires handled == if last.id !in done then [last] else if step(last).Some? then [step(last).value] else []
    requires handled' == if last.id !in done + {id} then [last] else if step(last).Some? then [step(last).value] else []
    ensures RescheduleId(handled, id, retryCount, nextAttemptAt) == handled'
  {
    var r := RescheduleId(handled, id, retryCount, nextAttemptAt);
    assert |r| == |handled|;
    if handled != [] {
      assert r[0] == if handled[0].id == id then Rescheduled(handled[0], retryCount, nextAttemptAt) else handled[0];
    }
  }

  lemma RescheduleAppend(a: seq<BatchRecord>, b: seq<BatchRecord>, id: nat, retryCount: nat, nextAttemptAt: real)
    ensures RescheduleId(a + b, id, retryCount, nextAttemptAt)
         == RescheduleId(a, id, retryCount, nextAttemptAt) + RescheduleId(b, id, retryCount, nextAttemptAt)
  {
    var l := RescheduleId(a + b, id, retryCount, nextAttemptAt);
    var r := RescheduleId(a, id, retryCount, nextAttemptAt) + RescheduleId(b, id, retryCount, nextAttemptAt);
    assert |l| == |r|;
    forall i | 0 <= i < |l|
      ensures l[i] == r[i]
    {
      if i >= |a| {
        assert (a + b)[i] == b[i - |a|];
      }
    }
  }

  /** Handling one more due original record, by deleting it or by
      rewriting it in place, moves the store one key further. */
  lemma HandleOne(start: seq<BatchRecord>, done: set<nat>, step: BatchRecord -> Option<BatchRecord>, now: int, batch: BatchRecord)
    requires Increasing(start) && Postpones(step, now)
    requires batch in start && batch.id !in done
    ensures step(batch).None? ==> Keep(Settle(start, done, step), NotId(batch.id)) == Settle(start, done + {batch.id}, step)
    ensures step(batch).Some? ==>
      RescheduleId(Settle(start, done, step), batch.id, step(batch).value.retryCount, step(batch).value.nextAttemptAt)
        == Settle(start, done + {batch.id}, step)
  {
    forall x | x in start && x.id == batch.id
      ensures x == batch
    {
      IdNamesOne(start, x, batch);
    }
    if step(batch).None? {
      SettleRemove(start, done, step, batch.id);
    } else {
      SettleReschedule(start, done, step, batch.id, step(batch).value.retryCount, step(batch).value.nextAttemptAt);
    }
  }

  /** The next due record of a partly drained store is an original whose
      key is still to be handled; handling it brings the drain one key
      closer to the end. */
  lemma Advance(start: seq<BatchRecord>, done: set<nat>, step: BatchRecord -> Option<BatchRecord>, now: int, batch: BatchRecord)
    requires Increasing(start) && Postpones(step, now)
    requires done <= ReadyIds(start, now)
    requires batch in Settle(start, done, step) && ReadyAt(batch, now)
    ensures batch in start && batch.id in ReadyIds(start, now) - done
    ensures |ReadyIds(start, now) - (done + {batch.id})| < |ReadyIds(start, now) - done|
    ensures step(batch).None? ==> Keep(Settle(start, done, step), NotId(batch.id)) == Settle(start, done + {batch.id}, step)
    ensures step(batch).Some? ==>
      RescheduleId(Settle(start, done, step), batch.id, step(batch).value.retryCount, step(batch).value.nextAttemptAt)
        == Settle(start, done + {batch.id}, step)
  {
    ReadyIsOriginal(start, done, step, now, batch);
    var due := ReadyIds(start, now);
    assert due - done == (due - (done + {batch.id})) + {batch.id};
    HandleOne(start, done, step, now, batch);
  }

  /** When no record is due any more, every key due at the start has been
      handled. */
  lemma AllDueHandled(start: seq<BatchRecord>, done: set<nat>, step: BatchRecord -> Option<BatchRecord>, now: int)
    requires done <= ReadyIds(start, now)
    requires forall y :: y in Settle(start, done, step) ==> !ReadyAt(y, now)
    ensures done == ReadyIds(start, now)
  {
    assert forall x :: x in start && ReadyAt(x, now) ==> x.id in done;
  }

  /** What one drain does to each record that was stored when it started:
      a record not yet due stays as it was; a due one is rewritten as its
      decision says, or no record with its key is left. */
  lemma DrainOutcome(start: seq<BatchRecord>, step: BatchRecord -> Option<BatchRecord>, now: int)
    requires Increasing(start) && Postpones(step, now)
    ensures forall x :: x in start && !ReadyAt(x, now) ==> x in Settle(start, ReadyIds(start, now), step)
    ensures forall x :: x in start && ReadyAt(x, now) && step(x).Some? ==> step(x).value in Settle(start, ReadyIds(start, now), step)
    ensures forall x, y ::
              x in start && ReadyAt(x, now) && step(x).None? && y in Settle(start, ReadyIds(start, now), step) ==> y.id != x.id
  {
    var due := ReadyIds(start, now);
    forall x | x in start && !ReadyAt(x, now)
      ensures x.id !in due
    {
      if x.id in due {
        var x' :| x' in start && ReadyAt(x', now) && x'.id == x.id;
        IdNamesOne(start, x, x');
      }
    }
    forall x, y | x in start && ReadyAt(x, now) && step(x).None? && y in Settle(start, due, step)
      ensures y.id != x.id
    {
      SettleMembers(start, due, step, y);
      if !(y in start && y.id !in due) {
        var x' :| x' in start && x'.id in due && step(x') == Some(y);
        if x'.id == x.id {
          IdNamesOne(start, x, x');
        }
      }
    }
  }

  class Networking {
    /** `drainingQueue` */
    var drainingQueue: bool

    constructor ()
      ensures !drainingQueue
    {
      drainingQueue := false;
    }

    /** One pass of the `drainQueue` loop: upload the batch, then delete it
        or write back its next retry, as `Decide` says. */
    method UploadOne(queue: BatchStore, batch: BatchRecord, now: int,
                     reply: BatchRecord -> HttpReply, jitter: BatchRecord -> real)
      returns (decision: Option<BatchRecord>)
      requires queue.Valid() && batch in queue.batches
      modifies queue`batches
      ensures queue.Valid()
      ensures decision == Decide(batch, SendPointsBatch(reply(batch)), now, jitter(batch))
      ensures decision.None? ==> queue.batches == Keep(old(queue.batches), NotId(batch.id))
      ensures decision.Some? ==>
        queue.batches == RescheduleId(old(queue.batches), batch.id, decision.value.retryCount, decision.value.nextAttemptAt)
    {
      var result := SendPointsBatch(reply(batch));
      if result.Sent? || result.stopRetrying {
        queue.RemoveBatch(batch.id);
        return None;
      }
      var newRetryCount := batch.retryCount + 1;
      if newRetryCount > MaxRetries {
        queue.RemoveBatch(batch.id);
        return None;
      }
      var nextAttemptAt := now as real + CalculateBackoff(newRetryCount, jitter(batch));
      RetryWritesBack(batch, result, now, jitter(batch));
      var updated := queue.UpdateBatchRetry(batch.id, newRetryCount, nextAttemptAt);
      return Some(Rescheduled(batch, newRetryCount, nextAttemptAt));
    }

    /** `drainQueue`: unless a drain is running or the client is offline,
        take the next ready batch until none is left; upload it; delete it
        on success, when it can never succeed, or when its eleventh attempt
        failed; otherwise write back one more retry and the next attempt
        time. Every batch due at the start is handled exactly once, each
        in its own place, and nothing is due at `now` afterwards. */
    method DrainQueue(queue: BatchStore, online: bool, now: int,
                      reply: BatchRecord -> HttpReply, jitter: BatchRecord -> real)
      requires queue.Valid()
      requires forall b :: 0.0 <= jitter(b) < 1000.0
      modifies this, queue`batches
      ensures queue.Valid() && drainingQueue == old(drainingQueue)
      ensures old(drainingQueue) || !online ==> queue.batches == old(queue.batches)
      ensures !old(drainingQueue) && online ==>
        queue.batches == Settle(old(queue.batches), ReadyIds(old(queue.batches), now), Step(reply, jitter, now))
      ensures !old(drainingQueue) && online ==> forall b :: b in queue.batches ==> !ReadyAt(b, now)
    {
      if drainingQueue || !online {
        return;
      }
      drainingQueue := true;
      ghost var start := queue.batches;
      ghost var done: set<nat> := {};
      var step := Step(reply, jitter, now);
      SettleNothingDone(start, step);
      StepPostpones(reply, jitter, now);
      while true
        invariant queue.Valid() && drainingQueue
        invariant done <= ReadyIds(start, now)
        invariant queue.batches == Settle(start, done, step)
        decreases |ReadyIds(start, now) - done|
      {
        var next := queue.GetNextReadyBatch(now);
        if next.None? {
          AllDueHandled(start, done, step, now);
          break;
        }
        var batch := next.value;
        Advance(start, done, step, now, batch);
        var decision := UploadOne(queue, batch, now, reply, jitter);
        assert decision == step(batch);
        done := done + {batch.id};
      }
      drainingQueue := false;
    }
  }
}
