/**
 The heartbeat watchdog (backend/tasks/task_heartbeat_watchdog.py): two passes over the rows,
 counting into batches, and after the commit the clean-up of locks and queues.
 */
module Watchdogs {
  import opened Prelude
  import opened TaskQueues
  import opened BatchTotals
  import opened TaskEffects
  import opened TaskServices

  /** An entry of the two lists of expired tasks. */
  datatype Entry = Entry(task: TaskId, device: DeviceId, org: OrgId)

  ghost function Ids(list: seq<Entry>): set<TaskId> {
    set e | e in list :: e.task
  }

  /** Each entry repeats the device and organisation of its row. */
  ghost predicate Faithful(tasks: Tasks, list: seq<Entry>) {
    forall e | e in list :: e.task in tasks && tasks[e.task].device == e.device && tasks[e.task].org == e.org
  }

  lemma IdsAppend(list: seq<Entry>, e: Entry)
    ensures Ids(list + [e]) == Ids(list) + {e.task}
  {
    assert forall x :: x in list + [e] <==> x in list || x == e;
    assert e in list + [e];
  }

  /** `counts` says how many of `some` belong to batch `b`, and has no entry if none does. */
  ghost predicate CountsOf(tasks: Tasks, counts: map<BatchId, nat>, some: set<TaskId>, b: BatchId) {
    && (b in counts <==> InBatch(tasks, some, b) != {})
    && (b in counts ==> counts[b] == |InBatch(tasks, some, b)|)
  }

  ghost predicate Counts(tasks: Tasks, counts: map<BatchId, nat>, some: set<TaskId>) {
    forall b: BatchId :: CountsOf(tasks, counts, some, b)
  }

  function Incremented(counts: map<BatchId, nat>, batch: Option<BatchId>): map<BatchId, nat> {
    if batch.None? then counts
    else counts[batch.value := (if batch.value in counts then counts[batch.value] else 0) + 1]
  }

  lemma CountOneMore(tasks: Tasks, counts: map<BatchId, nat>, some: set<TaskId>, t: TaskId, b: BatchId)
    requires t in tasks && t !in some && CountsOf(tasks, counts, some, b)
    ensures CountsOf(tasks, Incremented(counts, tasks[t].batch), some + {t}, b)
  {
    OneMoreInBatch(tasks, some, t, b);
    if tasks[t].batch == Some(b) {
      AddedSize(InBatch(tasks, some, b), t, InBatch(tasks, some + {t}, b));
    }
  }

  class Watchdog {
    const db: Database
    const queue: TaskQueue

    constructor (db: Database, queue: TaskQueue)
      ensures this.db == db && this.queue == queue
    {
      this.db, this.queue := db, queue;
    }

    /** Pass 1: RUNNING rows past their timeout and the buffer. */
    method ExpireRunning(now: Time) returns (expired: seq<Entry>)
      modifies db`tasks
      ensures db.tasks == Marked(old(db.tasks), StaleRunnings(old(db.tasks), now), Status.Timeout, now)
      ensures Ids(expired) == StaleRunnings(old(db.tasks), now) && Faithful(old(db.tasks), expired)
    {
      expired := [];
      var running := set t | t in db.tasks && db.tasks[t].status == Status.Running && db.tasks[t].startedAt.Some?;
      var todo := running;
      assert Marked(db.tasks, {}, Status.Timeout, now) == db.tasks;
      while todo != {}
        invariant todo <= running
        invariant Ids(expired) == StaleRunnings(old(db.tasks), now) - todo
        invariant Faithful(old(db.tasks), expired)
        invariant db.tasks == Marked(old(db.tasks), Ids(expired), Status.Timeout, now)
        decreases todo
      {
        var t :| t in todo;
        var row := db.tasks[t];
        todo := todo - {t};
        if now < row.startedAt.value + (row.timeout + STALE_BUFFER) {
          continue;
        }
        IdsAppend(expired, Entry(t, row.device, row.org));
        expired := expired + [Entry(t, row.device, row.org)];
        db.tasks := db.tasks[t := row.With(Status.Timeout, now)];
      }
    }

    /** Pass 2: rows that waited for more than an hour. */
    method ExpireQueued(now: Time) returns (expired: seq<Entry>)
      modifies db`tasks
      ensures db.tasks == Marked(old(db.tasks), StalePendings(old(db.tasks), now), Status.Timeout, now)
      ensures Ids(expired) == StalePendings(old(db.tasks), now) && Faithful(old(db.tasks), expired)
    {
      expired := [];
      var stale := StalePendings(db.tasks, now);
      var todo := stale;
      assert Marked(db.tasks, {}, Status.Timeout, now) == db.tasks;
      while todo != {}
        invariant todo <= stale
        invariant Ids(expired) == stale - todo && Faithful(old(db.tasks), expired)
        invariant db.tasks == Marked(old(db.tasks), Ids(expired), Status.Timeout, now)
        decreases todo
      {
        var t :| t in todo;
        var row := db.tasks[t];
        todo := todo - {t};
        IdsAppend(expired, Entry(t, row.device, row.org));
        expired := expired + [Entry(t, row.device, row.org)];
        db.tasks := db.tasks[t := row.With(Status.Timeout, now)];
      }
    }

    /** Counts the expired tasks of each batch. */
    method CountByBatch(timed: set<TaskId>) returns (counts: map<BatchId, nat>)
      requires timed <= db.tasks.Keys
      ensures Counts(db.tasks, counts, timed)
    {
      counts := map[];
      var todo := timed;
      while todo != {}
        invariant todo <= timed
        invariant Counts(db.tasks, counts, timed - todo)
        decreases todo
      {
        var t :| t in todo;
        ghost var done := timed - todo;
        todo := todo - {t};
        assert timed - todo == done + {t};
        forall b: BatchId ensures CountsOf(db.tasks, Incremented(counts, db.tasks[t].batch), done + {t}, b) {
          CountOneMore(db.tasks, counts, done, t, b);
        }
        counts := Incremented(counts, db.tasks[t].batch);
      }
      assert timed - todo == timed;
    }

    /** Adds the counts to the batches that exist. */
    method AggregateBatches(timed: set<TaskId>)
      requires timed <= db.tasks.Keys
      modifies db`batches
      ensures db.batches == TalliedBatches(db.tasks, old(db.batches), timed)
      ensures forall b | b in db.batches && InBatch(db.tasks, timed, b) != {} :: Decided(db.batches[b])
    {
      var counts := CountByBatch(timed);
      var todo := counts.Keys;
      while todo != {}
        invariant todo <= counts.Keys
        invariant db.batches.Keys == old(db.batches).Keys
        invariant forall b | b in db.batches :: db.batches[b] ==
                    if b in counts && b !in todo then TimedOut(old(db.batches)[b], counts[b]) else old(db.batches)[b]
        decreases todo
      {
        var b :| b in todo;
        todo := todo - {b};
        if b !in db.batches {
          continue;
        }
        var batch := db.batches[b].(failed := db.batches[b].failed + counts[b]);
        if batch.succeeded + batch.failed >= batch.total {
          if batch.failed == 0 {
            batch := batch.(status := BatchStatus.Completed);
          } else if batch.succeeded == 0 {
            batch := batch.(status := BatchStatus.Failed);
          } else {
            batch := batch.(status := Partial);
          }
        }
        db.batches := db.batches[b := batch];
      }
      forall b | b in db.batches
        ensures db.batches[b] == TalliedBatches(db.tasks, old(db.batches), timed)[b]
      {
        assert CountsOf(db.tasks, counts, timed, b);
      }
    }

    /** After the commit: free the locks of expired running tasks. */
    method ReleaseLocks(expired: seq<Entry>, ghost tasks: Tasks)
      requires Faithful(tasks, expired)
      modifies queue`locks, queue`meta
      ensures queue.locks == old(queue.locks) - DevicesOf(tasks, Ids(expired))
    {
      for i := 0 to |expired|
        invariant queue.locks == old(queue.locks) - DevicesOf(tasks, Ids(expired[..i]))
      {
        assert expired[..i + 1] == expired[..i] + [expired[i]];
        IdsAppend(expired[..i], expired[i]);
        assert expired[i] in expired;
        OneMoreDevice(tasks, Ids(expired[..i]), expired[i].task);
        queue.MarkCompleted(expired[i].task, expired[i].device);
      }
      assert expired[..|expired|] == expired;
    }

    /** After the commit: take expired queued tasks out of their queues. */
    method RemoveFromQueues(expired: seq<Entry>, ghost tasks: Tasks)
      requires Faithful(tasks, expired)
      modifies queue`zset, queue`meta
      ensures queue.zset == old(queue.zset) - OwnSlots(tasks, Ids(expired))
    {
      for i := 0 to |expired|
        invariant queue.zset == old(queue.zset) - OwnSlots(tasks, Ids(expired[..i]))
      {
        assert expired[..i + 1] == expired[..i] + [expired[i]];
        IdsAppend(expired[..i], expired[i]);
        assert expired[i] in expired;
        OneMoreSlot(tasks, Ids(expired[..i]), expired[i].task);
        var removed := queue.CancelTask(expired[i].task, expired[i].org, Some(expired[i].device));
      }
      assert expired[..|expired|] == expired;
    }

    /** One cycle. */
    method ExpireStaleTasks(now: Time)
      modifies db, queue
      ensures Contents(db, queue) == Swept(old(Contents(db, queue)), now)
    {
      ghost var before := db.tasks;
      var running := ExpireRunning(now);
      var queued := ExpireQueued(now);
      TwoPasses(before, now);
      var timed := (set e | e in running :: e.task) + (set e | e in queued :: e.task);
      assert timed == Stale(before, now);
      SameInBatch(before, db.tasks, timed);
      AggregateBatches(timed);
      ReleaseLocks(running, before);
      RemoveFromQueues(queued, before) by {
        assert Faithful(before, queued);
      }
    }
  }

  /** The second pass sees exactly the pending rows of the first: it only marked running ones. */
  lemma TwoPasses(tasks: Tasks, now: Time)
    ensures var mid := Marked(tasks, StaleRunnings(tasks, now), Status.Timeout, now);
            && StalePendings(mid, now) == StalePendings(tasks, now)
            && Marked(mid, StalePendings(mid, now), Status.Timeout, now)
               == Marked(tasks, Stale(tasks, now), Status.Timeout, now)
  {
  }

  lemma SameInBatch(tasks: Tasks, tasks': Tasks, some: set<TaskId>)
    requires tasks'.Keys == tasks.Keys && forall t | t in tasks :: tasks'[t].batch == tasks[t].batch
    ensures forall batches :: TalliedBatches(tasks', batches, some) == TalliedBatches(tasks, batches, some)
  {
    assert forall b :: InBatch(tasks', some, b) == InBatch(tasks, some, b);
  }

  lemma OneMoreInBatch(tasks: Tasks, some: set<TaskId>, t: TaskId, b: BatchId)
    requires t in tasks
    ensures InBatch(tasks, some + {t}, b) == InBatch(tasks, some, b) + (if tasks[t].batch == Some(b) then {t} else {})
  {
  }

  lemma OneMoreDevice(tasks: Tasks, some: set<TaskId>, t: TaskId)
    requires t in tasks
    ensures DevicesOf(tasks, some + {t}) == DevicesOf(tasks, some) + {tasks[t].device}
  {
  }

  lemma OneMoreSlot(tasks: Tasks, some: set<TaskId>, t: TaskId)
    requires t in tasks
    ensures OwnSlots(tasks, some + {t}) == OwnSlots(tasks, some) + {Slot(tasks[t].org, tasks[t].device, t)}
  {
  }
}
