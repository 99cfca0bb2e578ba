/**
 The services as classes over one database and one queue. Every method is proved to leave the
 store that the corresponding function of TaskEffects.dfy describes.
 */
module TaskServices {
  import opened Prelude
  import opened TaskQueues
  import opened BatchTotals
  import opened TaskEffects

  class Database {
    var tasks: Tasks
    var batches: Batches

    constructor ()
      ensures tasks == map[] && batches == map[]
    {
      tasks, batches := map[], map[];
    }
  }

  ghost function Contents(db: Database, queue: TaskQueue): Store
    reads db, queue
  {
    Store(db.tasks, db.batches, queue.zset, queue.locks)
  }

  /** One device of a dispatcher cycle, with what the outside world answers for it. */
  datatype Turn = Turn(
    device: DeviceId, online: bool, org: Option<OrgId>, outcome: Outcome, poppedAt: Time, endedAt: Time)

  /** The effect of one turn; `org` is absent when the device row is missing or inactive. */
  ghost function Turned(st: Store, turn: Turn): Store {
    if !turn.online || turn.org.None? then st
    else
      var (popped, task) := Popped(st, turn.org.value, turn.device, turn.poppedAt);
      if task.None? then popped
      else Dispatched(popped, task.value, turn.org.value, turn.device, turn.outcome, turn.endedAt)
  }

  ghost function TurnedAll(st: Store, turns: seq<Turn>): Store {
    if turns == [] then st else Turned(TurnedAll(st, turns[..|turns| - 1]), turns[|turns| - 1])
  }

  class TaskService {
    const db: Database
    const queue: TaskQueue

    constructor (db: Database, queue: TaskQueue)
      ensures this.db == db && this.queue == queue
    {
      this.db, this.queue := db, queue;
    }

    /** The request's own `duplicate` is ignored: the query inside picks one. */
    method CreateTask(r: Request, now: Time) returns (reply: Reply, duplicate: Option<TaskId>)
      modifies db, queue
      ensures DuplicateChosen(old(db.tasks), r.(duplicate := duplicate))
      ensures duplicate.Some? ==> duplicate.value in old(db.tasks)
      ensures (Contents(db, queue), reply) == Created(old(Contents(db, queue)), r.(duplicate := duplicate), now)
    {
      duplicate := None;
      if !r.scriptFound {
        return NotFound, None;
      }
      if r.version.None? {
        return BadRequest, None;
      }
      if !r.deviceFound {
        return NotFound, None;
      }
      var matches := set t | t in db.tasks && IsDuplicate(db.tasks, t, r.device, r.org, r.version.value);
      if matches != {} {
        var d :| d in matches;
        duplicate := Some(d);
        if GivesWay(db.tasks[d], r.online, now) {
          db.tasks := db.tasks[d := db.tasks[d].With(Status.Timeout, now)];
        } else {
          return Conflict, duplicate;
        }
      } else {
        assert forall d | d in db.tasks :: d !in matches;
      }
      db.tasks := db.tasks[r.task := NewTask(r, now)];
      queue.Enqueue(r.task, r.device, r.org, r.priority, now);
      reply := Ok;
    }

    method FinishDispatch(task: TaskId, org: OrgId, device: DeviceId, outcome: Outcome, now: Time)
      modifies db, queue
      ensures Contents(db, queue) == Dispatched(old(Contents(db, queue)), task, org, device, outcome, now)
      ensures outcome.NotDelivered? && task in db.tasks && db.tasks[task].device == device ==>
                && device !in queue.locks && Slot(org, device, task) in queue.zset
                && queue.zset[Slot(org, device, task)] == db.tasks[task].priority as real * 1000000000000.0 + now
    {
      if task !in db.tasks {
        return;
      }
      var row := db.tasks[task];
      if row.device != device {
        queue.MarkCompleted(task, device);
        return;
      }
      match outcome {
        case NoVersion =>
          db.tasks := db.tasks[task := row.With(Status.Failed, now)];
        case Delivered =>
          db.tasks := db.tasks[task := row.Start(now)];
        case NotDelivered =>
          queue.MarkCompleted(task, device);
          queue.Enqueue(task, device, org, row.priority, now);
        case Raised =>
      }
    }

    /** One dispatcher cycle over all tracked devices. */
    method DispatchPendingTasks(turns: seq<Turn>)
      modifies db, queue
      ensures Contents(db, queue) == TurnedAll(old(Contents(db, queue)), turns)
    {
      for i := 0 to |turns|
        invariant Contents(db, queue) == TurnedAll(old(Contents(db, queue)), turns[..i])
      {
        var turn := turns[i];
        assert turns[..i + 1][..i] == turns[..i];
        if !turn.online || turn.org.None? {
          continue;
        }
        var task := queue.DequeueForDevice(turn.device, turn.org.value, turn.poppedAt);
        if task.None? {
          continue;
        }
        FinishDispatch(task.value, turn.org.value, turn.device, turn.outcome, turn.endedAt);
      }
      assert turns[..|turns|] == turns;
    }

    method SafeMarkCompleted(task: TaskId, device: DeviceId, now: Time)
      modifies queue`locks, queue`meta
      ensures queue.locks == Released(old(queue.locks), device, task, now)
    {
      if device in queue.locks && now < queue.locks[device].expires {
        if queue.locks[device].owner == task {
          queue.MarkCompleted(task, device);
        }
      }
    }

    method AggregateBatch(b: BatchId, success: bool)
      modifies db`batches
      ensures db.batches == Counted(old(db.batches), Some(b), success)
      ensures b in db.batches ==> Decided(db.batches[b])
    {
      if b !in db.batches {
        return;
      }
      var batch := db.batches[b];
      if success {
        batch := batch.(succeeded := batch.succeeded + 1);
      } else {
        batch := batch.(failed := batch.failed + 1);
      }
      if batch.succeeded + batch.failed >= batch.total {
        if batch.failed == 0 {
          batch := batch.(status := BatchStatus.Completed);
        } else if batch.succeeded == 0 {
          batch := batch.(status := BatchStatus.Failed);
        } else {
          batch := batch.(status := Partial);
        }
      } else if batch.status == Pending {
        batch := batch.(status := BatchStatus.Running);
      }
      db.batches := db.batches[b := batch];
    }

    method HandleTaskResult(task: TaskId, device: DeviceId, success: bool, now: Time)
      modifies db, queue
      ensures Contents(db, queue) == Answered(old(Contents(db, queue)), task, device, success, now)
    {
      if task !in db.tasks {
        return;
      }
      var row := db.tasks[task];
      if row.Final() {
        db.tasks := db.tasks[task := row.With(row.status, now)];
        SafeMarkCompleted(task, device, now);
        return;
      }
      db.tasks := db.tasks[task := row.With(if success then Status.Completed else Status.Failed, now)];
      SafeMarkCompleted(task, device, now);
      if row.batch.Some? {
        AggregateBatch(row.batch.value, success);
      }
    }

    method CancelTask(task: TaskId, org: OrgId, now: Time) returns (reply: Reply)
      modifies db, queue
      ensures (Contents(db, queue), reply) == CancelledTask(old(Contents(db, queue)), task, org, now)
      ensures reply.Ok? ==>
                && task in db.tasks && db.tasks[task].status == Status.Cancelled
                && Slot(org, db.tasks[task].device, task) !in queue.zset
    {
      if task !in db.tasks || db.tasks[task].org != org {
        return NotFound;
      }
      var row := db.tasks[task];
      if !row.Pending() {
        return Conflict;
      }
      var removed := queue.CancelTask(task, org, Some(row.device));
      db.tasks := db.tasks[task := row.With(Status.Cancelled, now)];
      reply := Ok;
    }

    method ForceStopTask(task: TaskId, org: OrgId, now: Time) returns (reply: Reply)
      modifies db, queue
      ensures (Contents(db, queue), reply) == Stopped(old(Contents(db, queue)), task, org, now)
    {
      if task !in db.tasks || db.tasks[task].org != org {
        return NotFound;
      }
      var row := db.tasks[task];
      if row.status != Status.Running && !row.Pending() {
        return Conflict;
      }
      if row.Pending() {
        var removed := queue.CancelTask(task, org, Some(row.device));
        db.tasks := db.tasks[task := row.With(Status.Cancelled, now)];
        return Ok;
      }
      queue.MarkCompleted(task, row.device);
      db.tasks := db.tasks[task := row.With(Status.Cancelled, now)];
      reply := Ok;
    }
  }

  /** One call of the launcher: the request and the time it is made. */
  datatype Call = Call(request: Request, at: Time)

  /** The store after some calls of `create_task`, successful or not. */
  function CreatedAll(st: Store, calls: seq<Call>): Store {
    if calls == [] then st
    else
      var before, last := CreatedAll(st, calls[..|calls| - 1]), calls[|calls| - 1];
      if Possible(before, last) then Created(before, last.request, last.at).0 else before
  }

  /** The duplicate which the call reports is a row. */
  predicate Possible(st: Store, call: Call) {
    call.request.duplicate.Some? ==> call.request.duplicate.value in st.tasks
  }

  /** The call reports a duplicate that its query may have returned. */
  ghost predicate TruthfulCall(st: Store, call: Call) {
    Possible(st, call) && DuplicateChosen(st.tasks, call.request)
  }

  ghost predicate Truthful(st: Store, calls: seq<Call>) {
    forall k | 0 <= k < |calls| :: TruthfulCall(CreatedAll(st, calls[..k]), calls[k])
  }

  /** The calls that were made are those that were asked for, with the duplicates found. */
  predicate Made(asked: seq<Call>, made: seq<Call>) {
    && |made| == |asked|
    && forall k | 0 <= k < |made| :: SameCall(asked[k], made[k])
  }

  predicate SameCall(asked: Call, made: Call) {
    made == asked.(request := asked.request.(duplicate := made.request.duplicate))
  }

  lemma {:induction false} CreatedAppend(st: Store, first: seq<Call>, second: seq<Call>)
    ensures CreatedAll(st, first + second) == CreatedAll(CreatedAll(st, first), second)
  {
    if second == [] {
      assert first + second == first;
    } else {
      var front := second[..|second| - 1];
      assert (first + second)[..|first + second| - 1] == first + front;
      CreatedAppend(st, first, front);
    }
  }

  lemma TruthfulAt(st: Store, calls: seq<Call>, k: nat)
    requires Truthful(st, calls) && k < |calls|
    ensures TruthfulCall(CreatedAll(st, calls[..k]), calls[k])
  {
    hide CreatedAll, TruthfulCall;
  }

  lemma PrefixOfAppend(first: seq<Call>, second: seq<Call>, k: nat)
    requires k < |first|
    ensures (first + second)[..k] == first[..k] && (first + second)[k] == first[k]
  {
  }

  lemma RestOfAppend(first: seq<Call>, second: seq<Call>, m: nat)
    requires m < |second|
    ensures (first + second)[..|first| + m] == first + second[..m] && (first + second)[|first| + m] == second[m]
  {
  }

  lemma TruthfulAppendAt(st: Store, first: seq<Call>, second: seq<Call>, k: nat)
    requires Truthful(st, first) && Truthful(CreatedAll(st, first), second) && k < |first + second|
    ensures TruthfulCall(CreatedAll(st, (first + second)[..k]), (first + second)[k])
  {
    hide *;
    if k < |first| {
      PrefixOfAppend(first, second, k);
      TruthfulAt(st, first, k);
    } else {
      var m := k - |first|;
      RestOfAppend(first, second, m);
      CreatedAppend(st, first, second[..m]);
      TruthfulAt(CreatedAll(st, first), second, m);
    }
  }

  lemma TruthfulAppend(st: Store, first: seq<Call>, second: seq<Call>)
    requires Truthful(st, first) && Truthful(CreatedAll(st, first), second)
    ensures Truthful(st, first + second)
  {
    hide *;
    forall k: nat | k < |first + second|
      ensures TruthfulCall(CreatedAll(st, (first + second)[..k]), (first + second)[k])
    {
      TruthfulAppendAt(st, first, second, k);
    }
    TruthfulEverywhere(st, first + second);
  }

  lemma TruthfulEverywhere(st: Store, calls: seq<Call>)
    requires forall k: nat | k < |calls| :: TruthfulCall(CreatedAll(st, calls[..k]), calls[k])
    ensures Truthful(st, calls)
  {
    hide CreatedAll, TruthfulCall;
  }

  /** Every new row was asked for by one of the calls, and is for its device, organisation and batch. */
  lemma {:induction false} NewRowsWereAskedFor(st: Store, calls: seq<Call>, t: TaskId) returns (k: nat)
    requires t in CreatedAll(st, calls).tasks && t !in st.tasks
    ensures k < |calls| && calls[k].request.task == t
    ensures var row, r := CreatedAll(st, calls).tasks[t], calls[k].request;
            && row.device == r.device && row.org == r.org && row.batch == r.batch
            && r.version == Some(row.version) && row.priority == r.priority && row.timeout == r.timeout
    decreases |calls|
  {
    var last := |calls| - 1;
    if t in CreatedAll(st, calls[..last]).tasks && t != calls[last].request.task {
      k := NewRowsWereAskedFor(st, calls[..last], t);
    } else if Possible(CreatedAll(st, calls[..last]), calls[last])
              && Created(CreatedAll(st, calls[..last]), calls[last].request, calls[last].at).1.Ok? {
      k := last;
    } else {
      k := NewRowsWereAskedFor(st, calls[..last], t);
    }
  }

  /** No old row disappears. */
  lemma {:induction false} OldRowsStay(st: Store, calls: seq<Call>)
    ensures st.tasks.Keys <= CreatedAll(st, calls).tasks.Keys
    ensures CreatedAll(st, calls).batches == st.batches
  {
    if calls == [] {
    } else {
      OldRowsStay(st, calls[..|calls| - 1]);
    }
  }

  ghost function Flat(waves: seq<seq<Call>>): seq<Call> {
    if waves == [] then [] else Flat(waves[..|waves| - 1]) + waves[|waves| - 1]
  }

  ghost function Requested(calls: seq<Call>): set<TaskId> {
    set call | call in calls :: call.request.task
  }

  /** Every call asks for a task id of its own. */
  ghost predicate Distinct(calls: seq<Call>) {
    forall i, k | 0 <= i < k < |calls| :: calls[i].request.task != calls[k].request.task
  }

  /** The calls of the first waves and of the next one are a prefix of all calls. */
  lemma {:induction false} FlatNext(waves: seq<seq<Call>>, i: nat)
    requires i < |waves|
    ensures Flat(waves[..i + 1]) == Flat(waves[..i]) + waves[i] && Flat(waves[..i + 1]) <= Flat(waves)
    decreases |waves|
  {
    assert waves[..i + 1][..i] == waves[..i];
    if i + 1 == |waves| {
      assert waves[..i + 1] == waves;
    } else {
      var front := waves[..|waves| - 1];
      FlatNext(front, i);
      assert front[..i + 1] == waves[..i + 1];
    }
  }

  lemma WaveIsNew(all: seq<Call>, before: seq<Call>, wave: seq<Call>)
    requires Distinct(all) && before + wave <= all
    ensures Distinct(wave)
    ensures Requested(wave) <= Requested(all) && Requested(before + wave) == Requested(before) + Requested(wave)
    ensures Requested(before) !! Requested(wave)
  {
    assert forall k | 0 <= k < |wave| :: wave[k] == (before + wave)[|before| + k] == all[|before| + k];
    assert forall k | 0 <= k < |before| :: before[k] == (before + wave)[k] == all[k];
    assert forall x :: x in before + wave <==> x in before || x in wave;
  }

  lemma NextCall(wave: seq<Call>, k: nat)
    requires Distinct(wave) && k < |wave|
    ensures wave[k].request.task in Requested(wave) && wave[k].request.task !in Requested(wave[..k])
    ensures Requested(wave[..k + 1]) == Requested(wave[..k]) + {wave[k].request.task}
  {
    assert wave[..k + 1] == wave[..k] + [wave[k]];
    assert forall x :: x in wave[..k] + [wave[k]] <==> x in wave[..k] || x == wave[k];
    assert wave[k] in wave && wave[k] in wave[..k + 1];
  }

  /**
   What some calls of the launcher have done to the store: they were made as asked, each with a
   possible answer of its duplicate query, and every one became a row or was counted as failed.
   */
  ghost predicate Progress(before: Store, after: Store, asked: seq<Call>, made: seq<Call>, failed: nat) {
    && Made(asked, made) && Truthful(before, made) && after == CreatedAll(before, made)
    && after.tasks.Keys <= before.tasks.Keys + Requested(asked)
    && |after.tasks.Keys| + failed == |before.tasks.Keys| + |asked|
  }

  lemma NoProgress(st: Store)
    ensures Progress(st, st, [], [], 0)
    ensures forall asked: seq<Call> :: asked[..0] == []
    ensures forall waves: seq<seq<Call>> :: Flat(waves[..0]) == []
  {
  }

  lemma ProgressOn(before: Store, mid: Store, after: Store,
                   asked1: seq<Call>, made1: seq<Call>, failed1: nat,
                   asked2: seq<Call>, made2: seq<Call>, failed2: nat)
    requires Progress(before, mid, asked1, made1, failed1) && Progress(mid, after, asked2, made2, failed2)
    ensures Progress(before, after, asked1 + asked2, made1 + made2, failed1 + failed2)
  {
    hide Made, Truthful, CreatedAll, Requested;
    MadeAppend(asked1, made1, asked2, made2);
    TruthfulAppend(before, made1, made2);
    CreatedAppend(before, made1, made2);
    RequestedAppend(asked1, asked2);
  }

  lemma MadeAppend(asked1: seq<Call>, made1: seq<Call>, asked2: seq<Call>, made2: seq<Call>)
    requires Made(asked1, made1) && Made(asked2, made2)
    ensures Made(asked1 + asked2, made1 + made2)
  {
    hide SameCall;
    var asked, made := asked1 + asked2, made1 + made2;
    forall k | 0 <= k < |made| ensures SameCall(asked[k], made[k]) {
      if k < |made1| {
        assert SameCall(asked1[k], made1[k]);
      } else {
        assert SameCall(asked2[k - |made1|], made2[k - |made1|]);
      }
    }
  }

  lemma RequestedAppend(first: seq<Call>, second: seq<Call>)
    ensures Requested(first + second) == Requested(first) + Requested(second)
  {
    assert forall x :: x in first + second <==> x in first || x in second;
  }

  /** The next wave asks for rows that do not exist yet. */
  lemma StillNew(before: Store, mid: Store, asked: seq<Call>, made: seq<Call>, failed: nat, wave: seq<Call>)
    requires Progress(before, mid, asked, made, failed)
    requires Requested(wave) !! before.tasks.Keys && Requested(wave) !! Requested(asked)
    ensures Requested(wave) !! mid.tasks.Keys
  {
    hide Requested, Truthful, CreatedAll;
  }

  lemma StillUnasked(before: Store, mid: Store, asked: seq<Call>, made: seq<Call>, failed: nat, call: Call)
    requires Progress(before, mid, asked, made, failed)
    requires call.request.task !in before.tasks && call.request.task !in Requested(asked)
    ensures call.request.task !in mid.tasks
  {
    hide Requested, Truthful, CreatedAll;
  }

  class BatchService {
    const db: Database
    const queue: TaskQueue

    constructor (db: Database, queue: TaskQueue)
      ensures this.db == db && this.queue == queue
    {
      this.db, this.queue := db, queue;
    }

    method StartBatch(b: BatchId, org: OrgId, devices: seq<DeviceId>)
      modifies db`batches
      ensures Contents(db, queue) == Launched(old(Contents(db, queue)), b, org, |devices|)
    {
      db.batches := db.batches[b := Batch(org, BatchStatus.Running, |devices|, 0, 0)];
    }

    /** One call of `create_task`, whose exceptions the launcher swallows. */
    method TryCreate(tasks: TaskService, call: Call) returns (ok: bool, ghost made: Call)
      requires tasks.db == db && tasks.queue == queue && call.request.task !in db.tasks
      modifies db, queue
      ensures Progress(old(Contents(db, queue)), Contents(db, queue), [call], [made], if ok then 0 else 1)
    {
      ghost var keys := db.tasks.Keys;
      var reply, duplicate := tasks.CreateTask(call.request, call.at);
      ok := reply.Ok?;
      made := call.(request := call.request.(duplicate := duplicate));
      assert [made][..0] == [] && call in [call];
      assert db.tasks.Keys == keys + (if ok then {call.request.task} else {});
    }

    /** One wave: a call per device, rejections counted. */
    method LaunchWave(tasks: TaskService, wave: seq<Call>) returns (failed: nat, ghost made: seq<Call>)
      requires tasks.db == db && tasks.queue == queue
      requires Distinct(wave) && Requested(wave) !! db.tasks.Keys
      modifies db, queue
      ensures Progress(old(Contents(db, queue)), Contents(db, queue), wave, made, failed)
    {
      hide Requested, Distinct, Progress, Created, DuplicateChosen;
      failed, made := 0, [];
      NoProgress(Contents(db, queue));
      for k := 0 to |wave|
        invariant Progress(old(Contents(db, queue)), Contents(db, queue), wave[..k], made, failed)
      {
        ghost var mid := Contents(db, queue);
        NextCall(wave, k);
        StillUnasked(old(Contents(db, queue)), mid, wave[..k], made, failed, wave[k]);
        var ok;
        ghost var one;
        ok, one := TryCreate(tasks, wave[k]);
        assert wave[..k + 1] == wave[..k] + [wave[k]];
        ProgressOn(old(Contents(db, queue)), mid, Contents(db, queue),
                   wave[..k], made, failed, [wave[k]], [one], if ok then 0 else 1);
        made := made + [one];
        failed := failed + if ok then 0 else 1;
      }
      assert wave[..|wave|] == wave;
    }

    /**
     The background launcher: every call either becomes a task or is counted as failed, and at the
     end the batch is COMPLETED whatever its tasks do.
     */
    method ExecuteWaves(tasks: TaskService, b: BatchId, waves: seq<seq<Call>>)
      returns (failed: nat, ghost made: seq<Call>, ghost done: Store)
      requires tasks.db == db && tasks.queue == queue
      requires Distinct(Flat(waves)) && Requested(Flat(waves)) !! db.tasks.Keys
      modifies db, queue
      ensures Progress(old(Contents(db, queue)), done, Flat(waves), made, failed)
      ensures Contents(db, queue) == LaunchFinished(done, b)
    {
      hide Requested, Distinct, Progress;
      failed, made := 0, [];
      NoProgress(Contents(db, queue));
      for i := 0 to |waves|
        invariant Progress(old(Contents(db, queue)), Contents(db, queue), Flat(waves[..i]), made, failed)
      {
        ghost var mid := Contents(db, queue);
        FlatNext(waves, i);
        WaveIsNew(Flat(waves), Flat(waves[..i]), waves[i]);
        StillNew(old(Contents(db, queue)), mid, Flat(waves[..i]), made, failed, waves[i]);
        var rejected;
        ghost var wave;
        rejected, wave := LaunchWave(tasks, waves[i]);
        ProgressOn(old(Contents(db, queue)), mid, Contents(db, queue),
                   Flat(waves[..i]), made, failed, waves[i], wave, rejected);
        made := made + wave;
        failed := failed + rejected;
      }
      assert waves[..|waves|] == waves;
      done := Contents(db, queue);
      if b in db.batches {
        db.batches := db.batches[b := db.batches[b].(status := BatchStatus.Completed)];
      }
    }

    /** Cancels every task of the batch that has not started. */
    method CancelBatch(b: BatchId, org: OrgId, now: Time) returns (reply: Reply)
      modifies db, queue
      ensures (Contents(db, queue), reply) == CancelledBatch(old(Contents(db, queue)), b, org, now)
    {
      if b !in db.batches || db.batches[b].org != org {
        return NotFound;
      }
      var batch := db.batches[b];
      if batch.status == BatchStatus.Completed || batch.status == BatchStatus.Cancelled {
        return Conflict;
      }
      var queued := PendingOf(db.tasks, b);
      var todo := queued;
      ghost var gone: set<TaskId> := {};
      assert Marked(db.tasks, {}, Status.Cancelled, now) == db.tasks;
      assert SlotsOf(db.tasks, {}, org) == {};
      while todo != {}
        invariant todo <= queued && gone == queued - todo
        invariant db.batches == old(db.batches) && queue.locks == old(queue.locks)
        invariant db.tasks == Marked(old(db.tasks), gone, Status.Cancelled, now)
        invariant queue.zset == old(queue.zset) - SlotsOf(old(db.tasks), gone, org)
        decreases todo
      {
        var t :| t in todo;
        var removed := queue.CancelTask(t, org, Some(db.tasks[t].device));
        db.tasks := db.tasks[t := db.tasks[t].With(Status.Cancelled, now)];
        SlotsOneMore(old(db.tasks), gone, org, t);
        todo, gone := todo - {t}, gone + {t};
      }
      assert gone == queued;
      db.batches := db.batches[b := batch.(status := BatchStatus.Cancelled)];
      reply := Ok;
    }
  }

  lemma SlotsOneMore(tasks: Tasks, some: set<TaskId>, org: OrgId, t: TaskId)
    requires t in tasks
    ensures SlotsOf(tasks, some + {t}, org) == SlotsOf(tasks, some, org) + {Slot(org, tasks[t].device, t)}
  {
  }
}
