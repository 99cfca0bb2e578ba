/**
 Task and batch rows, and the effect of every operation on them and on the queue, as functions
 of the old store. The classes in TaskService.dfy are proved to compute these functions; the
 runs in TaskRuns.dfy are made of them.
 */
module TaskEffects {
  import opened Prelude
  import opened TaskQueues
  import opened BatchTotals

  type BatchId = nat

  datatype Status = Queued | Assigned | Running | Completed | Failed | Timeout | Cancelled

  datatype Task = Task(
    org: OrgId, device: DeviceId, version: nat, priority: int, batch: Option<BatchId>, timeout: Time,
    status: Status, createdAt: Time, updatedAt: Time, startedAt: Option<Time>)
  {
    function With(status: Status, now: Time): Task {
      this.(status := status, updatedAt := now)
    }

    function Start(now: Time): Task {
      this.(status := Status.Running, updatedAt := now, startedAt := Some(now))
    }

    predicate Pending() { status == Status.Queued || status == Status.Assigned }

    predicate Open() { Pending() || status == Status.Running }

    /** The statuses a late agent result must not overwrite. */
    predicate Final() { status == Status.Cancelled || status == Status.Completed || status == Status.Failed }
  }

  type Tasks = map<TaskId, Task>
  type Batches = map<BatchId, Batch>

  datatype Store = Store(tasks: Tasks, batches: Batches, zset: Zset, locks: Locks)

  const STALE_BUFFER: Time := 300.0
  const QUEUED_LIMIT: Time := 3600.0
  const DAY: Time := 86400.0

  datatype Reply = Ok | NotFound | BadRequest | Conflict

  // ── create ──

  /**
   What a call of `create_task` finds out from the database and the status cache: whether the
   script exists and which version it points to, whether the device is active in the
   organisation, and, when the service has a status cache, whether the device is online or busy.
   `duplicate` is the row the unordered LIMIT 1 query returned.
   */
  datatype Request = Request(
    task: TaskId, device: DeviceId, org: OrgId, priority: int, timeout: Time, batch: Option<BatchId>,
    scriptFound: bool, version: Option<nat>, deviceFound: bool, online: Option<bool>,
    duplicate: Option<TaskId>)

  predicate IsDuplicate(tasks: Tasks, task: TaskId, device: DeviceId, org: OrgId, version: nat) {
    && task in tasks && tasks[task].Open()
    && tasks[task].device == device && tasks[task].org == org && tasks[task].version == version
  }

  /** The duplicate query, if it is made at all, returns some matching row if there is one. */
  ghost predicate DuplicateChosen(tasks: Tasks, r: Request) {
    r.scriptFound && r.version.Some? && r.deviceFound ==>
      match r.duplicate
      case Some(d) => IsDuplicate(tasks, d, r.device, r.org, r.version.value)
      case None => forall d | d in tasks :: !IsDuplicate(tasks, d, r.device, r.org, r.version.value)
  }

  /** A duplicate gives way when its device is off line, or after 24 hours without an update. */
  predicate GivesWay(duplicate: Task, online: Option<bool>, now: Time) {
    online == Some(false) || duplicate.updatedAt < now - DAY
  }

  function NewTask(r: Request, now: Time): Task
    requires r.version.Some?
  {
    Task(r.org, r.device, r.version.value, r.priority, r.batch, r.timeout, Status.Queued, now, now, None)
  }

  function Inserted(st: Store, r: Request, now: Time): Store
    requires r.version.Some?
  {
    st.(tasks := st.tasks[r.task := NewTask(r, now)],
        zset := st.zset[Slot(r.org, r.device, r.task) := Score(r.priority, now)])
  }

  function Created(st: Store, r: Request, now: Time): (Store, Reply)
    requires r.duplicate.Some? ==> r.duplicate.value in st.tasks
  {
    if !r.scriptFound then (st, NotFound)
    else if r.version.None? then (st, BadRequest)
    else if !r.deviceFound then (st, NotFound)
    else match r.duplicate
      case None => (Inserted(st, r, now), Ok)
      case Some(d) =>
        if GivesWay(st.tasks[d], r.online, now) then
          (Inserted(st.(tasks := st.tasks[d := st.tasks[d].With(Status.Timeout, now)]), r, now), Ok)
        else (st, Conflict)
  }

  // ── dispatch ──

  ghost function Popped(st: Store, org: OrgId, device: DeviceId, now: Time): (Store, Option<TaskId>) {
    var (zset, locks, task) := Dequeued(st.zset, st.locks, org, device, now);
    (st.(zset := zset, locks := locks), task)
  }

  /** How the dispatch of a popped task ends. */
  datatype Outcome = NoVersion | Delivered | NotDelivered | Raised

  function Dispatched(st: Store, task: TaskId, org: OrgId, device: DeviceId, outcome: Outcome, now: Time): Store {
    if task !in st.tasks then st
    else
      var row := st.tasks[task];
      if row.device != device then st.(locks := st.locks - {device})
      else match outcome
        case NoVersion => st.(tasks := st.tasks[task := row.With(Status.Failed, now)])
        case Delivered => st.(tasks := st.tasks[task := row.Start(now)])
        case NotDelivered =>
          st.(locks := st.locks - {device},
              zset := st.zset[Slot(org, device, task) := Score(row.priority, now)])
        case Raised => st
  }

  // ── agent result ──

  function Answered(st: Store, task: TaskId, device: DeviceId, success: bool, now: Time): Store {
    if task !in st.tasks then st
    else
      var row := st.tasks[task];
      var locks := Released(st.locks, device, task, now);
      if row.Final() then
        st.(tasks := st.tasks[task := row.With(row.status, now)], locks := locks)
      else
        var tasks := st.tasks[task := row.With(if success then Status.Completed else Status.Failed, now)];
        st.(tasks := tasks, locks := locks, batches := Counted(st.batches, row.batch, success))
  }

  function Counted(batches: Batches, batch: Option<BatchId>, success: bool): Batches {
    if batch.Some? && batch.value in batches
    then batches[batch.value := Reported(batches[batch.value], success)]
    else batches
  }

  // ── cancel, force stop, cancel batch ──

  function Unqueued(st: Store, task: TaskId, org: OrgId, now: Time): Store
    requires task in st.tasks
  {
    st.(tasks := st.tasks[task := st.tasks[task].With(Status.Cancelled, now)],
        zset := st.zset - {Slot(org, st.tasks[task].device, task)})
  }

  function CancelledTask(st: Store, task: TaskId, org: OrgId, now: Time): (Store, Reply) {
    if task !in st.tasks || st.tasks[task].org != org then (st, NotFound)
    else if !st.tasks[task].Pending() then (st, Conflict)
    else (Unqueued(st, task, org, now), Ok)
  }

  function Stopped(st: Store, task: TaskId, org: OrgId, now: Time): (Store, Reply) {
    if task !in st.tasks || st.tasks[task].org != org then (st, NotFound)
    else if !st.tasks[task].Open() then (st, Conflict)
    else if st.tasks[task].Pending() then (Unqueued(st, task, org, now), Ok)
    else
      (st.(tasks := st.tasks[task := st.tasks[task].With(Status.Cancelled, now)],
           locks := st.locks - {st.tasks[task].device}), Ok)
  }

  function PendingOf(tasks: Tasks, batch: BatchId): set<TaskId> {
    set t | t in tasks && tasks[t].batch == Some(batch) && tasks[t].Pending()
  }

  function CancelledBatch(st: Store, batch: BatchId, org: OrgId, now: Time): (Store, Reply) {
    if batch !in st.batches || st.batches[batch].org != org then (st, NotFound)
    else if st.batches[batch].status == BatchStatus.Completed || st.batches[batch].status == BatchStatus.Cancelled then
      (st, Conflict)
    else
      var gone := PendingOf(st.tasks, batch);
      (Store(Marked(st.tasks, gone, Status.Cancelled, now),
             st.batches[batch := st.batches[batch].(status := BatchStatus.Cancelled)],
             st.zset - SlotsOf(st.tasks, gone, org),
             st.locks), Ok)
  }

  /** The same status written to several rows at one instant. */
  function Marked(tasks: Tasks, some: set<TaskId>, status: Status, now: Time): Tasks {
    map t | t in tasks :: if t in some then tasks[t].With(status, now) else tasks[t]
  }

  /** Queue slots of some rows, with the organisation given by the caller. */
  function SlotsOf(tasks: Tasks, some: set<TaskId>, org: OrgId): set<Slot> {
    set t | t in some && t in tasks :: Slot(org, tasks[t].device, t)
  }

  // ── watchdog ──

  predicate StaleRunning(row: Task, now: Time) {
    row.status == Status.Running && row.startedAt.Some? && now >= row.startedAt.value + (row.timeout + STALE_BUFFER)
  }

  predicate StalePending(row: Task, now: Time) {
    row.Pending() && row.createdAt < now - QUEUED_LIMIT
  }

  function StaleRunnings(tasks: Tasks, now: Time): set<TaskId> {
    set t | t in tasks && StaleRunning(tasks[t], now)
  }

  function StalePendings(tasks: Tasks, now: Time): set<TaskId> {
    set t | t in tasks && StalePending(tasks[t], now)
  }

  function Stale(tasks: Tasks, now: Time): set<TaskId> {
    StaleRunnings(tasks, now) + StalePendings(tasks, now)
  }

  function InBatch(tasks: Tasks, some: set<TaskId>, batch: BatchId): set<TaskId> {
    set t | t in some && t in tasks && tasks[t].batch == Some(batch)
  }

  function TalliedBatches(tasks: Tasks, batches: Batches, gone: set<TaskId>): Batches {
    map b | b in batches ::
      if InBatch(tasks, gone, b) == {} then batches[b] else TimedOut(batches[b], |InBatch(tasks, gone, b)|)
  }

  function DevicesOf(tasks: Tasks, some: set<TaskId>): set<DeviceId> {
    set t | t in some && t in tasks :: tasks[t].device
  }

  /** Slots with the organisation of the row itself. */
  function OwnSlots(tasks: Tasks, some: set<TaskId>): set<Slot> {
    set t | t in some && t in tasks :: Slot(tasks[t].org, tasks[t].device, t)
  }

  /** One watchdog cycle: expire, count into batches, then free the locks and the queue slots. */
  function Swept(st: Store, now: Time): Store {
    var gone := Stale(st.tasks, now);
    Store(Marked(st.tasks, gone, Status.Timeout, now),
          TalliedBatches(st.tasks, st.batches, gone),
          st.zset - OwnSlots(st.tasks, StalePendings(st.tasks, now)),
          st.locks - DevicesOf(st.tasks, StaleRunnings(st.tasks, now)))
  }

  // ── batches ──

  function Launched(st: Store, batch: BatchId, org: OrgId, total: nat): Store {
    st.(batches := st.batches[batch := Batch(org, BatchStatus.Running, total, 0, 0)])
  }

  /** The end of `_execute_waves` writes COMPLETED whatever the counters say. */
  function LaunchFinished(st: Store, batch: BatchId): Store {
    if batch in st.batches
    then st.(batches := st.batches[batch := st.batches[batch].(status := BatchStatus.Completed)])
    else st
  }
}
