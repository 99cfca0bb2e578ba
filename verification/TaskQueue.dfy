/**
 The Redis side of task dispatch (backend/services/task_queue.py): one sorted set per
 (organisation, device), and one running lock with an expiry per device.

 All sorted sets are kept in one map from slots to scores; a slot names its organisation, its
 device and the member. A Redis sorted set without members does not exist, so the map says
 exactly which sets exist and what they hold.
 */
module TaskQueues {
  import opened Prelude

  type TaskId = nat
  type DeviceId = nat
  type OrgId = nat
  type Time = real

  datatype Slot = Slot(org: OrgId, device: DeviceId, task: TaskId)
  type Zset = map<Slot, real>

  /** A running lock is live strictly before `expires`; afterwards Redis reports no key. */
  datatype Lock = Lock(owner: TaskId, expires: Time)
  type Locks = map<DeviceId, Lock>

  const LOCK_TTL: Time := 3600.0
  const PRIORITY_STEP: real := 1000000000000.0

  function Score(priority: int, time: Time): real {
    priority as real * PRIORITY_STEP + time
  }

  /** Order of ZPOPMIN: by score, equal scores by member. */
  predicate Before(score1: real, task1: TaskId, score2: real, task2: TaskId) {
    score1 < score2 || (score1 == score2 && task1 < task2)
  }

  predicate Live(locks: Locks, device: DeviceId, now: Time) {
    device in locks && now < locks[device].expires
  }

  ghost function Members(z: Zset, org: OrgId, device: DeviceId): set<TaskId> {
    set slot | slot in z && slot.org == org && slot.device == device :: slot.task
  }

  /** `task` is the member that ZPOPMIN on the device's sorted set returns. */
  ghost predicate IsFirst(z: Zset, org: OrgId, device: DeviceId, task: TaskId) {
    && Slot(org, device, task) in z
    && forall other | other in Members(z, org, device) && other != task ::
         Before(z[Slot(org, device, task)], task, z[Slot(org, device, other)], other)
  }

  ghost function First(z: Zset, org: OrgId, device: DeviceId): (first: Option<TaskId>)
    ensures first.Some? ==> IsFirst(z, org, device, first.value)
    ensures first.None? ==> Members(z, org, device) == {}
  {
    if task :| IsFirst(z, org, device, task) then Some(task)
    else
      FirstExists(z, org, device, Members(z, org, device));
      None
  }

  lemma {:induction false} FirstExists(z: Zset, org: OrgId, device: DeviceId, some: set<TaskId>)
    requires some <= Members(z, org, device)
    ensures some == {} || exists m :: m in some && (forall other | other in some && other != m ::
              Before(z[Slot(org, device, m)], m, z[Slot(org, device, other)], other))
    ensures some == Members(z, org, device) != {} ==> exists task :: IsFirst(z, org, device, task)
    decreases some
  {
    if some == {} {
    } else {
      var x :| x in some;
      var rest := some - {x};
      FirstExists(z, org, device, rest);
      var m := x;
      if rest != {} {
        var y :| y in rest && (forall other | other in rest && other != y ::
          Before(z[Slot(org, device, y)], y, z[Slot(org, device, other)], other));
        if Before(z[Slot(org, device, y)], y, z[Slot(org, device, x)], x) {
          m := y;
        }
      }
      assert forall other | other in some && other != m :: other == x || other in rest;
      assert m in some && forall other | other in some && other != m ::
        Before(z[Slot(org, device, m)], m, z[Slot(org, device, other)], other);
      if some == Members(z, org, device) {
        assert IsFirst(z, org, device, m);
      }
    }
  }

  lemma FirstIsUnique(z: Zset, org: OrgId, device: DeviceId, task: TaskId)
    requires IsFirst(z, org, device, task)
    ensures First(z, org, device) == Some(task)
  {
    assert task in Members(z, org, device);
  }

  /** What a dequeue does: nothing on a busy device or an empty set, otherwise pop and lock. */
  ghost function Dequeued(z: Zset, locks: Locks, org: OrgId, device: DeviceId, now: Time)
    : (Zset, Locks, Option<TaskId>)
  {
    if Live(locks, device, now) then (z, locks, None)
    else match First(z, org, device)
      case None => (z, locks, None)
      case Some(task) =>
        (z - {Slot(org, device, task)}, locks[device := Lock(task, now + LOCK_TTL)], Some(task))
  }

  /** Release of the lock, only if it is still live and held by `task`. */
  function Released(locks: Locks, device: DeviceId, task: TaskId, now: Time): Locks {
    if Live(locks, device, now) && locks[device].owner == task then locks - {device} else locks
  }

  class TaskQueue {
    var zset: Zset
    var locks: Locks
    /** The device in the `task:meta` hash of a task. */
    var meta: map<TaskId, DeviceId>

    constructor ()
      ensures zset == map[] && locks == map[] && meta == map[]
    {
      zset, locks, meta := map[], map[], map[];
    }

    method Enqueue(task: TaskId, device: DeviceId, org: OrgId, priority: int, now: Time)
      modifies this`zset, this`meta
      ensures zset == old(zset)[Slot(org, device, task) := Score(priority, now)]
      ensures meta == old(meta)[task := device]
    {
      zset := zset[Slot(org, device, task) := Score(priority, now)];
      meta := meta[task := device];
    }

    /** ZPOPMIN 1: scans the members of one sorted set for the least one. */
    method PeekMin(org: OrgId, device: DeviceId) returns (first: Option<TaskId>)
      ensures first == First(zset, org, device)
    {
      first := None;
      var rest := set slot | slot in zset && slot.org == org && slot.device == device;
      ghost var seen: set<TaskId> := {};
      ghost var all := Members(zset, org, device);
      assert forall slot :: slot in rest <==> slot in zset && slot.org == org && slot.device == device;
      while rest != {}
        invariant forall slot | slot in rest :: slot in zset && slot.org == org && slot.device == device
        invariant forall task :: task in all <==> task in seen || Slot(org, device, task) in rest
        invariant seen <= all
        invariant first.None? ==> seen == {}
        invariant first.Some? ==> first.value in seen && forall other | other in seen && other != first.value ::
                    Before(zset[Slot(org, device, first.value)], first.value, zset[Slot(org, device, other)], other)
        decreases rest
      {
        var slot :| slot in rest;
        rest := rest - {slot};
        assert slot == Slot(org, device, slot.task);
        if first.None? || Before(zset[slot], slot.task, zset[Slot(org, device, first.value)], first.value) {
          first := Some(slot.task);
        }
        seen := seen + {slot.task};
      }
      assert seen == all;
      if first.Some? {
        FirstIsUnique(zset, org, device, first.value);
      }
    }

    /** Lock check, then the Lua script: pop the least member and set the lock for 3600 s. */
    method DequeueForDevice(device: DeviceId, org: OrgId, now: Time) returns (task: Option<TaskId>)
      modifies this`zset, this`locks
      ensures (zset, locks, task) == Dequeued(old(zset), old(locks), org, device, now)
    {
      if device in locks && now < locks[device].expires {
        return None;
      }
      task := PeekMin(org, device);
      if task.Some? {
        zset := zset - {Slot(org, device, task.value)};
        locks := locks[device := Lock(task.value, now + LOCK_TTL)];
      }
    }

    method MarkCompleted(task: TaskId, device: DeviceId)
      modifies this`locks, this`meta
      ensures locks == old(locks) - {device} && meta == old(meta) - {task}
    {
      locks := locks - {device};
      meta := meta - {task};
    }

    /** Without a device, the one of the meta data is taken, if there is any. */
    function DeviceOf(task: TaskId, device: Option<DeviceId>): Option<DeviceId>
      reads this`meta
    {
      if device.Some? then device else if task in meta then Some(meta[task]) else None
    }

    method CancelTask(task: TaskId, org: OrgId, device: Option<DeviceId>) returns (removed: bool)
      modifies this`zset, this`meta
      ensures removed <==> old(DeviceOf(task, device)).Some?
                           && Slot(org, old(DeviceOf(task, device)).value, task) in old(zset)
      ensures match old(DeviceOf(task, device))
              case Some(d) => zset == old(zset) - {Slot(org, d, task)}
              case None => zset == old(zset)
      ensures meta == if removed then old(meta) - {task} else old(meta)
    {
      var d := device;
      if d.None? {
        if task !in meta {
          return false;
        }
        d := Some(meta[task]);
      }
      removed := Slot(org, d.value, task) in zset;
      zset := zset - {Slot(org, d.value, task)};
      if removed {
        meta := meta - {task};
      }
    }
  }
}
