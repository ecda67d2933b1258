/** The task queue that uses every slot: an empty slot holds null, and equal indices mean an
    empty queue or a full one. */
module NullRing {
  import opened Rings

  const DISCARDS_MAX := 0xFF

  /** Is slot k one of `count` slots from `full` on? */
  predicate Occupied(k: nat, full: nat, count: nat, slots: nat) {
    full <= k < full + count || k + slots < full + count
  }

  /** Slots from `full` up to `free` hold tasks, and all others hold null. */
  ghost predicate RingInv(ring: seq<nat>, full: nat, free: nat, count: nat) {
    && full < |ring| && free < |ring| && count <= |ring|
    && (free == full + count || free == full + count - |ring|)
    && forall k | 0 <= k < |ring| :: ring[k] != 0 <==> Occupied(k, full, count, |ring|)
  }

  /** When the indices are equal the slot tells whether the queue is empty or full, and
      otherwise it is neither. */
  lemma EmptyOrFull(ring: seq<nat>, full: nat, free: nat, count: nat)
    requires RingInv(ring, full, free, count)
    ensures full == free <==> count == 0 || count == |ring|
    ensures ring[full] == 0 <==> count == 0
    ensures ring[free] != 0 <==> count == |ring|
  {
  }

  /** The null slots determine how many tasks there are. */
  lemma OneCount(ring: seq<nat>, full: nat, free: nat, count: nat, count': nat)
    requires RingInv(ring, full, free, count) && RingInv(ring, full, free, count')
    ensures count == count'
  {
    EmptyOrFull(ring, full, free, count);
    EmptyOrFull(ring, full, free, count');
  }

  lemma PostKeeps(ring: seq<nat>, full: nat, free: nat, count: nat, task: nat)
    requires RingInv(ring, full, free, count) && count < |ring| && task != 0
    ensures RingInv(ring[free := task], full, Wrap(free + 1, |ring|), count + 1)
    ensures Window(ring[free := task], full, count + 1) == Window(ring, full, count) + [task]
  {
    assert free == Wrap(full + count, |ring|);
    Filled(ring, full, count, task);
  }

  lemma RunKeeps(ring: seq<nat>, full: nat, free: nat, count: nat)
    requires RingInv(ring, full, free, count) && count > 0
    ensures RingInv(ring[full := 0], Wrap(full + 1, |ring|), free, count - 1)
    ensures [ring[full]] + Window(ring[full := 0], Wrap(full + 1, |ring|), count - 1) == Window(ring, full, count)
  {
    var from := Wrap(full + 1, |ring|);
    Taken(ring, full, count);
    assert Wrap(from + (|ring| - 1), |ring|) == full;
    Outside(ring, from, count - 1, |ring| - 1, 0);
  }

  class Scheduler {
    const queue: array<nat>
    var schedFull: nat
    var schedFree: nat
    var taskQueueDiscards: nat
    ghost var count: nat
    /** The posts that were refused. */
    ghost var refused: nat

    ghost predicate Valid()
      reads this, queue
    {
      && RingInv(queue[..], schedFull, schedFree, count)
      && taskQueueDiscards == if refused <= DISCARDS_MAX then refused else DISCARDS_MAX
    }

    ghost function Queue(): (q: seq<nat>)
      reads this, queue
      requires Valid()
      ensures |q| == count
    {
      Window(queue[..], schedFull, count)
    }

    constructor (maxTasks: nat)
      requires 0 < maxTasks <= 256
      ensures Valid() && Queue() == [] && queue.Length == maxTasks && refused == 0 && fresh(queue)
    {
      queue := new nat[maxTasks](_ => 0);
      schedFull, schedFree, taskQueueDiscards, count, refused := 0, 0, 0, 0, 0;
    }

    /** TOS_post.  A task is never null. */
    method Post(task: nat) returns (ok: bool)
      requires Valid() && task != 0
      modifies this, queue
      ensures Valid() && Queue() == if ok then old(Queue()) + [task] else old(Queue())
      ensures ok <==> |old(Queue())| < queue.Length
      ensures refused == if ok then old(refused) else old(refused) + 1
    {
      EmptyOrFull(queue[..], schedFull, schedFree, count);
      var tmp := schedFree;
      if queue[tmp] == 0 {
        PostKeeps(queue[..], schedFull, schedFree, count, task);
        ghost var was := queue[..];
        schedFree := if tmp + 1 == queue.Length then 0 else tmp + 1;
        queue[tmp] := task;
        count := count + 1;
        assert queue[..] == was[tmp := task];
        return true;
      }
      if taskQueueDiscards < DISCARDS_MAX {
        taskQueueDiscards := taskQueueDiscards + 1;
      }
      refused := refused + 1;
      return false;
    }

    /** TOSH_run_next_task: the task that it calls, if any. */
    method NextTask() returns (task: nat, found: bool)
      requires Valid()
      modifies this, queue
      ensures Valid() && (found <==> old(Queue()) != []) && refused == old(refused)
      ensures found ==> [task] + Queue() == old(Queue())
      ensures !found ==> Queue() == old(Queue())
    {
      EmptyOrFull(queue[..], schedFull, schedFree, count);
      var oldFull := schedFull;
      task := queue[oldFull];
      if task == 0 {
        return task, false;
      }
      RunKeeps(queue[..], schedFull, schedFree, count);
      ghost var was := queue[..];
      queue[oldFull] := 0;
      schedFull := if oldFull + 1 == queue.Length then 0 else oldFull + 1;
      count := count - 1;
      assert queue[..] == was[oldFull := 0];
      return task, true;
    }
  }
}
