/** The task queue that keeps one slot empty and writes a posted task into its slot only
    after it has left the critical section.

    Posts nest: an interrupt may come between the two parts of a post and post as well, and
    it finishes before the post that it interrupted goes on.  `stores` is the stack of posts
    that have a slot but have not written it; the main loop goes on only when it is empty. */
module IndexRing {
  import opened Rings

  const MAX_TASKS := 32

  datatype Store = Store(slot: nat, task: nat)

  datatype Loop = Looking | Found | Running(task: nat)

  /** `reserved` records the posts that succeeded, in order, and `ran` the tasks that ran. */
  datatype State = State(ring: seq<nat>, full: nat, free: nat, stores: seq<Store>, main: Loop,
                         reserved: seq<nat>, ran: seq<nat>)

  datatype Step = Reserve(task: nat) | Write | Look | Take | Finish

  function Init(): State { State(seq(MAX_TASKS, _ => 0), 0, 0, [], Looking, [], []) }

  predicate Shape(s: State) { |s.ring| == MAX_TASKS && s.full < MAX_TASKS && s.free < MAX_TASKS }

  /** The critical section of a post. */
  function ReserveStep(s: State, task: nat): State
    requires Shape(s)
  {
    var free := Wrap(s.free + 1, MAX_TASKS);
    if free != s.full
    then s.(free := free, stores := s.stores + [Store(s.free, task)], reserved := s.reserved + [task])
    else s
  }

  /** The rest of the innermost post. */
  function WriteStep(s: State): State
    requires Shape(s) && s.stores != [] && s.stores[|s.stores| - 1].slot < MAX_TASKS
  {
    var top := s.stores[|s.stores| - 1];
    s.(ring := s.ring[top.slot := top.task], stores := s.stores[..|s.stores| - 1])
  }

  /** The main loop takes the task from its slot, clears the slot, and calls the task. */
  function TakeStep(s: State): State
    requires Shape(s)
  {
    var task := s.ring[s.full];
    s.(full := Wrap(s.full + 1, MAX_TASKS), ring := s.ring[s.full := 0], main := Running(task), ran := s.ran + [task])
  }

  /** Before that it looks, outside the critical section, whether there is one. */
  predicate Enabled(s: State, step: Step) {
    && Shape(s)
    && match step
       case Reserve(task) => true
       case Write => s.stores != [] && s.stores[|s.stores| - 1].slot < MAX_TASKS
       case Look => s.stores == [] && s.main == Looking
       case Take => s.stores == [] && s.main == Found
       case Finish => s.stores == [] && s.main.Running?
  }

  function Apply(s: State, step: Step): State
    requires Enabled(s, step)
  {
    match step
    case Reserve(task) => ReserveStep(s, task)
    case Write => WriteStep(s)
    case Look => if s.full == s.free then s else s.(main := Found)
    case Take => TakeStep(s)
    case Finish => s.(main := Looking)
  }

  // ---- the invariant ---------------------------------------------------------------------------

  /** The ring as it will be when all posts have written. */
  function Written(ring: seq<nat>, stores: seq<Store>): (r: seq<nat>)
    requires forall i | 0 <= i < |stores| :: stores[i].slot < |ring|
    ensures |r| == |ring|
    decreases |stores|
  {
    if stores == [] then ring
    else
      var top := stores[|stores| - 1];
      Written(ring[top.slot := top.task], stores[..|stores| - 1])
  }

  /** A slot that no post will write can be written at any time. */
  lemma {:induction false} WrittenLater(ring: seq<nat>, stores: seq<Store>, slot: nat, task: nat)
    requires slot < |ring| && forall i | 0 <= i < |stores| :: stores[i].slot < |ring| && stores[i].slot != slot
    ensures Written(ring[slot := task], stores) == Written(ring, stores)[slot := task]
    decreases |stores|
  {
    if stores != [] {
      var top := stores[|stores| - 1];
      assert ring[slot := task][top.slot := top.task] == ring[top.slot := top.task][slot := task];
      WrittenLater(ring[top.slot := top.task], stores[..|stores| - 1], slot, task);
    }
  }

  lemma WrittenTop(ring: seq<nat>, stores: seq<Store>, top: Store)
    requires top.slot < |ring| && forall i | 0 <= i < |stores| :: stores[i].slot < |ring|
    ensures Written(ring, stores + [top]) == Written(ring[top.slot := top.task], stores)
  {
    assert (stores + [top])[..|stores|] == stores;
  }

  function Count(s: State): (c: nat)
    requires Shape(s)
    ensures c < MAX_TASKS
  {
    if s.full <= s.free then s.free - s.full else MAX_TASKS - s.full + s.free
  }

  /** Is the slot in use? */
  predicate InWindow(s: State, slot: nat)
    requires Shape(s)
  {
    slot < MAX_TASKS && if s.full <= s.free then s.full <= slot < s.free else s.full <= slot || slot < s.free
  }

  predicate StoresInv(s: State)
    requires Shape(s)
  {
    && (forall i | 0 <= i < |s.stores| :: InWindow(s, s.stores[i].slot))
    && (forall i, j | 0 <= i < j < |s.stores| :: s.stores[i].slot != s.stores[j].slot)
  }

  /** The tasks that have a slot, oldest first. */
  function Queue(s: State): (q: seq<nat>)
    requires Shape(s) && StoresInv(s)
    ensures |q| == Count(s)
  {
    Window(Written(s.ring, s.stores), s.full, Count(s))
  }

  predicate Inv(s: State) {
    && Shape(s) && StoresInv(s)
    && s.reserved == s.ran + Queue(s)
    && (s.main == Found ==> Count(s) > 0)
  }

  lemma ReserveKeeps(s: State, task: nat)
    requires Inv(s)
    ensures Inv(ReserveStep(s, task))
    ensures Queue(ReserveStep(s, task)) == if |Queue(s)| < MAX_TASKS - 1 then Queue(s) + [task] else Queue(s)
  {
    hide Written;
    var t := ReserveStep(s, task);
    if t != s {
      WrittenTop(s.ring, s.stores, Store(s.free, task));
      WrittenLater(s.ring, s.stores, s.free, task);
      Filled(Written(s.ring, s.stores), s.full, Count(s), task);
      assert s.free == Wrap(s.full + Count(s), MAX_TASKS);
    }
  }

  lemma TakeKeeps(s: State)
    requires Inv(s) && s.stores == [] && s.main == Found
    ensures Inv(TakeStep(s)) && Queue(TakeStep(s)) == Queue(s)[1..] && s.ring[s.full] == Queue(s)[0]
  {
    var t := TakeStep(s);
    Taken(s.ring, s.full, Count(s));
    Outside(s.ring, t.full, Count(t), MAX_TASKS - 1, 0);
    assert Wrap(t.full + (MAX_TASKS - 1), MAX_TASKS) == s.full;
    assert Queue(s) == [Queue(s)[0]] + Queue(s)[1..];
  }

  lemma StepKeeps(s: State, step: Step)
    requires Inv(s) && Enabled(s, step)
    ensures Inv(Apply(s, step))
  {
    match step {
      case Reserve(task) => ReserveKeeps(s, task);
      case Write =>
      case Look =>
      case Take => TakeKeeps(s);
      case Finish =>
    }
  }

  // ---- runs ---------------------------------------------------------------------------------

  ghost predicate Reached(steps: seq<Step>, s: State)
    decreases |steps|
  {
    if steps == [] then s == Init()
    else
      var front, step := steps[..|steps| - 1], steps[|steps| - 1];
      exists u :: Reached(front, u) && Enabled(u, step) && s == Apply(u, step)
  }

  lemma {:induction false} RunKeeps(steps: seq<Step>, s: State)
    requires Reached(steps, s)
    ensures Inv(s)
    decreases |steps|
  {
    if steps != [] {
      var front, step := steps[..|steps| - 1], steps[|steps| - 1];
      var u :| Reached(front, u) && Enabled(u, step) && s == Apply(u, step);
      RunKeeps(front, u);
      StepKeeps(u, step);
    }
  }

  /** In every run tasks run once each, in the order of their reservations; a post is refused
      exactly when MAX_TASKS - 1 tasks wait; and whenever the main loop takes a task, its slot
      has been written. */
  lemma RunsInOrder(steps: seq<Step>, s: State)
    requires Reached(steps, s)
    ensures s.ran <= s.reserved && |s.reserved| - |s.ran| <= MAX_TASKS - 1
    ensures forall task :: Enabled(s, Reserve(task)) &&
              (ReserveStep(s, task) == s <==> |s.reserved| - |s.ran| == MAX_TASKS - 1)
    ensures Enabled(s, Take) ==> |s.ran| < |s.reserved| && TakeStep(s).ran == s.ran + [s.reserved[|s.ran|]]
  {
    RunKeeps(steps, s);
    if Enabled(s, Take) { TakeKeeps(s); }
    forall task
      ensures Enabled(s, Reserve(task)) && (ReserveStep(s, task) == s <==> |s.reserved| - |s.ran| == MAX_TASKS - 1) {
      assert |Queue(s)| == Count(s);
    }
  }

  /** When the main loop finds no task and lets the processor sleep, every posted task ran. */
  lemma SleepsWhenDone(steps: seq<Step>, s: State)
    requires Reached(steps, s) && Enabled(s, Look)
    ensures Apply(s, Look).main == Looking <==> s.ran == s.reserved
  {
    RunKeeps(steps, s);
  }

  // ---- what was posted, and that it runs ------------------------------------------------------------

  function Takes(steps: seq<Step>): nat {
    if steps == [] then 0 else Takes(steps[..|steps| - 1]) + if steps[|steps| - 1].Take? then 1 else 0
  }

  /** The posts that came when fewer than 31 tasks waited. */
  function Accepted(steps: seq<Step>): seq<nat> {
    if steps == [] then []
    else
      var front, step := steps[..|steps| - 1], steps[|steps| - 1];
      if step.Reserve? && |Accepted(front)| - Takes(front) < 31 then Accepted(front) + [step.task] else Accepted(front)
  }

  lemma StepCounts(s: State, step: Step)
    requires Inv(s) && Enabled(s, step)
    ensures var t := Apply(s, step);
            && t.reserved == (if step.Reserve? && |s.reserved| - |s.ran| < 31 then s.reserved + [step.task]
                              else s.reserved)
            && |t.ran| == |s.ran| + if step.Take? then 1 else 0
  {
    hide Written;
    assert |Queue(s)| == Count(s);
  }

  lemma RanIsPrefix(s: State)
    requires Inv(s)
    ensures |s.ran| <= |s.reserved| && s.ran == s.reserved[..|s.ran|]
  {
  }

  /** In every run the tasks that get a slot are those posted while there was one, in order, and
      the main loop has run as many of them, from the first on, as it has taken. */
  lemma {:induction false} RanAreAccepted(steps: seq<Step>, s: State)
    requires Reached(steps, s)
    ensures s.reserved == Accepted(steps) && |s.ran| == Takes(steps)
    ensures Takes(steps) <= |Accepted(steps)| && s.ran == Accepted(steps)[..Takes(steps)]
    decreases |steps|
  {
    RunKeeps(steps, s);
    RanIsPrefix(s);
    if steps != [] {
      var front, step := steps[..|steps| - 1], steps[|steps| - 1];
      var u :| Reached(front, u) && Enabled(u, step) && s == Apply(u, step);
      hide Inv, Apply, Enabled;
      RanAreAccepted(front, u);
      RunKeeps(front, u);
      StepCounts(u, step);
    }
  }

  /** The steps of the main loop before all that waits has been taken. */
  function Rank(s: State): nat
    requires |s.ran| <= |s.reserved|
  {
    3 * (|s.reserved| - |s.ran|) + match s.main case Running(_) => 2 case Looking => 1 case Found => 0
  }

  /** When no post is under way the main loop has exactly one step to take; it looks in vain when
      every accepted task ran, and any other step brings that nearer. */
  lemma MainLoopGoesOn(steps: seq<Step>, s: State)
    requires Reached(steps, s) && s.stores == []
    ensures |s.ran| <= |s.reserved|
    ensures exists step | step in {Look, Take, Finish} ::
              && Enabled(s, step)
              && (forall other | other in {Look, Take, Finish} && Enabled(s, other) :: other == step)
              && var t := Apply(s, step);
                 && t.stores == [] && t.reserved == s.reserved && |t.ran| <= |t.reserved|
                 && if s.main == Looking && s.ran == s.reserved then t == s else Rank(t) < Rank(s)
  {
    RunKeeps(steps, s);
    hide Written;
    assert |Queue(s)| == Count(s);
    var step := match s.main case Looking => Look case Found => Take case Running(_) => Finish;
    assert step in {Look, Take, Finish} && Enabled(s, step);
  }

  /** There is room for one more exactly if the free index would not meet the full one. */
  lemma RoomLeft(s: State)
    requires Inv(s)
    ensures Wrap(s.free + 1, MAX_TASKS) != s.full <==> |Queue(s)| < MAX_TASKS - 1
  {
  }

  // ---- in place -----------------------------------------------------------------------------

  class Scheduler {
    const queue: array<nat>
    var schedFull: nat
    var schedFree: nat
    var main: Loop
    /** The posts that have not written their slots: their arguments and locals. */
    ghost var stores: seq<Store>
    ghost var reserved: seq<nat>
    ghost var ran: seq<nat>

    ghost function View(): State
      reads this, queue
    {
      State(queue[..], schedFull, schedFree, stores, main, reserved, ran)
    }

    constructor ()
      ensures View() == Init() && fresh(queue)
    {
      queue := new nat[MAX_TASKS](_ => 0);
      schedFull, schedFree, main, stores, reserved, ran := 0, 0, Looking, [], [], [];
      new;
      assert queue[..] == seq(MAX_TASKS, _ => 0);
    }

    /** The critical section of TOS_post: the slot, or no slot. */
    method PostEnter(task: nat) returns (slot: nat, ok: bool)
      requires Inv(View())
      modifies this
      ensures View() == ReserveStep(old(View()), task) && Inv(View())
      ensures ok <==> |Queue(old(View()))| < MAX_TASKS - 1
      ensures ok ==> slot < MAX_TASKS && stores == old(stores) + [Store(slot, task)]
    {
      RoomLeft(View());
      ReserveKeeps(View(), task);
      hide Queue, StoresInv, Written, Inv;
      slot := schedFree;
      schedFree := schedFree + 1;
      if schedFree == MAX_TASKS {
        schedFree := 0;
      }
      if schedFree != schedFull {
        stores, reserved := stores + [Store(slot, task)], reserved + [task];
        return slot, true;
      }
      schedFree := slot;
      return slot, false;
    }

    /** The rest of TOS_post. */
    method PostWrite(slot: nat, task: nat)
      requires Inv(View()) && stores != [] && stores[|stores| - 1] == Store(slot, task)
      modifies this, queue
      ensures View() == WriteStep(old(View())) && Inv(View())
    {
      StepKeeps(View(), Write);
      queue[slot] := task;
      stores := stores[..|stores| - 1];
    }

    /** A post that nothing interrupts. */
    method Post(task: nat) returns (ok: bool)
      requires Inv(View())
      modifies this, queue
      ensures Inv(View()) && stores == old(stores) && main == old(main)
      ensures Queue(View()) == if ok then Queue(old(View())) + [task] else Queue(old(View()))
      ensures ok <==> |Queue(old(View()))| < MAX_TASKS - 1
    {
      ReserveKeeps(View(), task);
      var slot;
      slot, ok := PostEnter(task);
      if ok {
        PostWrite(slot, task);
      }
    }

    /** TOSH_run_next_task up to its critical section. */
    method FindTask() returns (found: bool)
      requires Inv(View()) && stores == [] && main == Looking
      modifies this`main
      ensures View() == Apply(old(View()), Look) && Inv(View())
      ensures found <==> Queue(View()) != []
    {
      found := schedFull != schedFree;
      if found {
        main := Found;
      }
    }

    /** Its critical section, and the task that it then calls. */
    method TakeTask() returns (task: nat)
      requires Inv(View()) && stores == [] && main == Found
      modifies this, queue
      ensures View() == TakeStep(old(View())) && Inv(View())
      ensures [task] + Queue(View()) == Queue(old(View()))
    {
      TakeKeeps(View());
      ghost var was := queue[..];
      task := queue[schedFull];
      queue[schedFull] := 0;
      schedFull := schedFull + 1;
      if schedFull == MAX_TASKS {
        schedFull := 0;
      }
      main, ran := Running(task), ran + [task];
    }
  }
}
