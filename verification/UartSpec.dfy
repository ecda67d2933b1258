/** The buffered serial port and the DMA transmit path under it, as one state machine.

    Sends come from tasks; the end of a DMA transfer is an interrupt that may come between
    any two of the atomic parts of a task; completions are tasks.  A task that reports a
    completion has two parts, since the client may send again from its callback. */
module UartSpec {
  import opened Wrappers

  const SLOTS := 256
  const WORD := 0x1_0000

  datatype Origin = SendData | SendDataAlloc

  /** A buffer to be sent.  Its address is not null: both senders assert so. */
  datatype Info = Info(buf: nat, numBytes: nat, origin: Origin)

  datatype Dma = Idle | Requested | Running

  datatype Halt = NotHalted | QueueFull | WrongBuffer | EmptyQueue

  datatype State = State(
    queue: seq<Info>, txActive: bool,
    portInUse: bool, txBuffer: nat, txNumBytes: nat, dma: Dma,
    tasks: seq<Info>, current: Option<Info>, halted: Halt,
    /* the record of the run: what was accepted, and what was reported done */
    accepted: seq<Info>, done: seq<Info>)

  datatype Step = Send(info: Info) | Grant | DmaEnd | BeginTask | EndTask

  const INIT := State([], false, false, 0, 0, Idle, [], None, NotHalted, [], [])

  /** The length that the port takes is 16 bits wide. */
  function Truncated(numBytes: nat): (n: nat)
    ensures n < WORD && (numBytes < WORD ==> n == numBytes) && (numBytes - n) % WORD == 0
  {
    numBytes % WORD
  }

  /** BulkTransmit: refused, without a trace, for no bytes or while the port is in use. */
  function BulkTransmit(s: State, info: Info): State {
    if Truncated(info.numBytes) == 0 || s.portInUse then s
    else s.(portInUse := true, txBuffer := info.buf, txNumBytes := Truncated(info.numBytes), dma := Requested)
  }

  /** Both send commands: push, and start the port if nothing is active. */
  function SendStep(s: State, info: Info): State {
    if info.numBytes == 0 then s
    else
      var room := |s.queue| < SLOTS - 1;
      var s1 := if room then s.(queue := s.queue + [info], accepted := s.accepted + [info]) else s;
      var s2 := if s.txActive then s1 else BulkTransmit(s1, info).(txActive := true);
      if !room && info.origin == SendDataAlloc then s2.(halted := QueueFull) else s2
  }

  function GrantStep(s: State): State { s.(dma := Running) }

  /** The end interrupt: the head of the queue must be what was sent; its report is posted
      and the port is closed. */
  function DmaEndStep(s: State): State {
    if s.queue == [] then s.(halted := EmptyQueue)
    else
      var s1 := s.(queue := s.queue[1..]);
      if s.queue[0].buf == s.txBuffer && s.queue[0].numBytes == s.txNumBytes
      then s1.(tasks := s.tasks + [s.queue[0]], portInUse := false, txBuffer := 0, txNumBytes := 0, dma := Idle)
      else s1.(halted := WrongBuffer)
  }

  /** The task begins: it signals that the buffer is done. */
  function BeginTaskStep(s: State): State
    requires s.tasks != []
  {
    s.(tasks := s.tasks[1..], current := Some(s.tasks[0]), done := s.done + [s.tasks[0]])
  }

  /** The atomic end of the task: the next buffer, or nothing is active. */
  function EndTaskStep(s: State): State {
    var s1 := s.(current := None);
    if s.queue != [] then BulkTransmit(s1, s.queue[0]) else s1.(txActive := false)
  }

  /** The grant of a channel is a task as well, and tasks do not interrupt each other. */
  predicate Enabled(s: State, step: Step) {
    && s.halted == NotHalted
    && match step
       case Send(info) => true
       case Grant => s.dma == Requested && s.current.None?
       case DmaEnd => s.dma == Running
       case BeginTask => s.tasks != [] && s.current.None?
       case EndTask => s.current.Some?
  }

  function Apply(s: State, step: Step): State
    requires Enabled(s, step)
  {
    match step
    case Send(info) => SendStep(s, info)
    case Grant => GrantStep(s)
    case DmaEnd => DmaEndStep(s)
    case BeginTask => BeginTaskStep(s)
    case EndTask => EndTaskStep(s)
  }

  // ---- the invariant -------------------------------------------------------------------------

  /** The head of the queue is on its way out of the port. */
  predicate InFlight(s: State) {
    && s.portInUse && s.queue != [] && s.txBuffer == s.queue[0].buf && s.dma != Idle
    && s.txNumBytes == Truncated(s.queue[0].numBytes) != 0
    && s.tasks == [] && s.current.None?
  }

  predicate Closed(s: State) { !s.portInUse && s.dma == Idle }

  /** The port refused the head of the queue: its length is a multiple of 65536. */
  predicate Stuck(s: State) {
    Closed(s) && s.queue != [] && Truncated(s.queue[0].numBytes) == 0 && s.tasks == [] && s.current.None?
  }

  predicate Resting(s: State) { Closed(s) && s.queue == [] && s.tasks == [] && s.current.None? }

  predicate Reporting(s: State) {
    Closed(s) && ((|s.tasks| == 1 && s.current.None?) || (s.tasks == [] && s.current.Some?))
  }

  /** What was sent but is not yet reported, oldest first. */
  function Outstanding(s: State): seq<Info> { s.tasks + s.queue }

  predicate Sendable(info: Info) { info.numBytes < WORD }

  predicate AllSendable(infos: seq<Info>) { forall i | 0 <= i < |infos| :: Sendable(infos[i]) }

  predicate Inv(s: State) {
    && |s.queue| < SLOTS
    && (forall i | 0 <= i < |s.accepted| :: s.accepted[i].numBytes > 0)
    && AllSendable(s.done) && AllSendable(s.tasks)
    && match s.halted
       case WrongBuffer =>
         |s.done| < |s.accepted| && s.done == s.accepted[..|s.done|] && !Sendable(s.accepted[|s.done|])
       case EmptyQueue => false
       case _ =>
         && s.accepted == s.done + Outstanding(s)
         && (s.txActive <==> !Resting(s))
         && (Resting(s) || InFlight(s) || Reporting(s) || Stuck(s))
         && (s.halted == QueueFull ==> |s.queue| == SLOTS - 1)
  }

  lemma StepKeeps(s: State, step: Step)
    requires Inv(s) && Enabled(s, step)
    ensures Inv(Apply(s, step))
  {
    match step {
      case Send(info) => SendKeeps(s, info);
      case Grant =>
      case DmaEnd => DmaEndKeeps(s);
      case BeginTask =>
        assert s.accepted == s.done + [s.tasks[0]] + s.queue;
      case EndTask =>
    }
  }

  lemma SendKeeps(s: State, info: Info)
    requires Inv(s) && s.halted == NotHalted
    ensures Inv(SendStep(s, info))
  {
    if info.numBytes > 0 {
      if s.txActive { SendLater(s, info); } else { SendNow(s, info); }
    }
  }

  /** The buffer waits behind others, or there is no room for it. */
  lemma SendLater(s: State, info: Info)
    requires Inv(s) && s.halted == NotHalted && info.numBytes > 0 && s.txActive
    ensures Inv(SendStep(s, info))
  {
    QueueMore(s.done, s.tasks, s.queue, info);
    hide AllSendable;
  }

  /** The port is started with it, or refuses it. */
  lemma SendNow(s: State, info: Info)
    requires Inv(s) && s.halted == NotHalted && info.numBytes > 0 && !s.txActive
    ensures Inv(SendStep(s, info))
  {
    hide AllSendable;
    assert s.queue == [] && s.tasks == [] && s.accepted == s.done + ([] + []) == s.done;
    assert s.queue + [info] == [info] && s.done + ([] + [info]) == s.done + [info];
  }

  lemma QueueMore(done: seq<Info>, tasks: seq<Info>, queue: seq<Info>, info: Info)
    ensures done + (tasks + queue) + [info] == done + (tasks + (queue + [info]))
  {
  }

  lemma DmaEndKeeps(s: State)
    requires Inv(s) && s.halted == NotHalted && s.dma == Running
    ensures Inv(DmaEndStep(s))
  {
    assert InFlight(s);
    HeadOut(s.done, s.tasks, s.queue);
  }

  lemma HeadOut(done: seq<Info>, tasks: seq<Info>, queue: seq<Info>)
    requires tasks == [] && queue != []
    ensures done + (tasks + queue) == done + (tasks + [queue[0]] + queue[1..])
    ensures (done + (tasks + queue))[..|done|] == done && (done + (tasks + queue))[|done|] == queue[0]
  {
  }

  // ---- runs -----------------------------------------------------------------------------------

  /** The steps lead from s to t. */
  ghost predicate Leads(s: State, steps: seq<Step>, t: State)
    decreases |steps|
  {
    if steps == [] then t == s
    else
      var front, step := steps[..|steps| - 1], steps[|steps| - 1];
      exists u :: Leads(s, front, u) && Enabled(u, step) && t == Apply(u, step)
  }

  /** A run of the driver. */
  ghost predicate Reached(steps: seq<Step>, s: State) { Leads(INIT, steps, s) }

  lemma {:induction false} LeadsKeeps(s: State, steps: seq<Step>, t: State)
    requires Inv(s) && Leads(s, steps, t)
    ensures Inv(t)
    decreases |steps|
  {
    if steps != [] {
      var front, step := steps[..|steps| - 1], steps[|steps| - 1];
      var u :| Leads(s, front, u) && Enabled(u, step) && t == Apply(u, step);
      LeadsKeeps(s, front, u);
      StepKeeps(u, step);
    }
  }

  lemma RunKeeps(steps: seq<Step>, s: State)
    requires Reached(steps, s)
    ensures Inv(s)
  {
    LeadsKeeps(INIT, steps, s);
  }

  /** In every run a queue that is not empty has its head on the way out of the port, or the
      report of the buffer before it is pending or under way; never two of these, and the
      only exception is a length that the port refuses. */
  lemma NoLostWakeup(steps: seq<Step>, s: State)
    requires Reached(steps, s) && s.halted != WrongBuffer && s.queue != []
    requires Truncated(s.queue[0].numBytes) != 0
    ensures InFlight(s) != Reporting(s)
  {
    RunKeeps(steps, s);
  }

  /** BulkTransmit is never called while the port is in use: not by a send that finds
      nothing active, and not by the end of a task. */
  lemma PortIsFree(steps: seq<Step>, s: State)
    requires Reached(steps, s) && s.halted == NotHalted && (!s.txActive || s.current.Some?)
    ensures !s.portInUse
  {
    RunKeeps(steps, s);
  }

  // ---- acceptance --------------------------------------------------------------------------------

  function Ends(steps: seq<Step>): nat {
    if steps == [] then 0
    else Ends(steps[..|steps| - 1]) + if steps[|steps| - 1].DmaEnd? then 1 else 0
  }

  /** Fewer than 255 buffers are taken and not yet out of the port. */
  predicate Room(taken: seq<Info>, ends: nat) { |taken| - ends < 255 }

  /** The buffers of the sends that had bytes and found room. */
  function Taken(steps: seq<Step>): seq<Info> {
    if steps == [] then []
    else
      var front, step := steps[..|steps| - 1], steps[|steps| - 1];
      if step.Send? && step.info.numBytes > 0 && Room(Taken(front), Ends(front)) then Taken(front) + [step.info]
      else Taken(front)
  }

  /** The last step asserts that there is room where there is none. */
  predicate Overfills(steps: seq<Step>) {
    && steps != []
    && var (front, step) := (steps[..|steps| - 1], steps[|steps| - 1]);
       step.Send? && step.info.origin == SendDataAlloc && step.info.numBytes > 0 && !Room(Taken(front), Ends(front))
  }

  predicate Counted(s: State, taken: seq<Info>, ends: nat) {
    s.accepted == taken && |s.queue| == |taken| - ends
  }

  lemma StepTakes(s: State, step: Step, taken: seq<Info>, ends: nat)
    requires Inv(s) && Enabled(s, step) && Counted(s, taken, ends)
    ensures var t := Apply(s, step);
            var sends := step.Send? && step.info.numBytes > 0;
            && Counted(t, if sends && Room(taken, ends) then taken + [step.info] else taken,
                       ends + if step.DmaEnd? then 1 else 0)
            && (t.halted == QueueFull <==> sends && step.info.origin == SendDataAlloc && !Room(taken, ends))
  {
    hide AllSendable;
  }

  /** In every run what is accepted is the list of the buffers that were sent with bytes and
      room; the assertion that there was room fails exactly at a send that finds none. */
  lemma {:induction false} AcceptedAreTaken(steps: seq<Step>, s: State)
    requires Reached(steps, s)
    ensures s.accepted == Taken(steps) && |s.queue| == |Taken(steps)| - Ends(steps)
    ensures s.halted == QueueFull <==> Overfills(steps)
    decreases |steps|
  {
    if steps != [] {
      var front, step := steps[..|steps| - 1], steps[|steps| - 1];
      var u :| Leads(INIT, front, u) && Enabled(u, step) && s == Apply(u, step);
      hide Inv, Apply;
      assert u.halted == NotHalted;
      AcceptedAreTaken(front, u);
      RunKeeps(front, u);
      StepTakes(u, step, Taken(front), Ends(front));
    }
  }

  /** A send without bytes changes nothing, nor does one that finds no room, but for the assertion. */
  lemma RefusedSends(steps: seq<Step>, s: State, info: Info)
    requires Reached(steps, s) && s.halted == NotHalted
    requires info.numBytes == 0 || !Room(Taken(steps), Ends(steps))
    ensures Apply(s, Send(info)) ==
              s.(halted := if info.numBytes > 0 && info.origin == SendDataAlloc then QueueFull else NotHalted)
  {
    RunKeeps(steps, s);
    AcceptedAreTaken(steps, s);
    hide Reached, AllSendable, Taken, Ends;
  }

  // ---- completion ------------------------------------------------------------------------------

  /** The buffers before the first that is too long. */
  function SendablePrefix(infos: seq<Info>): (p: seq<Info>)
    ensures p <= infos && AllSendable(p)
    ensures |p| < |infos| ==> !Sendable(infos[|p|])
  {
    if infos == [] || !Sendable(infos[0]) then [] else [infos[0]] + SendablePrefix(infos[1..])
  }

  /** A prefix of sendable buffers is no longer than the longest one. */
  lemma PrefixOfSendable(infos: seq<Info>, d: seq<Info>)
    requires d <= infos && AllSendable(d)
    ensures d <= SendablePrefix(infos)
    ensures |d| == |infos| || !Sendable(infos[|d|]) ==> d == SendablePrefix(infos)
  {
    var p := SendablePrefix(infos);
    assert forall i | 0 <= i < |d| :: Sendable(infos[i]) by { assert forall i | 0 <= i < |d| :: infos[i] == d[i]; }
    assert |d| < |p| ==> Sendable(p[|d|]);
  }

  predicate Internal(step: Step) { !step.Send? }

  /** Nothing will happen until the next send. */
  predicate Quiet(s: State) { forall step | step in {Grant, DmaEnd, BeginTask, EndTask} :: !Enabled(s, step) }

  /** What is reported is what was accepted, once each and in order, as far as the first
      buffer that is too long; and when nothing more can happen it is all of that. */
  lemma Completion(steps: seq<Step>, s: State)
    requires Reached(steps, s)
    ensures s.done <= SendablePrefix(s.accepted)
    ensures Quiet(s) && s.halted != QueueFull ==> s.done == SendablePrefix(s.accepted)
  {
    RunKeeps(steps, s);
    assert s.done <= s.accepted;
    PrefixOfSendable(s.accepted, s.done);
    if Quiet(s) && s.halted != QueueFull {
      assert !Enabled(s, Grant) && !Enabled(s, DmaEnd) && !Enabled(s, BeginTask) && !Enabled(s, EndTask);
    }
  }

  /** Every send is reported in the end exactly if all lengths fit in 16 bits. */
  lemma AllReportedIff(steps: seq<Step>, s: State)
    requires Reached(steps, s) && Quiet(s) && s.halted != QueueFull
    ensures s.done == s.accepted <==> AllSendable(s.accepted)
  {
    Completion(steps, s);
    PrefixOfSendable(s.accepted, s.accepted[..|s.done|]);
    if AllSendable(s.accepted) { PrefixOfSendable(s.accepted, s.accepted); }
  }

  /** A bound on the steps there can be before the next send. */
  function Rank(s: State): (r: int)
    ensures Inv(s) ==> r >= 0
  {
    if s.halted != NotHalted then 0
    else 4 * |s.queue| + 2 * |s.tasks| + (if s.current.Some? then 1 else 0) - (if s.dma == Running then 1 else 0)
  }

  predicate AllInternal(steps: seq<Step>) { forall i | 0 <= i < |steps| :: Internal(steps[i]) }

  lemma {:induction false} InternalStepsEnd(s: State, steps: seq<Step>, t: State)
    requires Inv(s) && Leads(s, steps, t) && AllInternal(steps)
    ensures t.accepted == s.accepted && |steps| <= Rank(s) - Rank(t)
    decreases |steps|
  {
    if steps != [] {
      var front, step := steps[..|steps| - 1], steps[|steps| - 1];
      var u :| Leads(s, front, u) && Enabled(u, step) && t == Apply(u, step);
      InternalStepsEnd(s, front, u);
      LeadsKeeps(s, front, u);
      StepKeeps(u, step);
      RankFalls(u, step);
    }
  }

  lemma RankFalls(s: State, step: Step)
    requires Inv(s) && Enabled(s, step) && Internal(step)
    ensures Rank(Apply(s, step)) < Rank(s) && Apply(s, step).accepted == s.accepted
  {
  }

  lemma OneMore(s: State, steps: seq<Step>, u: State, step: Step)
    requires Leads(s, steps, u) && Enabled(u, step)
    ensures Leads(s, steps + [step], Apply(u, step))
  {
    assert (steps + [step])[..|steps|] == steps;
    assert Leads(s, (steps + [step])[..|steps|], u);
  }

  /** From every state of a run the driver, left alone, comes to rest within Rank(s) steps,
      whatever their order; then it has reported all it accepted up to a buffer that is too long. */
  lemma ComesToRest(steps: seq<Step>, s: State) returns (more: seq<Step>, t: State)
    requires Reached(steps, s)
    ensures Leads(s, more, t) && AllInternal(more) && Quiet(t) && |more| <= Rank(s)
    ensures t.accepted == s.accepted && (t.halted != QueueFull ==> t.done == SendablePrefix(s.accepted))
  {
    RunKeeps(steps, s);
    more, t := [], s;
    var all := steps;
    while !Quiet(t)
      invariant Leads(s, more, t) && AllInternal(more) && Inv(t) && Reached(all, t)
      decreases Rank(t)
    {
      var step :| step in {Grant, DmaEnd, BeginTask, EndTask} && Enabled(t, step);
      OneMore(s, more, t, step);
      OneMore(INIT, all, t, step);
      StepKeeps(t, step);
      RankFalls(t, step);
      more, all, t := more + [step], all + [step], Apply(t, step);
    }
    InternalStepsEnd(s, more, t);
    Completion(all, t);
  }

  /** One send of 65536 bytes is accepted and never reported, nor is any send after it. */
  lemma LongSendBlocks(long: Info, next: Info) returns (steps: seq<Step>, s: State)
    requires long.numBytes == WORD && 0 < next.numBytes < WORD
    ensures Reached(steps, s) && Quiet(s) && s.accepted == [long, next] && s.done == [] && s.halted == NotHalted
  {
    var s1 := Apply(INIT, Send(long));
    s := Apply(s1, Send(next));
    steps := [] + [Send(long)] + [Send(next)];
    OneMore(INIT, [], INIT, Send(long));
    OneMore(INIT, [] + [Send(long)], s1, Send(next));
  }
}
