/** What every run of the synchronous serial port keeps. */
module SspProtocol {
  import opened SspSpec

  predicate Flags(s: State, m: Mode) {
    s.portInUse && s.fullDuplex == (m == Duplex) && s.halfDuplexTx == (m == Transmitting)
  }

  /** How the flags, the pending grants and the channels show the phase. */
  predicate Matches(p: Phase, s: State) {
    match p
    case Shut =>
      && !s.portInUse && !s.fullDuplex && !s.halfDuplexTx && !s.rx.ready && !s.tx.ready && !s.rx.done && !s.tx.done
      && s.rx.grants == 0 && s.tx.grants == 0 && !s.rx.runs && !s.tx.runs
    case Waiting(m, b, r, t) =>
      && Flags(s, m) && Given(s, m) == b && !(r && t) && s.rx.grants == (if r then 0 else 1)
         && s.tx.grants == (if t then 0 else 1)
      && !s.rx.runs && !s.tx.runs && !s.rx.done && !s.tx.done
      && s.rx.ready == r && s.tx.ready == (t && m != Receiving) && (m == Receiving ==> t)
    case Busy(m, b, r, t) =>
      && Flags(s, m) && Given(s, m) == b && s.rx.grants == 0 && s.tx.grants == 0 && s.rx.runs == !r && s.tx.runs == !t
      && (if m == Receiving then t && !s.tx.done && !s.tx.ready else s.rx.done == r && s.tx.done == t && !(r && t))
    case _ => false
  }

  /** The log follows the protocol, unless the receive-without-transmit mode disturbed it. */
  predicate Inv(s: State) {
    if s.disturbed then PhaseAfter(s.log) == Broken else Matches(PhaseAfter(s.log), s)
  }

  lemma OpenKeeps(s: State, mode: Mode, buf: nat)
    requires Inv(s)
    ensures Inv(OpenStep(s, mode, buf))
  {
    hide PhaseAfter;
    PhaseStep(s.log, Opened(mode, buf));
  }

  lemma TryKeeps(s: State)
    requires if s.disturbed then PhaseAfter(s.log) == Broken
             else PhaseAfter(s.log).Waiting? && PhaseAfter(s.log).mode != Receiving &&
                  (Matches(PhaseAfter(s.log), s) ||
                   (Flags(s, PhaseAfter(s.log).mode) && Given(s, PhaseAfter(s.log).mode) == PhaseAfter(s.log).buf
                    && PhaseAfter(s.log).rxGranted && PhaseAfter(s.log).txGranted &&
                    s.rx.grants == 0 && s.tx.grants == 0 && s.rx.ready && s.tx.ready && !s.rx.done && !s.tx.done))
    ensures Inv(TryFullDuplex(s))
  {
    hide PhaseAfter;
    PhaseStep(s.log, Started);
  }

  lemma RxGrantKeeps(s: State)
    requires Inv(s) && s.rx.grants > 0
    ensures Inv(RxGrantStep(s))
  {
    hide PhaseAfter, TryFullDuplex;
    var s1 := Log(s.(rx := s.rx.(grants := s.rx.grants - 1)), RxGranted);
    PhaseStep(s.log, RxGranted);
    if s.fullDuplex || s.halfDuplexTx {
      TryKeeps(s1.(rx := s1.rx.(ready := true)));
    } else {
      PhaseStep(s1.log, Started);
    }
  }

  lemma TxGrantKeeps(s: State)
    requires Inv(s) && s.tx.grants > 0
    ensures Inv(TxGrantStep(s))
  {
    hide PhaseAfter, TryFullDuplex;
    PhaseStep(s.log, TxGranted);
    TryKeeps(Log(s.(tx := s.tx.(grants := s.tx.grants - 1, ready := true)), TxGranted));
  }

  lemma Gave(s: State, mode: Mode, buf: nat)
    ensures var t := Give(s, mode, buf);
            && Given(t, mode) == buf && Flags(t, mode) == Flags(s, mode)
            && t.rx.grants == s.rx.grants && t.tx.grants == s.tx.grants && t.rx.runs == s.rx.runs
               && t.tx.runs == s.tx.runs
  {
  }

  lemma FlagsLog(s: State, e: Event, mode: Mode)
    ensures Flags(Log(s, e), mode) == Flags(s, mode)
  {
  }

  lemma CloseKeeps(s: State, mode: Mode, answer: Answer)
    requires if s.disturbed then PhaseAfter(s.log) == Broken
             else && PhaseAfter(s.log) == Answered(mode, answer) && !answer.More(mode)
                  && s.rx.grants == 0 && s.tx.grants == 0 && !s.rx.runs && !s.tx.runs
    ensures Inv(Close(s)) && Close(s).disturbed == s.disturbed
  {
    hide PhaseAfter;
    PhaseStep(s.log, Closed);
  }

  lemma ResumeKeeps(s: State, mode: Mode, answer: Answer)
    requires mode != Receiving
    requires if s.disturbed then PhaseAfter(s.log) == Broken
             else && PhaseAfter(s.log) == Answered(mode, answer) && answer.More(mode)
                  && s.rx.grants == 0 && s.tx.grants == 0
                  && Flags(s, mode) && Given(s, mode) == answer.buf
    ensures Inv(Resume(s))
  {
    hide PhaseAfter;
    PhaseStep(s.log, Started);
  }

  lemma CompleteKeeps(s: State, mode: Mode, answer: Answer)
    requires mode != Receiving
    requires if s.disturbed then PhaseAfter(s.log) == Broken
             else && PhaseAfter(s.log) == Busy(mode, Given(s, mode), true, true) && Flags(s, mode)
                  && s.rx.grants == 0 && s.tx.grants == 0 && !s.rx.runs && !s.tx.runs
    ensures Inv(Complete(s, mode, answer)) && Complete(s, mode, answer).disturbed == s.disturbed
  {
    hide PhaseAfter, Answer.More, Matches, Close, Give, Given, Flags;
    var s1 := Give(Log(s, Signalled(mode, Given(s, mode), answer)), mode, answer.buf);
    Gave(Log(s, Signalled(mode, Given(s, mode), answer)), mode, answer.buf);
    var told := Signalled(mode, Given(s, mode), answer);
    assert Flags(Log(s, told), mode) == Flags(s, mode) by { FlagsLog(s, told, mode); }
    PhaseStep(s.log, Signalled(mode, Given(s, mode), answer));
    assert s.disturbed || PhaseAfter(s1.log) == Answered(mode, answer);
    if answer.More(mode) {
      ResumeKeeps(s1, mode, answer);
    } else {
      CloseKeeps(s1, mode, answer);
    }
  }

  /** One direction has ended. */
  predicate HalfEnded(s: State) {
    if s.disturbed then PhaseAfter(s.log) == Broken
    else
      var p := PhaseAfter(s.log);
      && p.Busy? && Flags(s, p.mode) && Given(s, p.mode) == p.buf && s.rx.grants == 0 && s.tx.grants == 0
         && s.rx.runs == !p.rxEnded && s.tx.runs == !p.txEnded
      && (if p.mode == Receiving then p.txEnded && !s.tx.done && !s.tx.ready
          else s.rx.done == p.rxEnded && s.tx.done == p.txEnded)
  }

  lemma HelperKeeps(s: State, answer: Answer)
    requires HalfEnded(s)
    ensures Inv(Helper(s, answer).0) && Helper(s, answer).0.disturbed == s.disturbed
    ensures !s.disturbed && PhaseAfter(s.log).mode != Receiving && !Helper(s, answer).1 ==>
              Helper(s, answer).0.fullDuplex || Helper(s, answer).0.halfDuplexTx
  {
    hide PhaseAfter, Complete, Answer.More;
    if s.tx.done && s.rx.done && s.fullDuplex {
      CompleteKeeps(s, Duplex, answer);
    } else if s.tx.done && s.rx.done && s.halfDuplexTx {
      CompleteKeeps(s, Transmitting, answer);
    }
  }

  lemma RxEndKeeps(s: State, answer: Answer)
    requires Inv(s) && s.rx.runs
    ensures Inv(RxEndStep(s, answer))
  {
    hide PhaseAfter, Helper;
    var s1 := RxEnds(s);
    PhaseStep(s.log, RxEnded);
    if s.receiveWithoutTransmit {
      var s2 := Log(s1, Signalled(Receiving, s.rx.buffer, answer));
      PhaseStep(s1.log, Signalled(Receiving, s.rx.buffer, answer));
      PhaseStep(s2.log, Started);
      PhaseStep(s2.log, Closed);
    } else {
      HelperKeeps(s1, answer);
    }
  }

  lemma TxEndKeeps(s: State, answer: Answer)
    requires Inv(s) && s.tx.runs
    ensures Inv(TxEndStep(s, answer))
  {
    hide PhaseAfter, Helper, Answer.More;
    var s1 := TxEnds(s);
    PhaseStep(s.log, TxEnded);
    HelperKeeps(s1, answer);
    PhaseStep(Helper(s1, answer).0.log, Closed);
  }

  lemma StepKeeps(s: State, step: Step)
    requires Inv(s) && Enabled(s, step)
    ensures Inv(Apply(s, step))
  {
    hide PhaseAfter, Matches, OpenStep, RxGrantStep, TxGrantStep, RxEndStep, TxEndStep;
    match step {
      case Open(mode, buf) => OpenKeeps(s, mode, buf);
      case Configure(enable) => ConfigureKeeps(s, enable);
      case RxGrant => RxGrantKeeps(s);
      case TxGrant => TxGrantKeeps(s);
      case RxEnd(answer) => RxEndKeeps(s, answer);
      case TxEnd(answer) => TxEndKeeps(s, answer);
    }
  }

  lemma ConfigureKeeps(s: State, enable: bool)
    requires Inv(s)
    ensures Inv(s.(receiveWithoutTransmit := enable))
  {
    hide PhaseAfter;
  }

  // ---- runs -----------------------------------------------------------------------------------

  ghost predicate Leads(s: State, steps: seq<Step>, t: State)
    decreases |steps|
  {
    if steps == [] then t == s
    else
      var front, step := steps[..|steps| - 1], steps[|steps| - 1];
      exists u :: Leads(s, front, u) && Enabled(u, step) && t == Apply(u, step)
  }

  ghost predicate Reached(steps: seq<Step>, s: State) { Leads(INIT, steps, s) }

  lemma {:induction false} RunKeeps(steps: seq<Step>, s: State)
    requires Reached(steps, s)
    ensures Inv(s)
    decreases |steps|
  {
    if steps != [] {
      var front, step := steps[..|steps| - 1], steps[|steps| - 1];
      var u :| Leads(INIT, front, u) && Enabled(u, step) && s == Apply(u, step);
      RunKeeps(front, u);
      StepKeeps(u, step);
    }
  }

  /** In every run the port follows the protocol exactly if no transfer with a transmit half
      had its Rx end while receive-without-transmit was set. */
  lemma FollowsProtocolIff(steps: seq<Step>, s: State)
    requires Reached(steps, s)
    ensures PhaseAfter(s.log) != Broken <==> !s.disturbed
  {
    RunKeeps(steps, s);
  }

  /** What the client's answer calls for. */
  function Called(mode: Mode, a: Answer): Event {
    match mode
    case Receiving => if a.buf != 0 then Started else Closed
    case Transmitting => if a.buf != 0 then Started else Closed
    case Duplex => if a.buf != 0 && a.rx != 0 && a.tx != 0 then Started else Closed
  }

  ghost predicate AnswersDecide(log: seq<Event>) {
    forall i | 0 <= i < |log| && log[i].Signalled? ::
      i + 1 < |log| && log[i + 1] == Called(log[i].mode, log[i].answer)
  }

  lemma DecidesOne(log: seq<Event>, e: Event)
    requires AnswersDecide(log) && !e.Signalled?
    ensures AnswersDecide(log + [e])
  {
  }

  lemma DecidesTwo(log: seq<Event>, e: Event, f: Event)
    requires AnswersDecide(log) && e.Signalled? && f == Called(e.mode, e.answer)
    ensures AnswersDecide(log + [e] + [f])
  {
  }

  lemma {:induction false} AnswersFollow(log: seq<Event>)
    requires PhaseAfter(log) != Broken && !PhaseAfter(log).Answered?
    ensures AnswersDecide(log)
    decreases |log|
  {
    if log != [] {
      var front, last := log[..|log| - 1], log[|log| - 1];
      assert log == front + [last];
      hide AnswersDecide;
      if PhaseAfter(front).Answered? {
        var base, told := front[..|front| - 1], front[|front| - 1];
        assert front == base + [told];
        AnswersFollow(base);
        DecidesTwo(base, told, last);
      } else {
        AnswersFollow(front);
        DecidesOne(front, last);
      }
    } else {
      assert AnswersDecide([]);
    }
  }

  /** In every undisturbed run each signal is followed at once by the next transfer, if the
      client's answer has the buffers for it, or else by the end of the connection. */
  lemma NextTransferIff(steps: seq<Step>, s: State)
    requires Reached(steps, s) && !s.disturbed
    ensures AnswersDecide(s.log)
  {
    RunKeeps(steps, s);
    hide Reached;
    assert !PhaseAfter(s.log).Answered?;
    AnswersFollow(s.log);
  }

  /** What the mode was last set to. */
  predicate LastConfigured(steps: seq<Step>) {
    if steps == [] then false
    else
      var step := steps[|steps| - 1];
      if step.Configure? then step.enable else LastConfigured(steps[..|steps| - 1])
  }

  lemma CompleteConfigures(s: State, mode: Mode, answer: Answer)
    ensures Complete(s, mode, answer).receiveWithoutTransmit == s.receiveWithoutTransmit
  {
  }

  lemma HelperConfigures(s: State, answer: Answer)
    ensures Helper(s, answer).0.receiveWithoutTransmit == s.receiveWithoutTransmit
  {
    hide Complete;
    CompleteConfigures(s, Duplex, answer);
    CompleteConfigures(s, Transmitting, answer);
  }

  lemma RxEndConfigures(s: State, answer: Answer)
    ensures RxEndStep(s, answer).receiveWithoutTransmit == s.receiveWithoutTransmit
  {
    hide Helper;
    HelperConfigures(RxEnds(s), answer);
  }

  lemma TxEndConfigures(s: State, answer: Answer)
    ensures TxEndStep(s, answer).receiveWithoutTransmit == s.receiveWithoutTransmit
  {
    hide Helper;
    HelperConfigures(TxEnds(s), answer);
  }

  lemma StepConfigures(s: State, step: Step)
    requires Enabled(s, step)
    ensures Apply(s, step).receiveWithoutTransmit == if step.Configure? then step.enable else s.receiveWithoutTransmit
  {
    hide RxEndStep, TxEndStep;
    match step
    case RxEnd(answer) => RxEndConfigures(s, answer);
    case TxEnd(answer) => TxEndConfigures(s, answer);
    case _ =>
  }

  lemma {:induction false} LastConfiguredIs(steps: seq<Step>, s: State)
    requires Reached(steps, s)
    ensures s.receiveWithoutTransmit == LastConfigured(steps)
    decreases |steps|
  {
    if steps != [] {
      var front, step := steps[..|steps| - 1], steps[|steps| - 1];
      var u :| Leads(INIT, front, u) && Enabled(u, step) && s == Apply(u, step);
      hide Apply, Enabled;
      LastConfiguredIs(front, u);
      StepConfigures(u, step);
    }
  }

  lemma {:induction false} ShutIff(log: seq<Event>)
    requires PhaseAfter(log) != Broken
    ensures PhaseAfter(log) == Shut <==> log == [] || log[|log| - 1] == Closed
    ensures log != [] ==> PhaseAfter(log[..|log| - 1]) != Broken
  {
    if log != [] { ShutIff(log[..|log| - 1]); }
  }

  /** In every undisturbed run the port opens exactly when it has been closed, unless it would
      transmit in receive-without-transmit mode; and a refusal changes nothing. */
  lemma OpensIff(steps: seq<Step>, s: State, mode: Mode, buf: nat)
    requires Reached(steps, s) && !s.disturbed
    ensures var t := Apply(s, Open(mode, buf));
            if (s.log == [] || s.log[|s.log| - 1] == Closed) && (LastConfigured(steps) ==> mode == Receiving)
            then && t.log == s.log + [Opened(mode, buf)]
                 && PhaseAfter(t.log) == Waiting(mode, buf, false, mode == Receiving)
            else t == s
  {
    RunKeeps(steps, s);
    LastConfiguredIs(steps, s);
    ShutIff(s.log);
    hide Reached, LastConfigured, PhaseAfter;
    PhaseStep(s.log, Opened(mode, buf));
  }

  /** Receive-without-transmit is set only while the port is not in use. */
  ghost predicate Calm(steps: seq<Step>) {
    forall i, u | 0 <= i < |steps| && steps[i] == Configure(true) && Reached(steps[..i], u) :: !u.portInUse
  }

  /** Then no run is disturbed. */
  lemma {:induction false} CalmRuns(steps: seq<Step>, s: State)
    requires Reached(steps, s) && Calm(steps)
    ensures !s.disturbed && (s.fullDuplex || s.halfDuplexTx ==> !s.receiveWithoutTransmit)
    decreases |steps|
  {
    if steps != [] {
      var front, step := steps[..|steps| - 1], steps[|steps| - 1];
      var u :| Leads(INIT, front, u) && Enabled(u, step) && s == Apply(u, step);
      hide Leads, Apply, Enabled, Inv;
      CalmFront(steps);
      CalmRuns(front, u);
      RunKeeps(front, u);
      assert Reached(steps[..|steps| - 1], u);
      CalmStep(u, step);
    }
  }

  lemma CalmFront(steps: seq<Step>)
    requires Calm(steps) && steps != []
    ensures Calm(steps[..|steps| - 1])
  {
    hide Reached;
    var front := steps[..|steps| - 1];
    forall i, v | 0 <= i < |front| && front[i] == Configure(true) && Reached(front[..i], v) ensures !v.portInUse {
      assert front[..i] == steps[..i];
    }
  }

  lemma CalmStep(s: State, step: Step)
    requires Inv(s) && Enabled(s, step) && !s.disturbed
             && (s.fullDuplex || s.halfDuplexTx ==> !s.receiveWithoutTransmit)
    requires step == Configure(true) ==> !s.portInUse
    ensures !Apply(s, step).disturbed
    ensures Apply(s, step).fullDuplex || Apply(s, step).halfDuplexTx ==> !Apply(s, step).receiveWithoutTransmit
  {
    hide PhaseAfter;
  }

  /** A transmission under way. */
  function Transmission(buf: nat): State {
    State(true, false, true, false, Half(true, false, 0, 0, true), Half(true, false, buf, 0, true), 0,
          [Opened(Transmitting, buf), TxGranted, RxGranted, Started], false)
  }

  lemma TransmissionIsReached(buf: nat) returns (steps: seq<Step>)
    ensures Reached(steps, Transmission(buf))
  {
    var s1 := Apply(INIT, Open(Transmitting, buf));
    var s2 := Apply(s1, TxGrant);
    OneMore([], INIT, Open(Transmitting, buf));
    OneMore([] + [Open(Transmitting, buf)], s1, TxGrant);
    OneMore([] + [Open(Transmitting, buf)] + [TxGrant], s2, RxGrant);
    steps := [] + [Open(Transmitting, buf)] + [TxGrant] + [RxGrant];
    assert Apply(s2, RxGrant) == Transmission(buf);
  }

  /** Set in the middle of a transmission, it lets the Rx end close the port while the
      transmit channel still runs, and the transmission is never signalled. */
  lemma SetDuringTransmit(buf: nat, none: Answer) returns (steps: seq<Step>, s: State)
    requires none.buf == 0
    ensures Reached(steps, s) && s.disturbed && !s.portInUse && s.tx.runs
    ensures forall e | e in s.log :: e.Signalled? ==> e.mode != Transmitting
  {
    hide Reached;
    var before := TransmissionIsReached(buf);
    var s4 := Apply(Transmission(buf), Configure(true));
    s := Apply(s4, RxEnd(none));
    OneMore(before, Transmission(buf), Configure(true));
    OneMore(before + [Configure(true)], s4, RxEnd(none));
    steps := before + [Configure(true)] + [RxEnd(none)];
  }

  lemma OneMore(steps: seq<Step>, u: State, step: Step)
    requires Reached(steps, u) && Enabled(u, step)
    ensures Reached(steps + [step], Apply(u, step))
  {
    assert (steps + [step])[..|steps|] == steps;
    assert Leads(INIT, (steps + [step])[..|steps|], u);
  }

  // ---- rounds ---------------------------------------------------------------------------------

  function Count(log: seq<Event>, which: Event -> bool): nat {
    if log == [] then 0 else Count(log[..|log| - 1], which) + if which(log[|log| - 1]) then 1 else 0
  }

  function Starts(log: seq<Event>): nat { Count(log, (e: Event) => e.Started?) }

  function Signals(log: seq<Event>): nat { Count(log, (e: Event) => e.Signalled?) }

  function Opens(log: seq<Event>): nat { Count(log, (e: Event) => e.Opened?) }

  function Closes(log: seq<Event>): nat { Count(log, (e: Event) => e.Closed?) }

  /** Each transfer that started is signalled once, and until then no other starts; the port
      is closed once for each time it was opened. */
  lemma {:induction false} RoundsAreSignalled(log: seq<Event>)
    requires PhaseAfter(log) != Broken
    ensures Starts(log) == Signals(log) + if PhaseAfter(log).Busy? then 1 else 0
    ensures Opens(log) == Closes(log) + if PhaseAfter(log).Shut? then 0 else 1
  {
    if log != [] {
      RoundsAreSignalled(log[..|log| - 1]);
    }
  }

  /** So in every run: done signals never outnumber the transfers, and the port is in use
      until the client has returned no buffer. */
  lemma SignalledOnce(steps: seq<Step>, s: State)
    requires Reached(steps, s) && !s.disturbed
    ensures Starts(s.log) == Signals(s.log) +
              if s.rx.runs || s.tx.runs || (s.portInUse && s.rx.grants + s.tx.grants == 0) then 1 else 0
    ensures Opens(s.log) == Closes(s.log) + if s.portInUse then 1 else 0
  {
    RunKeeps(steps, s);
    RoundsAreSignalled(s.log);
  }

  // ---- progress ---------------------------------------------------------------------------------

  predicate Internal(step: Step) { !step.Open? && !step.Configure? }

  /** The grants and ends that are to come before the transfer is signalled. */
  function Rank(s: State): nat {
    3 * (s.rx.grants + s.tx.grants) + (if s.rx.runs then 1 else 0) + if s.tx.runs then 1 else 0
  }

  lemma SignalsStep(log: seq<Event>, e: Event)
    ensures Signals(log + [e]) == Signals(log) + if e.Signalled? then 1 else 0
  {
    assert (log + [e])[..|log|] == log;
  }

  lemma CompleteSignals(s: State, mode: Mode, answer: Answer)
    ensures Signals(Complete(s, mode, answer).log) == Signals(s.log) + 1
  {
    hide Signals, Give, Given, Answer.More;
    var e := Signalled(mode, Given(s, mode), answer);
    SignalsStep(s.log, e);
    SignalsStep(s.log + [e], Started);
    SignalsStep(s.log + [e], Closed);
  }

  lemma HelperSignals(s: State, answer: Answer)
    ensures var (t, ok) := Helper(s, answer);
            if ok then Signals(t.log) == Signals(s.log) + 1 else t == s
  {
    hide Signals, Complete;
    CompleteSignals(s, Duplex, answer);
    CompleteSignals(s, Transmitting, answer);
  }

  lemma RxEndSignals(s: State, answer: Answer)
    ensures var t := RxEndStep(s, answer);
            && Signals(s.log) <= Signals(t.log) <= Signals(s.log) + 1
            && (s.receiveWithoutTransmit ==> Signals(t.log) == Signals(s.log) + 1)
            && (!s.receiveWithoutTransmit && Signals(t.log) == Signals(s.log) ==>
                  t == RxEnds(s))
  {
    hide Signals, Helper, Answer.More;
    var s1 := RxEnds(s);
    SignalsStep(s.log, RxEnded);
    HelperSignals(s1, answer);
    var e := Signalled(Receiving, s.rx.buffer, answer);
    SignalsStep(s1.log, e);
    SignalsStep(s1.log + [e], Started);
    SignalsStep(s1.log + [e], Closed);
  }

  lemma TxEndSignals(s: State, answer: Answer)
    requires s.fullDuplex || s.halfDuplexTx
    ensures var t := TxEndStep(s, answer);
            Signals(t.log) == Signals(s.log) + 1 || t == TxEnds(s)
  {
    hide Signals, Helper;
    SignalsStep(s.log, TxEnded);
    HelperSignals(TxEnds(s), answer);
  }

  /** Every grant and every end of DMA brings the signal nearer, or is the signal. */
  lemma NearerToSignal(steps: seq<Step>, s: State, step: Step)
    requires Reached(steps, s) && !s.disturbed && Enabled(s, step) && Internal(step)
    ensures Rank(Apply(s, step)) < Rank(s) <= 6 || Signals(Apply(s, step).log) == Signals(s.log) + 1
  {
    RunKeeps(steps, s);
    RankBound(s);
    hide Signals, Inv, PhaseAfter, RxEndStep, TxEndStep;
    match step {
      case RxGrant =>
      case TxGrant =>
      case RxEnd(answer) => RxEndSignals(s, answer);
      case TxEnd(answer) => TxEndSignals(s, answer);
    }
  }

  lemma RankBound(s: State)
    requires Inv(s) && !s.disturbed
    ensures Rank(s) <= 6
    ensures s.tx.runs ==> s.fullDuplex || s.halfDuplexTx
    ensures s.rx.grants > 0 || s.tx.grants > 0 ==> !s.rx.runs && !s.tx.runs
  {
    hide PhaseAfter;
  }

  /** The receive whose end found receive-without-transmit off: it is never signalled. */
  predicate StuckReceive(s: State) { PhaseAfter(s.log) == Busy(Receiving, s.rx.buffer, true, true) }

  /** A port in use always has a grant or an end of DMA to come, but for a stuck receive. */
  lemma OnlyReceivesStick(steps: seq<Step>, s: State)
    requires Reached(steps, s) && !s.disturbed
    ensures s.portInUse && Rank(s) == 0 <==> StuckReceive(s)
  {
    RunKeeps(steps, s);
  }

  /** The end of a receive is signalled exactly if receive-without-transmit is set; else the
      port stays in use whatever happens afterwards. */
  lemma ReceiveCompletesIff(steps: seq<Step>, s: State, answer: Answer)
    requires Reached(steps, s) && !s.disturbed && PhaseAfter(s.log) == Busy(Receiving, s.rx.buffer, false, true)
    ensures Enabled(s, RxEnd(answer))
    ensures Signals(RxEndStep(s, answer).log) == Signals(s.log) + if s.receiveWithoutTransmit then 1 else 0
    ensures StuckReceive(RxEndStep(s, answer)) <==> !s.receiveWithoutTransmit
  {
    RunKeeps(steps, s);
    EndOfReceive(s);
    hide Reached, Inv;
    if s.receiveWithoutTransmit { ReceiveIsSignalled(s, answer); } else { ReceiveSticks(s, answer); }
  }

  lemma ReceiveIsSignalled(s: State, answer: Answer)
    requires s.rx.runs && s.receiveWithoutTransmit && PhaseAfter(s.log) == Busy(Receiving, s.rx.buffer, false, true)
    ensures Signals(RxEndStep(s, answer).log) == Signals(s.log) + 1 && !StuckReceive(RxEndStep(s, answer))
  {
    hide PhaseAfter, Signals, Answer.More;
    RxEndSignals(s, answer);
    EndKeeps(s.log, RxEnded, Signalled(Receiving, s.rx.buffer, answer));
  }

  lemma ReceiveSticks(s: State, answer: Answer)
    requires s.rx.runs && !s.tx.done && !s.receiveWithoutTransmit
    requires PhaseAfter(s.log) == Busy(Receiving, s.rx.buffer, false, true)
    ensures Signals(RxEndStep(s, answer).log) == Signals(s.log) && StuckReceive(RxEndStep(s, answer))
  {
    hide PhaseAfter, Signals, Complete;
    SignalsStep(s.log, RxEnded);
    PhaseStep(s.log, RxEnded);
  }

  lemma EndOfReceive(s: State)
    requires Inv(s) && !s.disturbed && PhaseAfter(s.log) == Busy(Receiving, s.rx.buffer, false, true)
    ensures s.rx.runs && !s.tx.done
  {
    hide PhaseAfter;
  }

  lemma EndKeeps(log: seq<Event>, e: Event, f: Event)
    ensures var p := PhaseAfter(log);
            && PhaseAfter(log + [e] + [f] + [Started]) == Next(Next(Next(p, e), f), Started)
            && PhaseAfter(log + [e] + [f] + [Closed]) == Next(Next(Next(p, e), f), Closed)
  {
    hide PhaseAfter, Next;
    PhaseStep(log, e);
    PhaseStep(log + [e], f);
    PhaseStep(log + [e] + [f], Started);
    PhaseStep(log + [e] + [f], Closed);
  }

  lemma {:induction false} StuckForever(s: State, more: seq<Step>, t: State)
    requires Inv(s) && StuckReceive(s) && Leads(s, more, t)
    ensures Inv(t) && t.log == s.log && t.portInUse
    decreases |more|
  {
    if more != [] {
      var front, step := more[..|more| - 1], more[|more| - 1];
      var u :| Leads(s, front, u) && Enabled(u, step) && t == Apply(u, step);
      StuckForever(s, front, u);
      StepKeeps(u, step);
    }
  }
}
