/** The synchronous serial port's bulk transfers as a state machine: commands, grants of DMA
    channels (tasks) and ends of DMA transfers (interrupts), in any order. */
module SspSpec {

  datatype Mode = Receiving | Transmitting | Duplex

  /** What the client returns from a completion: buffers, where 0 is null. */
  datatype Answer = Answer(buf: nat, rx: nat, tx: nat) {
    predicate More(mode: Mode) { buf != 0 && (mode == Duplex ==> rx != 0 && tx != 0) }
  }

  /** What can be seen of a run from outside. */
  datatype Event =
    | Opened(mode: Mode, buf: nat)
    | RxGranted
    | TxGranted
    | Started
    | RxEnded
    | TxEnded
    | Signalled(mode: Mode, buf: nat, answer: Answer)
    | Closed

  /** One direction: its flags and buffer, and what the DMA controller has for it, a posted
      grant and a channel that runs. */
  datatype Half = Half(ready: bool, done: bool, buffer: nat, grants: nat, runs: bool)

  datatype State = State(
    portInUse: bool, fullDuplex: bool, halfDuplexTx: bool, receiveWithoutTransmit: bool,
    rx: Half, tx: Half, txRxBuffer: nat,
    log: seq<Event>,
    /* an Rx end in a transfer with a transmit half found receive-without-transmit set */
    disturbed: bool)

  datatype Step =
    | Open(mode: Mode, buf: nat)
    | Configure(enable: bool)
    | RxGrant
    | TxGrant
    | RxEnd(answer: Answer)
    | TxEnd(answer: Answer)

  const OFF := Half(false, false, 0, 0, false)
  const INIT := State(false, false, false, false, OFF, OFF, 0, [], false)

  function Log(s: State, e: Event): State { s.(log := s.log + [e]) }

  /** BulkReceive, BulkTransmit and BulkTxRx; refused while the port is in use, and for
      transmissions in receive-without-transmit mode. */
  predicate Refused(s: State, mode: Mode) {
    s.portInUse || (mode != Receiving && s.receiveWithoutTransmit)
  }

  function Give(s: State, mode: Mode, buf: nat): (t: State)
    ensures t.log == s.log && t.disturbed == s.disturbed
  {
    match mode
    case Receiving => s.(rx := s.rx.(buffer := buf))
    case Transmitting => s.(tx := s.tx.(buffer := buf))
    case Duplex => s.(txRxBuffer := buf)
  }

  function Given(s: State, mode: Mode): nat {
    match mode
    case Receiving => s.rx.buffer
    case Transmitting => s.tx.buffer
    case Duplex => s.txRxBuffer
  }

  function Request(h: Half): Half { h.(grants := h.grants + 1) }

  function Reset(h: Half): Half { h.(ready := false, done := false) }

  function OpenStep(s: State, mode: Mode, buf: nat): State {
    if Refused(s, mode) then s else Begin(s.(portInUse := true), mode, buf)
  }

  /** The mode and the buffer are noted, and the channels asked for. */
  function Begin(s: State, mode: Mode, buf: nat): State {
    var s1 := Log(Give(s, mode, buf).(fullDuplex := mode == Duplex, halfDuplexTx := mode == Transmitting),
                  Opened(mode, buf));
    if mode == Receiving then s1.(rx := Request(s1.rx))
    else s1.(rx := Request(Reset(s1.rx)), tx := Request(Reset(s1.tx)))
  }

  function TryFullDuplex(s: State): State {
    if s.tx.ready && s.rx.ready then Log(s.(rx := s.rx.(runs := true), tx := s.tx.(runs := true)), Started) else s
  }

  function RxGrantStep(s: State): State
    requires s.rx.grants > 0
  {
    var s1 := Log(s.(rx := s.rx.(grants := s.rx.grants - 1)), RxGranted);
    if s.fullDuplex || s.halfDuplexTx then TryFullDuplex(s1.(rx := s1.rx.(ready := true)))
    else RunRx(s1)
  }

  function TxGrantStep(s: State): State
    requires s.tx.grants > 0
  {
    TryFullDuplex(Log(s.(tx := s.tx.(grants := s.tx.grants - 1, ready := true)), TxGranted))
  }

  /** closePort clears the flags and buffers; the controller keeps what it has. */
  function Clear(h: Half): Half { Reset(h).(buffer := 0) }

  function Close(s: State): State {
    Log(s.(portInUse := false, fullDuplex := false, halfDuplexTx := false, rx := Clear(s.rx), tx := Clear(s.tx),
           txRxBuffer := 0), Closed)
  }

  /** The next transfer on the same channels. */
  function Resume(s: State): State {
    Log(s.(rx := s.rx.(done := false, runs := true), tx := s.tx.(done := false, runs := true)), Started)
  }

  /** Both directions are done: the client is told, and gives new buffers or none. */
  function Complete(s: State, mode: Mode, answer: Answer): State {
    var s1 := Give(Log(s, Signalled(mode, Given(s, mode), answer)), mode, answer.buf);
    if answer.More(mode) then Resume(s1) else Close(s1)
  }

  /** The helper of the end interrupts; whether it did anything. */
  function Helper(s: State, answer: Answer): (State, bool) {
    if s.tx.done && s.rx.done && s.fullDuplex then (Complete(s, Duplex, answer), true)
    else if s.tx.done && s.rx.done && s.halfDuplexTx then (Complete(s, Transmitting, answer), true)
    else (s, false)
  }

  function RxEnds(s: State): State { Log(s.(rx := s.rx.(runs := false, done := true)), RxEnded) }

  function TxEnds(s: State): State { Log(s.(tx := s.tx.(runs := false, done := true)), TxEnded) }

  /** In receive-without-transmit mode the client is told of every Rx end. */
  function ReceiveDone(s: State, answer: Answer): State {
    var s1 := TellReceiver(s, answer);
    if answer.More(Receiving) then RunRx(s1) else Close(s1)
  }

  function TellReceiver(s: State, answer: Answer): State {
    Log(s.(rx := s.rx.(buffer := answer.buf), disturbed := s.disturbed || s.fullDuplex || s.halfDuplexTx),
        Signalled(Receiving, s.rx.buffer, answer))
  }

  function RunRx(s: State): State { Log(s.(rx := s.rx.(runs := true)), Started) }

  function RxEndStep(s: State, answer: Answer): State {
    if s.receiveWithoutTransmit then ReceiveDone(RxEnds(s), answer) else Helper(RxEnds(s), answer).0
  }

  function TxEndStep(s: State, answer: Answer): State {
    var (s1, ok) := Helper(TxEnds(s), answer);
    if !ok && !s1.fullDuplex && !s1.halfDuplexTx then Close(s1) else s1
  }

  predicate Enabled(s: State, step: Step) {
    match step
    case Open(mode, buf) => true
    case Configure(enable) => true
    case RxGrant => s.rx.grants > 0
    case TxGrant => s.tx.grants > 0
    case RxEnd(answer) => s.rx.runs
    case TxEnd(answer) => s.tx.runs
  }

  function Apply(s: State, step: Step): State
    requires Enabled(s, step)
  {
    match step
    case Open(mode, buf) => OpenStep(s, mode, buf)
    case Configure(enable) => s.(receiveWithoutTransmit := enable)
    case RxGrant => RxGrantStep(s)
    case TxGrant => TxGrantStep(s)
    case RxEnd(answer) => RxEndStep(s, answer)
    case TxEnd(answer) => TxEndStep(s, answer)
  }

  // ---- the protocol -----------------------------------------------------------------------------

  /** Where a well-behaved port is: a reference that knows nothing of the port's flags. */
  datatype Phase =
    | Shut
    | Waiting(mode: Mode, buf: nat, rxGranted: bool, txGranted: bool)
    | Busy(mode: Mode, buf: nat, rxEnded: bool, txEnded: bool)
    | Answered(mode: Mode, answer: Answer)
    | Broken

  /** A transfer starts when its channels are granted; it is signalled, with its buffer, when
      its directions have ended, once; then the next begins, on the same channels, with the
      buffer that the client returned, or the port is closed if there was none, or for both
      directions if it has no receive or no transmit part. */
  function Next(p: Phase, e: Event): Phase {
    match p
    case Shut => if e.Opened? then Waiting(e.mode, e.buf, false, e.mode == Receiving) else Broken
    case Waiting(m, b, r, t) =>
      if e == RxGranted && !r then Waiting(m, b, true, t)
      else if e == TxGranted && !t then Waiting(m, b, r, true)
      else if e == Started && r && t then Busy(m, b, false, m == Receiving)
      else Broken
    case Busy(m, b, r, t) =>
      if e == RxEnded && !r then Busy(m, b, true, t)
      else if e == TxEnded && !t then Busy(m, b, r, true)
      else if e.Signalled? && e.mode == m && e.buf == b && r && t then Answered(m, e.answer)
      else Broken
    case Answered(Duplex, a) =>
      if e == Started && a.buf != 0 && a.rx != 0 && a.tx != 0 then Busy(Duplex, a.buf, false, false)
      else if e == Closed && (a.buf == 0 || a.rx == 0 || a.tx == 0) then Shut
      else Broken
    case Answered(m, a) =>
      if e == Started && a.buf != 0 then Busy(m, a.buf, false, m == Receiving)
      else if e == Closed && a.buf == 0 then Shut
      else Broken
    case Broken => Broken
  }

  function PhaseAfter(log: seq<Event>): Phase {
    if log == [] then Shut else Next(PhaseAfter(log[..|log| - 1]), log[|log| - 1])
  }

  lemma PhaseStep(log: seq<Event>, e: Event)
    ensures PhaseAfter(log + [e]) == Next(PhaseAfter(log), e)
  {
    assert (log + [e])[..|log|] == log;
  }
}
