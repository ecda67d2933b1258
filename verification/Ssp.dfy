/** The synchronous serial port's commands and DMA events over its flags, its buffers and two
    DMA channels, all changed in place.  Each is proved to take the step of the state machine. */
module SspPort {
  import opened Wrappers
  import opened SspSpec

  lemma BeginIs(s: State, mode: Mode, buf: nat, t: State)
    requires t.portInUse == s.portInUse && t.fullDuplex == (mode == Duplex) && t.halfDuplexTx == (mode == Transmitting)
    requires t.receiveWithoutTransmit == s.receiveWithoutTransmit && t.disturbed == s.disturbed
    requires t.log == s.log + [Opened(mode, buf)]
    requires t.rx == Request(if mode == Receiving then s.rx.(buffer := buf) else Reset(s.rx))
    requires t.tx == match mode
                     case Receiving => s.tx
                     case Transmitting => Request(Reset(s.tx.(buffer := buf)))
                     case Duplex => Request(Reset(s.tx))
    requires t.txRxBuffer == if mode == Duplex then buf else s.txRxBuffer
    ensures t == Begin(s, mode, buf)
  {
  }

  lemma CloseIs(s: State, t: State)
    requires !t.portInUse && !t.fullDuplex && !t.halfDuplexTx && t.txRxBuffer == 0
    requires t.receiveWithoutTransmit == s.receiveWithoutTransmit && t.disturbed == s.disturbed
    requires t.log == s.log + [Closed] && t.rx == Clear(s.rx) && t.tx == Clear(s.tx)
    ensures t == Close(s)
  {
  }

  /** A channel of the DMA controller: the grants it has yet to report, and whether it runs. */
  class DmaChannel {
    var grants: nat
    var runs: bool

    constructor ()
      ensures grants == 0 && !runs
    {
      grants, runs := 0, false;
    }

    method RequestChannel()
      modifies this
      ensures grants == old(grants) + 1 && runs == old(runs)
    {
      grants := grants + 1;
    }

    method Run()
      modifies this
      ensures runs && grants == old(grants)
    {
      runs := true;
    }
  }

  class Ssp {
    var gPortInUse: bool
    var gFullDuplex: bool
    var gHalfDuplexTx: bool
    var gReceiveWithoutTransmit: bool
    var gDMARxReady: bool
    var gDMATxReady: bool
    var gDMARxDone: bool
    var gDMATxDone: bool
    var gRxBuffer: nat
    var gTxBuffer: nat
    var gTxRxBuffer: nat
    const rxChannel: DmaChannel
    const txChannel: DmaChannel
    ghost var log: seq<Event>
    ghost var disturbed: bool

    ghost predicate Valid() { rxChannel != txChannel }

    ghost function RxHalf(): Half
      reads `gDMARxReady, `gDMARxDone, `gRxBuffer, rxChannel
    {
      Half(gDMARxReady, gDMARxDone, gRxBuffer, rxChannel.grants, rxChannel.runs)
    }

    ghost function TxHalf(): Half
      reads `gDMATxReady, `gDMATxDone, `gTxBuffer, txChannel
    {
      Half(gDMATxReady, gDMATxDone, gTxBuffer, txChannel.grants, txChannel.runs)
    }

    ghost function View(): State
      reads this, rxChannel, txChannel
    {
      State(gPortInUse, gFullDuplex, gHalfDuplexTx, gReceiveWithoutTransmit, RxHalf(), TxHalf(), gTxRxBuffer, log,
            disturbed)
    }

    constructor ()
      ensures Valid() && View() == INIT && fresh(rxChannel) && fresh(txChannel)
    {
      gPortInUse, gFullDuplex, gHalfDuplexTx, gReceiveWithoutTransmit := false, false, false, false;
      gDMARxReady, gDMATxReady, gDMARxDone, gDMATxDone := false, false, false, false;
      gRxBuffer, gTxBuffer, gTxRxBuffer, log, disturbed := 0, 0, 0, [], false;
      rxChannel := new DmaChannel();
      txChannel := new DmaChannel();
    }

    method ClearFlags()
      modifies `gDMARxReady, `gDMATxReady, `gDMARxDone, `gDMATxDone
      ensures RxHalf() == Reset(old(RxHalf())) && TxHalf() == Reset(old(TxHalf()))
    {
      gDMARxReady, gDMATxReady, gDMARxDone, gDMATxDone := false, false, false, false;
    }

    method ClearAll()
      modifies `gDMARxReady, `gDMATxReady, `gDMARxDone, `gDMATxDone, `gRxBuffer, `gTxBuffer, `gTxRxBuffer
      ensures RxHalf() == Clear(old(RxHalf())) && TxHalf() == Clear(old(TxHalf())) && gTxRxBuffer == 0
    {
      ClearFlags();
      gRxBuffer, gTxBuffer, gTxRxBuffer := 0, 0, 0;
    }

    method PutRxBuffer(buf: nat)
      modifies `gRxBuffer
      ensures RxHalf() == old(RxHalf()).(buffer := buf)
    {
      gRxBuffer := buf;
    }

    method PutTxBuffer(buf: nat)
      modifies `gTxBuffer
      ensures TxHalf() == old(TxHalf()).(buffer := buf)
    {
      gTxBuffer := buf;
    }

    method RequestRx()
      requires Valid()
      modifies rxChannel
      ensures RxHalf() == Request(old(RxHalf()))
    {
      rxChannel.RequestChannel();
    }

    /** The flags are cleared and both channels asked for. */
    method RequestBoth()
      requires Valid()
      modifies `gDMARxReady, `gDMATxReady, `gDMARxDone, `gDMATxDone, rxChannel, txChannel
      ensures RxHalf() == Request(Reset(old(RxHalf()))) && TxHalf() == Request(Reset(old(TxHalf())))
    {
      ClearFlags();
      txChannel.RequestChannel();
      rxChannel.RequestChannel();
    }

    method OpenPort() returns (ok: bool)
      modifies `gPortInUse
      ensures ok == !old(gPortInUse) && View() == old(View()).(portInUse := true)
    {
      ok := !gPortInUse;
      gPortInUse := true;
    }

    method ClosePort()
      requires Valid()
      modifies this, rxChannel, txChannel
      ensures View() == Close(old(View()))
    {
      hide RxHalf, TxHalf, Close, Clear;
      gPortInUse, gFullDuplex, gHalfDuplexTx := false, false, false;
      ClearAll();
      log := log + [Closed];
      CloseIs(old(View()), View());
    }

    method BulkReceive(rxBuffer: nat) returns (ok: bool)
      requires Valid()
      modifies this, rxChannel, txChannel
      ensures View() == OpenStep(old(View()), Receiving, rxBuffer)
      ensures ok <==> !Refused(old(View()), Receiving)
    {
      hide Begin, RxHalf, TxHalf;
      ok := OpenPort();
      if ok {
        BeginReceiving(rxBuffer);
      }
    }

    method BeginReceiving(rxBuffer: nat)
      requires Valid()
      modifies this, rxChannel, txChannel
      ensures View() == Begin(old(View()), Receiving, rxBuffer)
    {
      hide Begin, RxHalf, TxHalf, Request, Reset;
      ghost var was := View();
      gFullDuplex, gHalfDuplexTx := false, false;
      PutRxBuffer(rxBuffer);
      RequestRx();
      log := log + [Opened(Receiving, rxBuffer)];
      BeginIs(was, Receiving, rxBuffer, View());
    }

    method BulkTransmit(txBuffer: nat) returns (ok: bool)
      requires Valid()
      modifies this, rxChannel, txChannel
      ensures View() == OpenStep(old(View()), Transmitting, txBuffer)
      ensures ok <==> !Refused(old(View()), Transmitting)
    {
      hide Begin, RxHalf, TxHalf;
      if gReceiveWithoutTransmit {
        return false;
      }
      ok := OpenPort();
      if ok {
        BeginTransmitting(txBuffer);
      }
    }

    method BeginTransmitting(txBuffer: nat)
      requires Valid()
      modifies this, rxChannel, txChannel
      ensures View() == Begin(old(View()), Transmitting, txBuffer)
    {
      hide Begin, RxHalf, TxHalf, Request, Reset;
      ghost var was := View();
      gFullDuplex, gHalfDuplexTx := false, true;
      PutTxBuffer(txBuffer);
      RequestBoth();
      log := log + [Opened(Transmitting, txBuffer)];
      BeginIs(was, Transmitting, txBuffer, View());
    }

    method BulkTxRx(txRxBuffer: nat) returns (ok: bool)
      requires Valid()
      modifies this, rxChannel, txChannel
      ensures View() == OpenStep(old(View()), Duplex, txRxBuffer)
      ensures ok <==> !Refused(old(View()), Duplex)
    {
      hide Begin, RxHalf, TxHalf;
      if gReceiveWithoutTransmit {
        return false;
      }
      ok := OpenPort();
      if ok {
        BeginDuplex(txRxBuffer);
      }
    }

    method BeginDuplex(txRxBuffer: nat)
      requires Valid()
      modifies this, rxChannel, txChannel
      ensures View() == Begin(old(View()), Duplex, txRxBuffer)
    {
      hide Begin, RxHalf, TxHalf, Request, Reset;
      ghost var was := View();
      gTxRxBuffer := txRxBuffer;
      gFullDuplex, gHalfDuplexTx := true, false;
      RequestBoth();
      log := log + [Opened(Duplex, txRxBuffer)];
      BeginIs(was, Duplex, txRxBuffer, View());
    }

    /** tryFullDuplex. */
    method TryRun() returns (ok: bool)
      requires Valid()
      modifies `log, rxChannel, txChannel
      ensures View() == TryFullDuplex(old(View())) && ok == (gDMATxReady && gDMARxReady)
    {
      ok := gDMATxReady && gDMARxReady;
      if ok {
        txChannel.Run();
        rxChannel.Run();
        log := log + [Started];
      }
    }

    method StartRx()
      requires Valid()
      modifies `log, rxChannel
      ensures View() == RunRx(old(View()))
    {
      rxChannel.Run();
      log := log + [Started];
    }

    /** RxDMAChannel.requestChannelDone. */
    method RxRequestChannelDone()
      requires Valid() && rxChannel.grants > 0
      modifies `gDMARxReady, `log, rxChannel, txChannel
      ensures View() == RxGrantStep(old(View()))
    {
      rxChannel.grants := rxChannel.grants - 1;
      log := log + [RxGranted];
      if gFullDuplex || gHalfDuplexTx {
        gDMARxReady := true;
        var _ := TryRun();
      } else {
        StartRx();
      }
    }

    /** TxDMAChannel.requestChannelDone. */
    method TxRequestChannelDone()
      requires Valid() && txChannel.grants > 0
      modifies `gDMATxReady, `log, rxChannel, txChannel
      ensures View() == TxGrantStep(old(View()))
    {
      txChannel.grants := txChannel.grants - 1;
      log := log + [TxGranted];
      gDMATxReady := true;
      var _ := TryRun();
    }

    method RunAgain()
      requires Valid()
      modifies `gDMARxDone, `gDMATxDone, `log, rxChannel, txChannel
      ensures View() == Resume(old(View()))
    {
      gDMARxDone, gDMATxDone := false, false;
      rxChannel.Run();
      txChannel.Run();
      log := log + [Started];
    }

    /** BulkTxRxDone: the client takes the buffers and gives new ones, or not. */
    method SignalTxRxDone(answer: Answer) returns (told: nat)
      requires Valid()
      modifies this, rxChannel, txChannel
      ensures View() == Complete(old(View()), Duplex, answer) && told == old(gTxRxBuffer)
    {
      hide Close, Resume;
      told := gTxRxBuffer;
      log := log + [Signalled(Duplex, told, answer)];
      gTxRxBuffer := answer.buf;
      if gTxRxBuffer != 0 && answer.rx != 0 && answer.tx != 0 {
        RunAgain();
      } else {
        ClosePort();
      }
    }

    /** BulkTransmitDone. */
    method SignalTransmitDone(answer: Answer) returns (told: nat)
      requires Valid()
      modifies this, rxChannel, txChannel
      ensures View() == Complete(old(View()), Transmitting, answer) && told == old(gTxBuffer)
    {
      hide Close, Resume;
      told := gTxBuffer;
      log := log + [Signalled(Transmitting, told, answer)];
      gTxBuffer := answer.buf;
      if gTxBuffer != 0 {
        RunAgain();
      } else {
        ClosePort();
      }
    }

    /** TxRxInterruptHelper; `answer` is what the client returns if it is told. */
    method InterruptHelper(answer: Answer) returns (ok: bool, told: Option<nat>)
      requires Valid()
      modifies this, rxChannel, txChannel
      ensures (View(), ok) == Helper(old(View()), answer)
      ensures told == if !ok then None else Some(if old(gFullDuplex) then old(gTxRxBuffer) else old(gTxBuffer))
    {
      hide Complete;
      if gDMATxDone && gDMARxDone {
        if gFullDuplex {
          var buf := SignalTxRxDone(answer);
          return true, Some(buf);
        } else if gHalfDuplexTx {
          var buf := SignalTransmitDone(answer);
          return true, Some(buf);
        }
      }
      return false, None;
    }

    method TellReceive(answer: Answer)
      modifies `disturbed, `log, `gRxBuffer
      ensures View() == TellReceiver(old(View()), answer) && gRxBuffer == answer.buf
    {
      disturbed := disturbed || gFullDuplex || gHalfDuplexTx;
      log := log + [Signalled(Receiving, gRxBuffer, answer)];
      gRxBuffer := answer.buf;
    }

    /** BulkReceiveDone. */
    method SignalReceiveDone(answer: Answer)
      requires Valid()
      modifies this, rxChannel, txChannel
      ensures View() == ReceiveDone(old(View()), answer)
    {
      hide Close, TellReceiver, RunRx, RxHalf, TxHalf;
      TellReceive(answer);
      if gRxBuffer != 0 {
        StartRx();
      } else {
        ClosePort();
      }
    }

    /** RxDMAChannel.endInterrupt. */
    method RxEndInterrupt(answer: Answer)
      requires Valid() && rxChannel.runs
      modifies this, rxChannel, txChannel
      ensures View() == RxEndStep(old(View()), answer)
    {
      hide Helper, ReceiveDone;
      rxChannel.runs := false;
      gDMARxDone := true;
      log := log + [RxEnded];
      if gReceiveWithoutTransmit {
        SignalReceiveDone(answer);
      } else {
        var _, _ := InterruptHelper(answer);
      }
    }

    /** TxDMAChannel.endInterrupt. */
    method TxEndInterrupt(answer: Answer)
      requires Valid() && txChannel.runs
      modifies this, rxChannel, txChannel
      ensures View() == TxEndStep(old(View()), answer)
    {
      hide Helper, Close;
      txChannel.runs := false;
      gDMATxDone := true;
      log := log + [TxEnded];
      var ok, _ := InterruptHelper(answer);
      if !ok && !gFullDuplex && !gHalfDuplexTx {
        ClosePort();
      }
    }

    method SetReceiveWithoutTransmit(enable: bool)
      modifies this`gReceiveWithoutTransmit
      ensures View() == old(View()).(receiveWithoutTransmit := enable)
    {
      gReceiveWithoutTransmit := enable;
    }
  }
}
