/** The buffered serial port's commands, tasks and interrupts, changing its variables in
    place.  Each is proved to take the step of the state machine. */
module BufferedUart {
  import opened Wrappers
  import opened PtrQueues
  import opened UartSpec

  class Uart {
    const outgoingQueue: PtrQueue<Info>
    var gTxActive: bool
    var gTxPortInUse: bool
    var gTxBuffer: nat
    var gTxNumBytes: nat
    var dma: Dma
    /** The posted completions, and the one whose callback is running. */
    var tasks: seq<Info>
    var current: Option<Info>
    var halted: Halt
    ghost var accepted: seq<Info>
    ghost var done: seq<Info>

    ghost predicate Valid()
      reads this, outgoingQueue
    {
      outgoingQueue.Valid() && outgoingQueue.entries.Length == SLOTS
    }

    ghost function View(): State
      reads this, outgoingQueue, outgoingQueue.entries
      requires Valid()
    {
      State(outgoingQueue.Contents(), gTxActive, gTxPortInUse, gTxBuffer, gTxNumBytes, dma, tasks, current, halted,
            accepted, done)
    }

    constructor ()
      ensures Valid() && View() == INIT && fresh(outgoingQueue) && fresh(outgoingQueue.entries)
    {
      outgoingQueue := new PtrQueue<Info>(SLOTS);
      gTxActive, gTxPortInUse, gTxBuffer, gTxNumBytes, dma := false, false, 0, 0, Idle;
      tasks, current, halted, accepted, done := [], None, NotHalted, [], [];
    }

    method OpenTxPort() returns (ok: bool)
      modifies this`gTxPortInUse
      ensures gTxPortInUse && ok == !old(gTxPortInUse)
    {
      if gTxPortInUse {
        return false;
      }
      gTxPortInUse := true;
      return true;
    }

    method CloseTxPort()
      modifies this`gTxPortInUse, this`gTxBuffer, this`gTxNumBytes, this`dma
      ensures !gTxPortInUse && gTxBuffer == 0 && gTxNumBytes == 0 && dma == Idle
    {
      gTxPortInUse, gTxBuffer, gTxNumBytes, dma := false, 0, 0, Idle;
    }

    /** BulkTransmit of a buffer and its length, which is cut to 16 bits. */
    method Transmit(info: Info) returns (ok: bool)
      requires Valid()
      modifies this`gTxPortInUse, this`gTxBuffer, this`gTxNumBytes, this`dma
      ensures Valid() && View() == BulkTransmit(old(View()), info)
      ensures ok <==> Truncated(info.numBytes) != 0 && !old(gTxPortInUse)
    {
      var numBytes := info.numBytes % WORD;
      if numBytes == 0 {
        return false;
      }
      ok := OpenTxPort();
      if ok {
        gTxBuffer, gTxNumBytes := info.buf, numBytes;
        dma := Requested;
      }
    }

    /** What both send commands do with interrupts off. */
    method Enqueue(info: Info) returns (ok: bool)
      requires Valid() && info.numBytes != 0
      modifies this, outgoingQueue, outgoingQueue.entries
      ensures Valid() && ok == (|old(View()).queue| < SLOTS - 1)
      ensures View() == SendStep(old(View()), info).(halted := old(halted))
    {
      ok := outgoingQueue.Push(info);
      if ok {
        accepted := accepted + [info];
      }
      if !gTxActive {
        var _ := Transmit(info);
        gTxActive := true;
      }
    }

    /** SendData.send, with the copy already made: FAIL when the queue is full. */
    method Send(buf: nat, length: nat) returns (ok: bool)
      requires Valid() && halted == NotHalted
      modifies this, outgoingQueue, outgoingQueue.entries
      ensures Valid() && View() == SendStep(old(View()), Info(buf, length, SendData))
      ensures ok <==> length != 0 && |old(View()).queue| < SLOTS - 1
    {
      if length == 0 {
        return false;
      }
      ok := Enqueue(Info(buf, length, SendData));
    }

    /** SendDataAlloc.send: it asserts that there was room. */
    method SendAlloc(buf: nat, numBytes: nat) returns (ok: bool)
      requires Valid() && halted == NotHalted
      modifies this, outgoingQueue, outgoingQueue.entries
      ensures Valid() && View() == SendStep(old(View()), Info(buf, numBytes, SendDataAlloc))
      ensures ok <==> numBytes != 0 && halted == NotHalted
    {
      if numBytes == 0 {
        return false;
      }
      ok := Enqueue(Info(buf, numBytes, SendDataAlloc));
      if !ok {
        halted := QueueFull;
      }
    }

    method RequestChannelDone()
      requires Valid()
      modifies this`dma
      ensures Valid() && View() == GrantStep(old(View()))
    {
      dma := Running;
    }

    /** The end interrupt of the DMA channel, with BulkTransmitDone, which asks for no more. */
    method EndInterrupt()
      requires Valid()
      modifies this, outgoingQueue
      ensures Valid() && View() == DmaEndStep(old(View()))
    {
      var pBI, ok := outgoingQueue.Pop();
      if !ok {
        halted := EmptyQueue;
      } else if pBI.buf == gTxBuffer && pBI.numBytes == gTxNumBytes {
        tasks := tasks + [pBI];
        CloseTxPort();
      } else {
        halted := WrongBuffer;
      }
    }

    /** The completion task up to and including the client's callback. */
    method TransmitDone() returns (signalled: Info)
      requires Valid() && tasks != []
      modifies this`tasks, this`current, this`done
      ensures Valid() && View() == BeginTaskStep(old(View())) && signalled == old(tasks)[0]
    {
      signalled := tasks[0];
      tasks, current, done := tasks[1..], Some(signalled), done + [signalled];
    }

    /** Its end: the next buffer, if there is one. */
    method TransmitNext()
      requires Valid()
      modifies this
      ensures Valid() && View() == EndTaskStep(old(View()))
    {
      current := None;
      var pBI, ok := outgoingQueue.Peek();
      if ok {
        var _ := Transmit(pBI);
      } else {
        gTxActive := false;
      }
    }
  }
}
