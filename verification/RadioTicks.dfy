/** The radio hardware of the simulator: the lossy model's arrays, changed in place, and the
    tick events that drive them. */
module RadioTicks {
  import opened Wrappers
  import opened Carrier

  class LossyModel {
    const radioActive: array<int>
    const connectivity: array<seq<Link>>
    const heard: array<seq<bool>>
    const idle: array<bool>
    var idleMask: seq<bool>
    ghost var log: seq<seq<bool>>

    ghost predicate Sized() { heard.Length == idle.Length == radioActive.Length }

    /** The registers hold the latest of the bits heard on a channel that was not idle. */
    ghost predicate Listening()
      reads this, heard
    {
      && Sized() && |log| == heard.Length && |idleMask| == REGISTER_BITS
      && forall m | 0 <= m < heard.Length :: heard[m] == Register(log[m])
    }

    ghost function View(): State
      reads radioActive, connectivity
    {
      State(connectivity[..], radioActive[..])
    }

    constructor (links: seq<seq<Link>>)
      requires WellFormed(links) && forall n | 0 <= n < |links| :: Silent(links[n])
      ensures Conserved(View()) && connectivity[..] == links && fresh(radioActive) && fresh(connectivity)
      ensures Listening() && idleMask == LowBits(REGISTER_BITS) && fresh(heard) && fresh(idle)
      ensures forall m | 0 <= m < heard.Length :: log[m] == [] && !idle[m]
    {
      heard := new seq<bool>[|links|](_ => Register([]));
      idle := new bool[|links|](_ => false);
      idleMask, log := LowBits(REGISTER_BITS), seq(|links|, _ => []);
      radioActive := new int[|links|](_ => 0);
      connectivity := new seq<Link>[|links|](n requires 0 <= n < |links| => links[n]);
      new;
      assert connectivity[..] == links;
      forall m | 0 <= m < |links| ensures Carried(links, m) == 0 { AllSilent(links, m); }
    }

    /** lossy_transmit; `lost` are the outcomes of the loss draws.  No receiver's channel is idle
        any more. */
    method TransmitBit(n: nat, bit: int, lost: seq<bool>)
      requires Conserved(View()) && Sized()
      requires n < connectivity.Length && |lost| == |connectivity[n]| && 0 <= bit <= 1
      modifies radioActive, connectivity, idle
      ensures View() == Transmit(old(View()), n, bit, lost)
      ensures |connectivity[n]| == |lost| && forall i | 0 <= i < |lost| ::
                connectivity[n][i] == old(connectivity[n])[i].(bit := if lost[i] then 1 - bit else bit)
      ensures forall m | 0 <= m < idle.Length :: idle[m] == (old(idle[m]) && !HasLink(old(connectivity[n]), m))
    {
      ghost var was, ls := View(), connectivity[n];
      ghost var sent := Sent(ls, bit, lost);
      assert GoodLinks(ls, |was.links|);
      hide HasLink, Transmit, Stop, BitsTo;
      NoLinkYet(ls, sent);
      for i := 0 to |connectivity[n]|
        invariant forall k | 0 <= k < connectivity.Length && k != n :: connectivity[k] == was.links[k]
        invariant |connectivity[n]| == |ls|
        invariant forall j | 0 <= j < |ls| :: connectivity[n][j] == if j < i then sent[j] else ls[j]
        invariant forall m | 0 <= m < radioActive.Length :: radioActive[m] == was.active[m] + BitsTo(sent[..i], m)
        invariant forall m | 0 <= m < idle.Length :: idle[m] == (old(idle[m]) && !HasLink(ls[..i], m))
      {
        HasLinkSnoc(ls, i);
        BitsSnoc(sent, i);
        var link := connectivity[n][i];
        var tmpBit := if lost[i] then 1 - bit else bit;
        assert link == ls[i];
        radioActive[link.mote] := radioActive[link.mote] + tmpBit;
        idle[link.mote] := false;
        connectivity[n] := connectivity[n][i := link.(bit := tmpBit)];
      }
      assert connectivity[n] == sent && sent[..|ls|] == sent && ls[..|ls|] == ls;
      assert connectivity[..] == was.links[n := sent];
      TransmitIs(was, n, bit, lost, View());
    }

    /** lossy_stop_transmit. */
    method StopTransmit(n: nat)
      requires Conserved(View()) && n < connectivity.Length
      modifies radioActive, connectivity
      ensures View() == Stop(old(View()), n)
    {
      ghost var was, ls := View(), connectivity[n];
      ghost var stopped := Stopped(ls);
      assert GoodLinks(ls, |was.links|);
      for i := 0 to |connectivity[n]|
        invariant forall k | 0 <= k < connectivity.Length && k != n :: connectivity[k] == was.links[k]
        invariant |connectivity[n]| == |ls|
        invariant forall j | 0 <= j < |ls| :: connectivity[n][j] == if j < i then stopped[j] else ls[j]
        invariant forall m | 0 <= m < radioActive.Length :: radioActive[m] == was.active[m] - BitsTo(ls[..i], m)
      {
        var link := connectivity[n][i];
        assert link == ls[i] && ls[..i + 1][..i] == ls[..i];
        radioActive[link.mote] := radioActive[link.mote] - link.bit;
        connectivity[n] := connectivity[n][i := link.(bit := 0)];
      }
      assert connectivity[n] == stopped && ls[..|ls|] == ls;
      assert connectivity[..] == was.links[n := stopped];
      assert View().active == Stop(was, n).active;
    }

    /** set_link_prob_value. */
    method SetLinkProb(n: nat, m: nat, prob: real)
      requires Conserved(View()) && n < connectivity.Length && m < connectivity.Length
      modifies connectivity
      ensures View() == SetLoss(old(View()), n, m, prob)
    {
      ghost var was := View();
      var ls := connectivity[n];
      var i := 0;
      while i < |ls|
        invariant i <= |ls| && forall k | 0 <= k < i :: ls[k].mote != m
        invariant View() == was
      {
        if ls[i].mote == m {
          WithLossAt(ls, i, m, prob);
          connectivity[n] := ls[i := ls[i].(loss := prob)];
          return;
        }
        i := i + 1;
      }
      connectivity[n] := [Link(m, prob, 0)] + ls;
    }

    /** get_link_prob_value: the loss of the first link, or 1. */
    method GetLinkProb(n: nat, m: nat) returns (prob: real)
      requires n < connectivity.Length
      ensures prob == LossTo(connectivity[n], m)
      ensures forall i | 0 <= i < |connectivity[n]| ::
                (forall k | 0 <= k <= i :: connectivity[n][k].mote == m <==> k == i) ==> prob == connectivity[n][i].loss
      ensures (forall i | 0 <= i < |connectivity[n]| :: connectivity[n][i].mote != m) ==> prob == 1.0
    {
      var ls := connectivity[n];
      var i := 0;
      while i < |ls|
        invariant i <= |ls| && LossTo(ls[i..], m) == LossTo(ls, m)
        invariant forall k | 0 <= k < i :: ls[k].mote != m
      {
        if ls[i].mote == m {
          return ls[i].loss;
        }
        assert ls[i..][1..] == ls[i + 1..];
        i := i + 1;
      }
      return 1.0;
    }

    /** lossy_hears; `noisy` is the outcome of the noise draw.  Noise reverses a bit on an idle
        channel only; on any other the bit is remembered, and the channel becomes idle when the
        latest bits heard there are 0 wherever the mask has a bit. */
    method Hears(m: nat, noisy: bool) returns (bit: int)
      requires Conserved(View()) && Listening() && m < radioActive.Length
      modifies `log, heard, idle
      ensures Listening()
      ensures var sent := Carried(connectivity[..], m) > 0;
              && bit == (if sent != (old(idle[m]) && noisy) then 1 else 0)
              && log == (if old(idle[m]) then old(log) else old(log)[m := [sent] + old(log[m])])
              && idle[m] == (old(idle[m]) || Quiet(log[m], idleMask))
      ensures forall k | 0 <= k < idle.Length && k != m :: idle[k] == old(idle[k])
    {
      bit := if radioActive[m] > 0 then 1 else 0;
      if idle[m] {
        if noisy { bit := 1 - bit; }
      } else {
        RegisterShift(log[m], bit == 1);
        heard[m] := ShiftIn(heard[m], bit == 1);
        log := log[m := [bit == 1] + log[m]];
        MaskedRegister(log[m], idleMask);
        if And(heard[m], idleMask) == LowBits(0) { idle[m] := true; }
      }
    }

    /** set_wait_length_before_idle: `count` ones are shifted into the mask, which keeps sixteen
        bits, so that the channel becomes idle after so many zeros. */
    method SetWaitLength(count: nat)
      requires Listening()
      modifies `idleMask
      ensures Listening() && forall i | 0 <= i < REGISTER_BITS :: idleMask[i] <==> i < count
    {
      var temp, left := LowBits(0), count;
      while left > 0
        invariant 0 <= left <= count && |temp| == REGISTER_BITS
        invariant forall i | 0 <= i < REGISTER_BITS :: temp[i] <==> i < count - left
      {
        temp := ShiftIn(temp, true);
        left := left - 1;
      }
      idleMask := temp;
    }

    /** get_wait_length_before_idle: how often the mask can be shifted right before it is 0. */
    method GetWaitLength() returns (count: nat)
      requires Listening()
      ensures count <= REGISTER_BITS && (count > 0 ==> idleMask[count - 1])
      ensures forall i | count <= i < REGISTER_BITS :: !idleMask[i]
    {
      var temp := idleMask;
      count := 0;
      ShiftedZero(idleMask, 0);
      while temp != LowBits(0)
        invariant count <= REGISTER_BITS && temp == Shifted(idleMask, count)
        invariant temp == LowBits(0) <==> forall i | count <= i < REGISTER_BITS :: !idleMask[i]
        invariant count > 0 ==> !forall i | count - 1 <= i < REGISTER_BITS :: !idleMask[i]
        decreases REGISTER_BITS - count
      {
        count := count + 1;
        temp := temp[1..] + [false];
        ShiftedZero(idleMask, count);
      }
    }

    /** A wait length that was set is read back, up to sixteen. */
    method SetAndGet(count: nat) returns (got: nat)
      requires Listening()
      modifies `idleMask
      ensures Listening() && got == if count < REGISTER_BITS then count else REGISTER_BITS
    {
      SetWaitLength(count);
      got := GetWaitLength();
      assert got < REGISTER_BITS ==> !idleMask[got];
    }
  }

  lemma TransmitIs(s: State, n: nat, bit: int, lost: seq<bool>, r: State)
    requires n < |s.links| && |lost| == |s.links[n]| && 0 <= bit <= 1 && |r.active| == |s.active|
    requires r.links == s.links[n := Sent(s.links[n], bit, lost)]
    requires forall m | 0 <= m < |r.active| :: r.active[m] == s.active[m] + BitsTo(Sent(s.links[n], bit, lost), m)
    ensures r == Transmit(s, n, bit, lost)
  {
    assert r.active == Transmit(s, n, bit, lost).active;
  }

  lemma NoLinkYet(ls: seq<Link>, sent: seq<Link>)
    ensures forall m :: !HasLink(ls[..0], m)
    ensures forall m: nat :: BitsTo(sent[..0], m) == 0
  {
  }

  lemma BitsSnoc(ls: seq<Link>, i: nat)
    requires i < |ls|
    ensures forall m: nat :: BitsTo(ls[..i + 1], m) == BitsTo(ls[..i], m) + if ls[i].mote == m then ls[i].bit else 0
  {
    assert ls[..i + 1][..i] == ls[..i];
  }

  lemma HasLinkSnoc(ls: seq<Link>, i: nat)
    requires i < |ls|
    ensures forall m :: HasLink(ls[..i + 1], m) <==> HasLink(ls[..i], m) || ls[i].mote == m
  {
    forall m ensures HasLink(ls[..i + 1], m) <==> HasLink(ls[..i], m) || ls[i].mote == m {
      if HasLink(ls[..i], m) {
        var k :| 0 <= k < i && ls[..i][k].mote == m;
        assert ls[..i + 1][k].mote == m;
      }
      if ls[i].mote == m { assert ls[..i + 1][i].mote == m; }
      if HasLink(ls[..i + 1], m) && ls[i].mote != m {
        var k :| 0 <= k < i + 1 && ls[..i + 1][k].mote == m;
        assert ls[..i][k].mote == m;
      }
    }
  }

  // ---- the register of bits heard ----------------------------------------------------------------

  const REGISTER_BITS := 16

  /** The low bits of a word, the lowest first. */
  function LowBits(count: nat): (r: seq<bool>)
    ensures |r| == REGISTER_BITS && forall i | 0 <= i < REGISTER_BITS :: r[i] <==> i < count
  {
    seq(REGISTER_BITS, i => i < count)
  }

  /** Shifting a bit into a word from below. */
  function ShiftIn(r: seq<bool>, b: bool): (r': seq<bool>)
    requires |r| == REGISTER_BITS
    ensures |r'| == REGISTER_BITS
  {
    [b] + r[..REGISTER_BITS - 1]
  }

  function And(a: seq<bool>, b: seq<bool>): (r: seq<bool>)
    requires |a| == |b| == REGISTER_BITS
    ensures |r| == REGISTER_BITS && forall i | 0 <= i < REGISTER_BITS :: r[i] <==> a[i] && b[i]
  {
    seq(REGISTER_BITS, i requires 0 <= i < REGISTER_BITS => a[i] && b[i])
  }

  /** A word into which the bits were shifted; the bits come the latest first. */
  function Register(bits: seq<bool>): (r: seq<bool>)
    ensures |r| == REGISTER_BITS
  {
    (bits + seq(REGISTER_BITS, _ => false))[..REGISTER_BITS]
  }

  /** The latest bits are 0 wherever the mask has a bit. */
  predicate Quiet(bits: seq<bool>, mask: seq<bool>) {
    forall i | 0 <= i < |bits| && i < |mask| :: mask[i] ==> !bits[i]
  }

  lemma RegisterShift(bits: seq<bool>, b: bool)
    ensures Register([b] + bits) == ShiftIn(Register(bits), b)
  {
  }

  /** Masking the word tells what the bits were. */
  lemma MaskedRegister(bits: seq<bool>, mask: seq<bool>)
    requires |mask| == REGISTER_BITS
    ensures And(Register(bits), mask) == LowBits(0) <==> Quiet(bits, mask)
  {
    var r := Register(bits);
    assert forall i | 0 <= i < REGISTER_BITS :: r[i] == (i < |bits| && bits[i]);
    if And(r, mask) == LowBits(0) {
      forall i | 0 <= i < |bits| && i < |mask| && mask[i] ensures !bits[i] { assert !And(r, mask)[i]; }
    }
  }

  function Shifted(mask: seq<bool>, count: nat): seq<bool>
    requires |mask| == REGISTER_BITS
  {
    seq(REGISTER_BITS, i requires 0 <= i < REGISTER_BITS => i + count < REGISTER_BITS && mask[i + count])
  }

  lemma ShiftedZero(mask: seq<bool>, count: nat)
    requires |mask| == REGISTER_BITS
    ensures Shifted(mask, 0) == mask
    ensures count > 0 ==> Shifted(mask, count) == Shifted(mask, count - 1)[1..] + [false]
    ensures Shifted(mask, count) == LowBits(0) <==> forall i | count <= i < REGISTER_BITS :: !mask[i]
  {
    var r := Shifted(mask, count);
    if r == LowBits(0) {
      forall i | count <= i < REGISTER_BITS ensures !mask[i] { assert r[i - count] == mask[i]; }
    }
  }

  /** With a wait length of k, as far as sixteen, the channel is idle after k zeros and not before. */
  lemma QuietAfter(bits: seq<bool>, k: nat)
    requires k <= REGISTER_BITS && k <= |bits|
    ensures Quiet(bits, LowBits(k)) <==> forall i | 0 <= i < k :: !bits[i]
  {
  }

  lemma {:induction false} AllSilent(links: seq<seq<Link>>, m: nat)
    requires forall n | 0 <= n < |links| :: Silent(links[n])
    ensures Carried(links, m) == 0
  {
    if links != [] {
      AllSilent(links[..|links| - 1], m);
      SilentSum(links[|links| - 1], m);
    }
  }

  function LossTo(ls: seq<Link>, m: nat): real {
    if ls == [] then 1.0 else if ls[0].mote == m then ls[0].loss else LossTo(ls[1..], m)
  }

  lemma {:induction false} WithLossAt(ls: seq<Link>, i: nat, m: nat, loss: real)
    requires i < |ls| && ls[i].mote == m && forall k | 0 <= k < i :: ls[k].mote != m
    ensures HasLink(ls, m) && WithLoss(ls, m, loss) == ls[i := ls[i].(loss := loss)]
  {
    if i > 0 {
      WithLossAt(ls[1..], i - 1, m, loss);
      assert ls[i := ls[i].(loss := loss)] == [ls[0]] + ls[1..][i - 1 := ls[i].(loss := loss)];
    }
  }

  /** A loss that was set is the loss that is read, and no other changes. */
  lemma {:induction false} GetAfterSet(s: State, n: nat, m: nat, loss: real, k: nat, j: nat)
    requires n < |s.links| && k < |s.links|
    ensures LossTo(SetLoss(s, n, m, loss).links[k], j) == if k == n && j == m then loss else LossTo(s.links[k], j)
  {
    if k == n {
      if HasLink(s.links[n], m) {
        LossAfter(s.links[n], m, loss, j);
      } else {
        var ls := s.links[n];
        assert ([Link(m, loss, 0)] + ls)[1..] == ls;
      }
    }
  }

  lemma {:induction false} LossAfter(ls: seq<Link>, m: nat, loss: real, j: nat)
    requires HasLink(ls, m)
    ensures LossTo(WithLoss(ls, m, loss), j) == if j == m then loss else LossTo(ls, j)
  {
    if ls[0].mote == m {
      assert ([ls[0].(loss := loss)] + ls[1..])[1..] == ls[1..];
    } else {
      var i :| 0 <= i < |ls| && ls[i].mote == m;
      assert ls[1..][i - 1].mote == m;
      LossAfter(ls[1..], m, loss, j);
      assert ([ls[0]] + WithLoss(ls[1..], m, loss))[1..] == WithLoss(ls[1..], m, loss);
    }
  }

  // ---- ticks ------------------------------------------------------------------------------------------

  class TickEvent {
    const mote: nat
    const interval: int
    var time: int
    var valid: bool

    constructor (mote: nat, time: int, interval: int)
      ensures this.mote == mote && this.time == time && this.interval == interval && valid
    {
      this.mote, this.time, this.interval, valid := mote, time, interval, true;
    }
  }

  class Radio {
    const rfm: LossyModel
    const radioTickEvents: array<TickEvent?>
    var queue: set<TickEvent>

    /** The valid ticks are those that the motes know of, one for each mote at most; and the
        counters are right. */
    ghost predicate Valid()
      reads this, radioTickEvents, queue, rfm.radioActive, rfm.connectivity
    {
      && Conserved(rfm.View()) && rfm.Sized() && radioTickEvents.Length == rfm.connectivity.Length
      && (forall e | e in queue :: e.mote < radioTickEvents.Length)
      && (forall e | e in queue && e.valid :: radioTickEvents[e.mote] == e)
      && (forall m | 0 <= m < radioTickEvents.Length && radioTickEvents[m] != null ::
            radioTickEvents[m] in queue && radioTickEvents[m].valid && radioTickEvents[m].mote == m)
    }

    constructor (links: seq<seq<Link>>)
      requires WellFormed(links) && forall n | 0 <= n < |links| :: Silent(links[n])
      ensures Valid() && queue == {} && rfm.connectivity[..] == links
    {
      rfm := new LossyModel(links);
      radioTickEvents := new TickEvent?[|links|](_ => null);
      queue := {};
    }

    /** In every state a mote has at most one valid tick. */
    lemma OneValidTick(e: TickEvent, f: TickEvent)
      requires Valid() && e in queue && f in queue && e.valid && f.valid && e.mote == f.mote
      ensures e == f
    {
    }

    /** TOSH_rfm_set_bit_rate: the old tick is invalidated and a new one scheduled. */
    method SetBitRate(n: nat, now: int, spacing: int)
      requires Valid() && n < radioTickEvents.Length
      modifies this`queue, radioTickEvents, queue
      ensures Valid() && old(queue) <= queue
      ensures radioTickEvents[n] != null && fresh(radioTickEvents[n]) && queue == old(queue) + {radioTickEvents[n]}
      ensures radioTickEvents[n].time == now + spacing && radioTickEvents[n].interval == spacing
      ensures forall e | e in old(queue) :: e.valid == (old(e.valid) && e.mote != n) && e.time == old(e.time)
    {
      if radioTickEvents[n] != null {
        radioTickEvents[n].valid := false;
      }
      var event := new TickEvent(n, now + spacing, spacing);
      queue := queue + {event};
      radioTickEvents[n] := event;
    }

    /** event_radiotick_handle, and the mote's bit event: it transmits at most one bit and may
        set the bit rate.  An invalid tick is discarded. */
    method HandleTick(e: TickEvent, tx: Option<(int, seq<bool>)>, rate: Option<int>) returns (valid: bool)
      requires Valid() && e in queue
      requires tx.Some? ==> 0 <= tx.value.0 <= 1 && |tx.value.1| == |rfm.connectivity[e.mote]|
      modifies this`queue, radioTickEvents, queue, rfm.radioActive, rfm.connectivity, rfm.idle
      ensures Valid() && valid == old(e.valid)
      ensures !valid ==> rfm.View() == old(rfm.View()) && queue == old(queue) - {e}
      ensures valid ==> rfm.View() == (var s := Stop(old(rfm.View()), e.mote);
                                       if tx.Some? then Transmit(s, e.mote, tx.value.0, tx.value.1) else s)
      ensures valid ==> old(queue) <= queue && e.time == old(e.time) + e.interval && e.valid == rate.None?
      ensures valid && rate.None? ==> queue == old(queue) && radioTickEvents[e.mote] == e
      ensures valid && rate.Some? ==>
                && radioTickEvents[e.mote] != null && fresh(radioTickEvents[e.mote])
                && queue == old(queue) + {radioTickEvents[e.mote]}
                && radioTickEvents[e.mote].time == old(e.time) + rate.value
                && radioTickEvents[e.mote].interval == rate.value
      ensures forall f | f in old(queue) && f != e :: f.time == old(f.time) && f.valid == old(f.valid)
    {
      valid := e.valid;
      if !valid {
        queue := queue - {e};
        return;
      }
      var now := e.time;
      e.time := e.time + e.interval;
      StopConserves(rfm.View(), e.mote);
      rfm.StopTransmit(e.mote);
      if tx.Some? {
        TransmitConservesIff(rfm.View(), e.mote, tx.value.0, tx.value.1);
        rfm.TransmitBit(e.mote, tx.value.0, tx.value.1);
      }
      if rate.Some? {
        SetBitRate(e.mote, now, rate.value);
      }
    }
  }
}
