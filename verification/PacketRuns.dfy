/** Runs of the packet simulator: safety of deliveries and truth of acknowledgements. */
module PacketRuns {
  import opened Wrappers
  import opened PacketSpec
  import opened PacketInvariant

  // ---- acknowledgements, for topologies without duplicate links ------------------------------

  /** No mote but n itself occurs twice. */
  predicate Distinct(n: nat, ms: seq<nat>) {
    forall i, j | 0 <= i < j < |ms| && ms[i] == ms[j] :: ms[i] == n
  }

  /** No mote has two links to the same other mote. */
  predicate NoDuplicates(links: Links) {
    forall n | 0 <= n < |links| :: Distinct(n, links[n])
  }

  lemma ArriveAcks(s: State, n: nat, p: Packet, m: nat, draw: Draw)
    requires m < |s.motes| && n < |s.motes| && s.motes[n].pending.None? && AcksInv(s)
    ensures AcksInv(Arrive(s, n, p, m, draw)) && Arrive(s, n, p, m, draw).motes[n].pending.None?
  {
    var t := Arrive(s, n, p, m, draw);
    forall k | 0 <= k < |t.motes| ensures AckInv(t, k) {
      assert AckInv(s, k);
    }
  }

  /** What the list of the addressed mote a holds of n's packet after m was reached.  The
      sender itself is transmitting and never detects anything. */
  lemma ArriveHead(s: State, n: nat, p: Packet, m: nat, draw: Draw, a: nat)
    requires m < |s.motes| && a < |s.motes| <= BROADCAST && p.addr == a
    ensures var cs := s.motes[a].incoming; var ds := Arrive(s, n, p, m, draw).motes[a].incoming;
            && (m != a ==> ds == cs && !Acks(s, p, m, draw))
            && (m == a && !CleanFrom(cs, n) && !(cs != [] && Free(s.motes[a])) ==>
                (CleanFrom(ds, n) <==> Acks(s, p, m, draw)))
            && (m == a && s.motes[a].tx == TxTrans ==> !CleanFrom(ds, n) && !Acks(s, p, m, draw))
            && Arrive(s, n, p, m, draw).motes[a].tx == s.motes[a].tx
  {
  }

  lemma {:induction false} ArriveAllAcks(s: State, n: nat, p: Packet, ms: seq<nat>, draws: seq<Draw>)
    requires |draws| == |ms| && Distinct(n, ms) && |s.motes| <= BROADCAST
    requires forall i | 0 <= i < |ms| :: ms[i] < |s.motes|
    requires n < |s.motes| && s.motes[n].pending.None? && s.motes[n].tx == TxTrans && AcksInv(s) && NoneFrom(s, n)
    ensures var (t, ack) := ArriveAll(s, n, p, ms, draws);
            && AcksInv(t) && t.motes[n].pending.None? && t.motes[n].tx == TxTrans
            && (p.addr < |s.motes| ==> (ack <==> CleanFrom(t.motes[p.addr].incoming, n)))
            && (p.addr < |s.motes| && (p.addr !in ms || p.addr == n) ==> !ack)
  {
    if ms == [] {
      if p.addr < |s.motes| { assert !CleanFrom(s.motes[p.addr].incoming, n); }
    } else {
      var k := |ms| - 1;
      ArriveAllAcks(s, n, p, ms[..k], draws[..k]);
      hide AcksInv, NoneFrom, Arrive, CleanFrom, Acks, Free;
      var (s1, ack) := ArriveAll(s, n, p, ms[..k], draws[..k]);
      ArriveAcks(s1, n, p, ms[k], draws[k]);
      ArriveTx(s1, n, p, ms[k], draws[k]);
      if p.addr < |s.motes| {
        ArriveHead(s1, n, p, ms[k], draws[k], p.addr);
        FreeIsEmpty(s1.motes[p.addr]);
        assert p.addr == ms[k] && p.addr != n ==> p.addr !in ms[..k];
        assert p.addr !in ms ==> p.addr !in ms[..k] && p.addr != ms[k];
      }
    }
  }

  lemma FreeIsEmpty(m: Mote)
    ensures Free(m) ==> m.incoming == []
  {
  }

  lemma ArriveTx(s: State, n: nat, p: Packet, m: nat, draw: Draw)
    requires m < |s.motes| && n < |s.motes|
    ensures Arrive(s, n, p, m, draw).motes[n].tx == s.motes[n].tx
  {
  }

  lemma StartAcks(links: Links, s: State, e: Event, draws: seq<Draw>)
    requires WellFormed(links) && NoDuplicates(links) && |s.motes| == |links|
    requires QueueInv(s) && StateInv(s, -1) && AcksInv(s) && e in s.queue && e.time == s.now && e.kind.Start?
    requires e.mote < |links| && |draws| == |links[e.mote]| && s.motes[e.mote].sending.Some?
    ensures AcksInv(StartStep(links, s, e, draws))
  {
    StartBegins(s, e);
    StartUnfolds(links, s, e, draws);
    var n := e.mote;
    var p, s0 := s.motes[n].sending.value.packet, Started(s, e);
    assert AcksInv(s0) by {
      forall k | 0 <= k < |s0.motes| ensures AckInv(s0, k) { assert AckInv(s, k); }
    }
    hide QueueInv, StateInv, ArriveAll, StartStep;
    assert |links[n]| > 0 ==> links[n][0] < |links| <= BROADCAST;
    if |s.motes| <= BROADCAST {
      ArriveAllAcks(s0, n, p, links[n], draws);
    } else {
      assert links[n] == [];
      NoLinks(s0, n, p, draws);
    }
    var (s1, ack) := ArriveAll(s0, n, p, links[n], draws);
    var t := StartStep(links, s, e, draws);
    forall k | 0 <= k < |t.motes| ensures AckInv(t, k) {
      assert AckInv(s1, k);
    }
  }

  lemma NoLinks(s: State, n: nat, p: Packet, draws: seq<Draw>)
    requires draws == [] && n < |s.motes| && s.motes[n].pending.None? && AcksInv(s) && NoneFrom(s, n)
    ensures var (t, ack) := ArriveAll(s, n, p, [], draws);
            && AcksInv(t) && t.motes[n].pending.None?
            && (p.addr < |s.motes| ==> (ack <==> CleanFrom(t.motes[p.addr].incoming, n)))
  {
  }

  lemma ArrivalAcks(s: State, e: Event)
    requires QueueInv(s) && StateInv(s, -1) && AcksInv(s) && e in s.queue && e.time == s.now && !e.IsChain()
    requires e.mote < |s.motes| && Lists(s.motes[e.mote].incoming, e.kind.id)
    ensures AcksInv(ArrivalStep(s, e))
  {
    hide StateInv, QueueInv, AckInv, Find, Without;
    forall j | 0 <= j < |s.motes| ensures AckInv(ArrivalStep(s, e), j) {
      ArrivalAck(s, e, j);
    }
  }

  /** The entry of a finished packet leaves its list only after its done event. */
  lemma ArrivalAck(s: State, e: Event, j: nat)
    requires QueueInv(s) && StateInv(s, -1) && j < |s.motes| && AckInv(s, j) && e in s.queue && e.time == s.now
             && !e.IsChain()
    requires e.mote < |s.motes| && Lists(s.motes[e.mote].incoming, e.kind.id)
    ensures AckInv(ArrivalStep(s, e), j)
  {
    hide StateInv, QueueInv, Find, Without;
    var k := InOrder(s, e);
    var cs := s.motes[e.mote].incoming;
    if s.motes[j].pending.Some? && s.motes[j].pending.value.kind.Done? {
      forall i | 0 <= i < |cs| && cs[i].from == j ensures i != k {
        EndsAfterDone(s, j, e.mote, i);
      }
    }
  }

  /** The handled entry; one before it, if any, stays the head. */
  lemma InOrder(s: State, e: Event) returns (k: nat)
    requires QueueInv(s) && StateInv(s, -1) && e in s.queue && !e.IsChain()
    ensures e.mote < |s.motes| && Lists(s.motes[e.mote].incoming, e.kind.id)
    ensures var cs := s.motes[e.mote].incoming;
            && k < |cs| && cs[k].end == e.time && Without(cs, e.kind.id) == cs[..k] + cs[k + 1..]
            && forall i | 0 < i < |cs| :: !cs[i].deliver
  {
    hide Find, Without, OnAir, Alone, Detected;
    k := ArrivalEntry(s, e);
    assert ListInv(s.air, e.mote, s.motes[e.mote], s.now);
  }

  lemma EndsAfterDone(s: State, j: nat, m: nat, i: nat)
    requires QueueInv(s) && StateInv(s, -1) && j < |s.motes| && m < |s.motes| && i < |s.motes[m].incoming|
    requires s.motes[j].pending.Some? && s.motes[j].pending.value.kind.Done? && s.motes[m].incoming[i].from == j
    ensures s.motes[m].incoming[i].end > s.now
  {
    hide ListsInv, AirInv, DeliveriesInv, OwnInv;
    assert ChainInv(s.motes[j], j, s.now, -1);
    assert Expected(s, s.motes[j].pending.value);
    assert EndInv(s.motes[j], s.now, s.motes[m].incoming[i].end);
  }

  lemma DoneAcks(s: State, e: Event, again: Option<Request>)
    requires AcksInv(s) && e.mote < |s.motes|
    ensures AcksInv(DoneStep(s, e, again))
  {
    var t := DoneStep(s, e, again);
    forall k | 0 <= k < |t.motes| ensures AckInv(t, k) { assert AckInv(s, k); }
  }

  lemma BackoffAcks(s: State, e: Event, b: nat)
    requires AcksInv(s) && e.mote < |s.motes|
    ensures AcksInv(BackoffStep(s, e, b))
  {
    var t := BackoffStep(s, e, b);
    forall k | 0 <= k < |t.motes| ensures AckInv(t, k) { assert AckInv(s, k); }
  }

  lemma RequestAcks(s: State, n: nat, r: Request)
    requires AcksInv(s) && n < |s.motes|
    ensures AcksInv(RequestStep(s, n, r))
  {
    var t := RequestStep(s, n, r);
    forall k | 0 <= k < |t.motes| ensures AckInv(t, k) { assert AckInv(s, k); }
  }

  // ---- runs ----------------------------------------------------------------------------------

  function StepTime(step: Step): int {
    match step
    case Transmit(_, t, _) => t
    case HandleBackoff(e, _) => e.time
    case HandleStart(e, _) => e.time
    case HandleDone(e, _) => e.time
    case HandleReceive(e) => e.time
    case HandleNoise(e) => e.time
    case Switch(_, t, _) => t
  }

  /** The clock moves to the time of the step, and its code runs.  The tests guard what the
      code takes for granted; the invariant shows that they never fail. */
  function Apply(links: Links, s: State, step: Step): State {
    var u := s.(now := StepTime(step));
    match step
    case Transmit(n, t, r) => if n < |u.motes| then RequestStep(u, n, r) else u
    case HandleBackoff(e, b) => if e.mote < |u.motes| then BackoffStep(u, e, b) else u
    case HandleStart(e, draws) => if CanStart(links, u, e, draws) then StartStep(links, u, e, draws) else u
    case HandleDone(e, again) => if e.mote < |u.motes| then DoneStep(u, e, again) else u
    case HandleReceive(e) => if HasEntry(u, e) then ArrivalStep(u, e) else u
    case HandleNoise(e) => if HasEntry(u, e) then ArrivalStep(u, e) else u
    case Switch(n, t, on) => if n < |u.motes| then SetMote(u, n, u.motes[n].(on := on)) else u
  }

  predicate CanStart(links: Links, s: State, e: Event, draws: seq<Draw>) {
    WellFormed(links) && |s.motes| == |links| && e.mote < |links| && |draws| == |links[e.mote]|
      && s.motes[e.mote].sending.Some?
  }

  predicate HasEntry(s: State, e: Event) {
    e.mote < |s.motes| && !e.IsChain() && Lists(s.motes[e.mote].incoming, e.kind.id)
  }

  ghost predicate Inv(links: Links, s: State) {
    && |s.motes| == |links| && QueueInv(s) && StateInv(s, -1)
    && (NoDuplicates(links) ==> AcksInv(s))
  }

  lemma InitInv(links: Links)
    ensures Inv(links, Init(|links|))
  {
    var s := Init(|links|);
    forall e ensures !Expected(s, e) { }
  }

  lemma TimeAcks(s: State, t: int)
    requires AcksInv(s)
    ensures AcksInv(s.(now := t))
  {
    forall k | 0 <= k < |s.motes| ensures AckInv(s.(now := t), k) { assert AckInv(s, k); }
  }

  lemma StepPasses(links: Links, s: State, step: Step)
    requires Inv(links, s) && Enabled(links, s, step)
    ensures s.now <= StepTime(step) && Inv(links, s.(now := StepTime(step)))
  {
    var t := StepTime(step);
    assert MayPass(s, t) by {
      if !step.Transmit? && !step.Switch? {
        var e :| e in s.queue && e.time == t && Earliest(s, e);
        assert Expected(s, e);
      }
    }
    PassTime(s, t);
    if NoDuplicates(links) { TimeAcks(s, t); }
  }

  lemma SwitchKeeps(s: State, n: nat, on: bool)
    requires n < |s.motes| && QueueInv(s) && StateInv(s, -1)
    ensures var t := SetMote(s, n, s.motes[n].(on := on)); QueueInv(t) && StateInv(t, -1) && (AcksInv(s) ==> AcksInv(t))
  {
    hide ListInv, AirInv, DeliveryInv, EndInv, ChainInv, HasArrival, HalfDuplex, OwnBefore;
    var t := SetMote(s, n, s.motes[n].(on := on));
    forall e ensures Expected(t, e) == Expected(s, e) { }
    var m := t.motes[n];
    SameChain(s, n, m);
    SetMoteKeeps(s, n, m);
    if AcksInv(s) {
      forall k | 0 <= k < |t.motes| ensures AckInv(t, k) { assert AckInv(s, k); }
    }
  }

  lemma SameChain(s: State, n: nat, m: Mote)
    requires n < |s.motes| && StateInv(s, -1) && m == s.motes[n].(on := m.on)
    ensures ChainInv(m, n, s.now, -1) && FromEnd(s, n, m) && Since(s, n, m)
  {
    hide DeliveryInv, HalfDuplex, OwnBefore, OnAir, Detected, Alone;
    assert ChainInv(s.motes[n], n, s.now, -1);
    assert ListInv(s.air, n, s.motes[n], s.now);
  }

  lemma StepKeeps(links: Links, s: State, step: Step)
    requires WellFormed(links) && Inv(links, s) && Enabled(links, s, step)
    ensures Inv(links, Apply(links, s, step))
  {
    StepPasses(links, s, step);
    var u := s.(now := StepTime(step));
    assert QueueInv(u) && StateInv(u, -1) && u.queue == s.queue;
    hide QueueInv, StateInv, AcksInv, NoDuplicates, StartStep, BackoffStep, DoneStep, ArrivalStep, RequestStep;
    match step
    case Transmit(n, t, r) =>
      RequestKeeps(u, n, r);
      if NoDuplicates(links) { RequestAcks(u, n, r); }
      MotesKept(links, u, step);
    case HandleBackoff(e, b) =>
      BackoffKeeps(u, e, b);
      if NoDuplicates(links) { BackoffAcks(u, e, b); }
      MotesKept(links, u, step);
    case HandleStart(e, draws) =>
      StartKeeps(links, u, e, draws);
      if NoDuplicates(links) { StartAcks(links, u, e, draws); }
      MotesKept(links, u, step);
    case HandleDone(e, again) =>
      DoneKeeps(u, e, again);
      if NoDuplicates(links) { DoneAcks(u, e, again); }
      MotesKept(links, u, step);
    case HandleReceive(e) =>
      ArrivalKeeps(u, e);
      if NoDuplicates(links) { ArrivalAcks(u, e); }
      MotesKept(links, u, step);
    case HandleNoise(e) =>
      ArrivalKeeps(u, e);
      if NoDuplicates(links) { ArrivalAcks(u, e); }
      MotesKept(links, u, step);
    case Switch(n, t, on) =>
      SwitchKeeps(u, n, on);
  }

  lemma MotesKept(links: Links, s: State, step: Step)
    ensures |Apply(links, s, step).motes| == |s.motes|
  {
    hide ArriveAll, Without, Find;
  }

  /** The steps, each enabled in its turn, are a run of the simulator that ends in s. */
  ghost predicate Reaches(links: Links, steps: seq<Step>, s: State)
    decreases |steps|
  {
    if steps == [] then WellFormed(links) && s == Init(|links|)
    else
      var front, step := steps[..|steps| - 1], steps[|steps| - 1];
      exists u :: Reaches(links, front, u) && Enabled(links, u, step) && s == Apply(links, u, step)
  }

  lemma {:induction false} RunKeeps(links: Links, steps: seq<Step>, s: State)
    requires Reaches(links, steps, s)
    ensures WellFormed(links) && Inv(links, s)
    decreases |steps|
  {
    hide Inv, Enabled, Apply;
    if steps == [] {
      InitInv(links);
    } else {
      var front, step := steps[..|steps| - 1], steps[|steps| - 1];
      var u :| Reaches(links, front, u) && Enabled(links, u, step) && s == Apply(links, u, step);
      RunKeeps(links, front, u);
      StepKeeps(links, u, step);
    }
  }

  // ---- what the invariant says ------------------------------------------------------------------

  /** In every run each pending arrival has its entry in the list of its mote and each entry
      its event; handling one finds the entry, and if it is to be delivered it is the head. */
  lemma ArrivalsMatchLists(links: Links, steps: seq<Step>, s: State)
    requires Reaches(links, steps, s)
    ensures forall e | e in s.queue && !e.IsChain() ::
              e.mote < |s.motes| && Lists(s.motes[e.mote].incoming, e.kind.id) &&
              var c := Find(s.motes[e.mote].incoming, e.kind.id);
              ArrivalEvent(e.mote, c) == e && (e.kind.Receive? ==> c == s.motes[e.mote].incoming[0])
    ensures forall m, i | 0 <= m < |s.motes| && 0 <= i < |s.motes[m].incoming| ::
              ArrivalEvent(m, s.motes[m].incoming[i]) in s.queue
  {
    RunKeeps(links, steps, s);
    forall e | e in s.queue && !e.IsChain()
      ensures e.mote < |s.motes| && Lists(s.motes[e.mote].incoming, e.kind.id)
      ensures var c := Find(s.motes[e.mote].incoming, e.kind.id);
              ArrivalEvent(e.mote, c) == e && (e.kind.Receive? ==> c == s.motes[e.mote].incoming[0])
    {
      var k := ArrivalEntry(s, e);
      assert ListInv(s.air, e.mote, s.motes[e.mote], s.now);
    }
    forall m, i | 0 <= m < |s.motes| && 0 <= i < |s.motes[m].incoming|
      ensures ArrivalEvent(m, s.motes[m].incoming[i]) in s.queue
    {
      assert Expected(s, ArrivalEvent(m, s.motes[m].incoming[i]));
    }
  }

  /** In every run a mote is sending exactly when one backoff, start or done event of it is
      pending, and there is never a second one. */
  lemma OneChainEvent(links: Links, steps: seq<Step>, s: State, n: nat)
    requires Reaches(links, steps, s) && n < |s.motes|
    ensures s.motes[n].sending.Some? <==> exists e :: e in s.queue && e.IsChain() && e.mote == n
    ensures forall e, f | e in s.queue && f in s.queue && e.IsChain() && f.IsChain() && e.mote == f.mote == n :: e == f
    ensures s.motes[n].tx == TxTrans <==> exists e :: e in s.queue && e.mote == n && (e.kind.Start? || e.kind.Done?)
  {
    RunKeeps(links, steps, s);
    assert ChainInv(s.motes[n], n, s.now, -1);
    forall e | e in s.queue && e.IsChain() && e.mote == n ensures s.motes[n].pending == Some(e) {
      assert Expected(s, e);
    }
    if s.motes[n].pending.Some? {
      assert Expected(s, s.motes[n].pending.value);
    }
  }

  ghost predicate Overlap(start1: int, end1: int, start2: int, end2: int) {
    start1 < end2 && start2 < end1
  }

  /** A packet delivered with a good crc is the packet that was sent, and while it was on
      the air no other packet was on the air to that mote. */
  lemma GoodDeliveriesAreClean(links: Links, steps: seq<Step>, s: State, d: Delivery)
    requires Reaches(links, steps, s) && d in s.delivered && d.copy.crc
    ensures d.copy.id < |s.air| && s.air[d.copy.id].to == d.mote && s.air[d.copy.id].packet == d.copy.packet
    ensures forall id | 0 <= id < |s.air| && id != d.copy.id && s.air[id].to == d.mote ::
              !Overlap(d.copy.start, d.copy.end, s.air[id].start, s.air[id].end)
  {
    RunKeeps(links, steps, s);
    var k :| 0 <= k < |s.delivered| && s.delivered[k] == d;
    assert DeliveryInv(s.air, d, s.now);
  }

  /** A delivery with a bad crc was lost on its link, or something began before it ended. */
  lemma BadDeliveriesHaveACause(links: Links, steps: seq<Step>, s: State, d: Delivery)
    requires Reaches(links, steps, s) && d in s.delivered && !d.copy.crc
    ensures d.copy.id < |s.air|
    ensures s.air[d.copy.id].lost || exists id | d.copy.id < id < |s.air| ::
              s.air[id].to == d.mote && d.copy.start <= s.air[id].start <= d.copy.end
  {
    RunKeeps(links, steps, s);
    var k :| 0 <= k < |s.delivered| && s.delivered[k] == d;
    assert DeliveryInv(s.air, d, s.now);
    if !s.air[d.copy.id].lost {
      var id :| d.copy.id < id < |s.air| && s.air[id].to == d.mote && s.air[id].start <= d.copy.end;
    }
  }

  /** No mote is ever delivered a packet that overlaps its own transmission. */
  lemma DeliveriesAreHalfDuplex(links: Links, steps: seq<Step>, s: State)
    requires Reaches(links, steps, s)
    ensures forall i, k | 0 <= i < |s.delivered| && 0 <= k < |s.own| && s.own[k].mote == s.delivered[i].mote ::
              !Overlap(s.delivered[i].copy.start, s.delivered[i].copy.end, s.own[k].start, s.own[k].end)
  {
    RunKeeps(links, steps, s);
    forall i, k | 0 <= i < |s.delivered| && 0 <= k < |s.own| && s.own[k].mote == s.delivered[i].mote
      ensures !Overlap(s.delivered[i].copy.start, s.delivered[i].copy.end, s.own[k].start, s.own[k].end)
    {
      assert HalfDuplex(s.delivered[i], s.own[k]);
    }
  }

  /** In every run an entry that will be delivered is the head of its list and its mote is not
      transmitting; and if its crc is good, it is alone and what was sent. */
  lemma DeliverableIsHead(links: Links, steps: seq<Step>, s: State, m: nat, i: nat)
    requires Reaches(links, steps, s) && m < |s.motes| && i < |s.motes[m].incoming|
    ensures var c := s.motes[m].incoming[i];
            && c.id < |s.air| && s.air[c.id].to == m
            && (c.deliver ==>
                  && i == 0 && s.motes[m].tx != TxTrans
                  && (c.crc ==> |s.motes[m].incoming| == 1 && c.packet == s.air[c.id].packet))
  {
    RunKeeps(links, steps, s);
    assert ListInv(s.air, m, s.motes[m], s.now);
  }

  /** The acknowledgement of a packet for one mote is set, when its done event is handled,
      exactly if that mote holds a good copy that it will be delivered. */
  ghost predicate AckTold(s: State, e: Event) {
    && e.mote < |s.motes| && s.motes[e.mote].sending.Some?
    && var out := s.motes[e.mote].sending.value;
       out.packet.addr < |s.motes| ==> (out.ack <==> CleanFrom(s.motes[out.packet.addr].incoming, e.mote))
  }

  /** So it is in every run ... */
  ghost predicate AcksAreTrue(links: Links) {
    forall steps, s, e, again | Reaches(links, steps, s) && Enabled(links, s, HandleDone(e, again)) :: AckTold(s, e)
  }

  lemma AckIsTrue(links: Links, steps: seq<Step>, s: State, e: Event, again: Option<Request>)
    requires WellFormed(links) && NoDuplicates(links)
    requires Reaches(links, steps, s) && Enabled(links, s, HandleDone(e, again))
    ensures AckTold(s, e)
  {
    RunKeeps(links, steps, s);
    hide Reaches;
    assert Expected(s, e);
    assert ChainInv(s.motes[e.mote], e.mote, s.now, -1);
    assert AckInv(s, e.mote);
  }

  /** ... exactly in the topologies where no mote has two links to the same other mote. */
  lemma AcksAreTrueIff(links: Links)
    requires WellFormed(links)
    ensures AcksAreTrue(links) <==> NoDuplicates(links)
  {
    if NoDuplicates(links) {
      hide Reaches, Enabled, AckTold;
      forall steps, s, e, again | Reaches(links, steps, s) && Enabled(links, s, HandleDone(e, again))
        ensures AckTold(s, e)
      {
        AckIsTrue(links, steps, s, e, again);
      }
    } else {
      var n :| 0 <= n < |links| && !Distinct(n, links[n]);
      var i, j :| 0 <= i < j < |links[n]| && links[n][i] == links[n][j] && links[n][i] != n;
      hide Reaches, Enabled, AckTold, NoDuplicates;
      var steps, s, e := FalseAck(links, n, i, j);
      assert !AckTold(s, e);
      assert Enabled(links, s, HandleDone(e, None));
    }
  }

  // ---- a run with a duplicate link ---------------------------------------------------------------

  const GOOD_DRAW := Draw(false, _ => Packet(0, 0, []))

  function GoodDraws(count: nat): (r: seq<Draw>)
    ensures |r| == count
  {
    seq(count, _ => GOOD_DRAW)
  }

  function Occurrences(ms: seq<nat>, m: nat): nat {
    if ms == [] then 0 else Occurrences(ms[..|ms| - 1], m) + if ms[|ms| - 1] == m then 1 else 0
  }

  lemma {:induction false} OccursTwice(ms: seq<nat>, m: nat, i: nat, j: nat)
    requires i < j < |ms| && ms[i] == ms[j] == m
    ensures Occurrences(ms, m) >= 2
  {
    var front := ms[..|ms| - 1];
    if j < |ms| - 1 { OccursTwice(front, m, i, j); } else { OccursOnce(front, m, i); }
  }

  lemma {:induction false} OccursOnce(ms: seq<nat>, m: nat, i: nat)
    requires i < |ms| && ms[i] == m
    ensures Occurrences(ms, m) >= 1
  {
    if i < |ms| - 1 { OccursOnce(ms[..|ms| - 1], m, i); }
  }

  /** A free mote that is reached once holds a good copy; reached again, a corrupted one;
      and it has acknowledged. */
  lemma {:induction false} ReachedTwice(s: State, n: nat, p: Packet, ms: seq<nat>, m: nat)
    requires |s.motes| <= BROADCAST && forall i | 0 <= i < |ms| :: ms[i] < |s.motes|
    requires m < |s.motes| && Free(s.motes[m]) && p.addr == m
    ensures var (t, ack) := ArriveAll(s, n, p, ms, GoodDraws(|ms|));
            var cs := t.motes[m].incoming;
            match Occurrences(ms, m)
            case 0 => Free(t.motes[m]) && !ack
            case 1 => ack && cs != []
            case _ => ack && cs != [] && !CleanFrom(cs, n)
  {
    if ms != [] {
      var k := |ms| - 1;
      ReachedTwice(s, n, p, ms[..k], m);
      assert GoodDraws(|ms|)[..k] == GoodDraws(k);
      var (s1, ack) := ArriveAll(s, n, p, ms[..k], GoodDraws(k));
      ReachedMore(s1, n, p, ms[k], m);
      hide Arrive, Acks, Free, CleanFrom;
    }
  }

  lemma ReachedMore(s: State, n: nat, p: Packet, x: nat, m: nat)
    requires x < |s.motes| && m < |s.motes| && p.addr == m < BROADCAST
    ensures var (t, acks) := (Arrive(s, n, p, x, GOOD_DRAW), Acks(s, p, x, GOOD_DRAW));
            && |t.motes| == |s.motes|
            && (s.motes[m].incoming != [] ==> !Free(s.motes[m]))
            && (if x != m
                then && !acks && t.motes[m].incoming == s.motes[m].incoming
                     && Free(t.motes[m]) == Free(s.motes[m])
                else && t.motes[m].incoming != [] && acks == Free(s.motes[m])
                     && (!Free(s.motes[m]) ==> !CleanFrom(t.motes[m].incoming, n)))
  {
    hide AirTime, ArrivalEvent, HeardFrom;
  }

  /** After a request and a granted backoff only mote n has anything pending. */
  function Granted(count: nat, n: nat, p: Packet): State
    requires n < count
  {
    var e := Event(n, INIT_BACKOFF_LOW + TX_CHANGE_LATENCY, Start);
    State(INIT_BACKOFF_LOW, {e},
          Init(count).motes[n := Mote(Some(Outgoing(p, false)), TxTrans, [], true, Some(e), INIT_BACKOFF_LOW)],
            [], [], [])
  }

  lemma FirstTwo(links: Links, n: nat, p: Packet, steps: seq<Step>)
    requires WellFormed(links) && n < |links|
    requires steps == [Transmit(n, 0, Request(p, 0)), HandleBackoff(Event(n, INIT_BACKOFF_LOW, Backoff), 0)]
    ensures Reaches(links, steps, Granted(|links|, n, p))
  {
    var s0 := Init(|links|);
    var s1 := Apply(links, s0, steps[0]);
    var e1 := Event(n, INIT_BACKOFF_LOW, Backoff);
    assert s1.queue == {e1};
    assert Apply(links, s1, steps[1]) == Granted(|links|, n, p);
    hide Enabled, Apply;
    assert Reaches(links, [], s0);
    assert steps == [] + [steps[0]] + [steps[1]];
    OneMore(links, [], s0, steps[0]);
    OneMore(links, [] + [steps[0]], s1, steps[1]);
  }

  ghost predicate OnlyFrom(s: State, n: nat) {
    && (forall m, i | 0 <= m < |s.motes| && 0 <= i < |s.motes[m].incoming| :: s.motes[m].incoming[i].from == n)
    && (forall k | 0 <= k < |s.motes| :: s.motes[k].pending.None?)
  }

  lemma {:induction false} ArriveAllOnlyFrom(s: State, n: nat, p: Packet, ms: seq<nat>, draws: seq<Draw>)
    requires |draws| == |ms| && forall i | 0 <= i < |ms| :: ms[i] < |s.motes|
    requires OnlyFrom(s, n)
    ensures OnlyFrom(ArriveAll(s, n, p, ms, draws).0, n)
  {
    if ms != [] {
      var k := |ms| - 1;
      ArriveAllOnlyFrom(s, n, p, ms[..k], draws[..k]);
      var s1 := ArriveAll(s, n, p, ms[..k], draws[..k]).0;
      var t := Arrive(s1, n, p, ms[k], draws[k]);
      forall m, i | 0 <= m < |t.motes| && 0 <= i < |t.motes[m].incoming| ensures t.motes[m].incoming[i].from == n {
        if i < |s1.motes[m].incoming| { assert t.motes[m].incoming[i].from == s1.motes[m].incoming[i].from; }
      }
    }
  }

  /** When only n's packet is on the air, its done event is the first. */
  lemma DoneIsFirst(s: State, n: nat, e: Event)
    requires n < |s.motes| && QueueInv(s) && EndsInv(s, -1)
    requires s.motes[n].pending == Some(e) && e.mote == n && e.kind.Done?
    requires forall m, i | 0 <= m < |s.motes| && 0 <= i < |s.motes[m].incoming| :: s.motes[m].incoming[i].from == n
    requires forall k | 0 <= k < |s.motes| && k != n :: s.motes[k].pending.None?
    ensures Earliest(s, e)
  {
    assert Expected(s, e);
    forall f | f in s.queue ensures e.time <= f.time {
      assert Expected(s, f);
      if !f.IsChain() {
        var i :| 0 <= i < |s.motes[f.mote].incoming| && ArrivalEvent(f.mote, s.motes[f.mote].incoming[i]) == f;
        assert EndInv(s.motes[n], s.now, s.motes[f.mote].incoming[i].end);
      }
    }
  }

  lemma FalseAck(links: Links, n: nat, i: nat, j: nat) returns (steps: seq<Step>, s: State, e: Event)
    requires WellFormed(links) && n < |links| && i < j < |links[n]| && links[n][i] == links[n][j] != n
    ensures Reaches(links, steps, s) && Enabled(links, s, HandleDone(e, None)) && !AckTold(s, e)
  {
    hide ArriveAll, CleanFrom, Inv, StateInv, QueueInv, Reaches, EndsInv;
    var m, p, draws := links[n][i], Packet(links[n][i], 0, []), GoodDraws(|links[n]|);
    var two := [Transmit(n, 0, Request(p, 0)), HandleBackoff(Event(n, INIT_BACKOFF_LOW, Backoff), 0)];
    FirstTwo(links, n, p, two);
    var s2 := Granted(|links|, n, p);
    var e2 := s2.motes[n].pending.value;
    var third := HandleStart(e2, draws);
    steps := two + [third];
    s := Apply(links, s2, third);
    OneMore(links, two, s2, third);
    var u := s2.(now := e2.time);
    StartUnfolds(links, u, e2, draws);
    OccursTwice(links[n], m, i, j);
    var v := Started(u, e2);
    ReachedTwice(v, n, p, links[n], m);
    assert OnlyFrom(v, n);
    ArriveAllOnlyFrom(v, n, p, links[n], draws);
    e := s.motes[n].pending.value;
    RunKeeps(links, steps, s);
    InvParts(links, s);
    DoneIsFirst(s, n, e);
  }

  lemma InvParts(links: Links, s: State)
    requires Inv(links, s)
    ensures |s.motes| == |links| && QueueInv(s) && EndsInv(s, -1)
  {
  }

  /** A run goes on with any step that is enabled. */
  lemma OneMore(links: Links, steps: seq<Step>, s: State, step: Step)
    requires Reaches(links, steps, s) && Enabled(links, s, step)
    ensures Reaches(links, steps + [step], Apply(links, s, step))
  {
    hide Enabled, Apply;
    assert (steps + [step])[..|steps|] == steps;
    assert Reaches(links, (steps + [step])[..|steps|], s);
  }
}
