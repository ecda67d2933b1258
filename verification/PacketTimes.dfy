/** When the packet simulator's events come: how long a mote waits before it looks at the
    channel, how long it waits when the channel is busy, and how long it is on the air. */
module PacketTimes {
  import opened Wrappers
  import opened PacketSpec
  import opened PacketInvariant
  import opened PacketRuns

  /** The times at which mote n looked at the channel. */
  function LookTimes(steps: seq<Step>, n: nat): seq<int> {
    if steps == [] then []
    else
      var front, step := steps[..|steps| - 1], steps[|steps| - 1];
      LookTimes(front, n) + if step.HandleBackoff? && step.event.mote == n then [step.event.time] else []
  }

  predicate Spaced(ts: seq<int>) {
    (ts != [] ==> ts[0] >= 832) && forall i | 0 < i < |ts| :: ts[i - 1] + 832 <= ts[i]
  }

  predicate After(ts: seq<int>, wait: int, t: int) {
    if ts == [] then t >= wait else ts[|ts| - 1] + wait <= t
  }

  predicate At(ts: seq<int>, wait: int, t: int) { ts != [] && t == ts[|ts| - 1] + wait }

  /** The pending event of a mote that looked at the channel at those times. */
  predicate Waits(m: Mote, ts: seq<int>) {
    m.pending.Some? ==>
      match m.pending.value.kind
      case Backoff => After(ts, 832, m.pending.value.time)
      case Start => At(ts, 0, m.since) && At(ts, 1000, m.pending.value.time)
      case Done =>
        && m.sending.Some? && At(ts, 0, m.since)
        && At(ts, 1000 + (13 + m.sending.value.packet.length) * 1664 - 1, m.pending.value.time)
      case _ => true
  }

  ghost predicate WaitInv(s: State, n: nat, ts: seq<int>) {
    n < |s.motes| && Spaced(ts) && After(ts, 0, s.now) && Waits(s.motes[n], ts)
  }

  /** What an arrival leaves of a mote: all but its list and an acknowledgement. */
  predicate Aside(m: Mote, m': Mote) {
    && m'.pending == m.pending && m'.since == m.since && m'.tx == m.tx && m'.on == m.on
    && m'.sending.Some? == m.sending.Some?
    && (m.sending.Some? ==> m'.sending.value.packet == m.sending.value.packet)
  }

  lemma ArriveAside(s: State, n: nat, p: Packet, m: nat, draw: Draw, k: nat)
    requires m < |s.motes| && k < |s.motes|
    ensures k < |Arrive(s, n, p, m, draw).motes| && Aside(s.motes[k], Arrive(s, n, p, m, draw).motes[k])
    ensures Arrive(s, n, p, m, draw).now == s.now && Arrive(s, n, p, m, draw).delivered == s.delivered
  {
    hide HeardFrom, ArrivalEvent, AirTime, Free;
  }

  lemma {:induction false} ArriveAllAside(s: State, n: nat, p: Packet, ms: seq<nat>, draws: seq<Draw>, k: nat)
    requires |draws| == |ms| && k < |s.motes| && forall i | 0 <= i < |ms| :: ms[i] < |s.motes|
    ensures var t := ArriveAll(s, n, p, ms, draws).0;
            k < |t.motes| && Aside(s.motes[k], t.motes[k]) && t.now == s.now && t.delivered == s.delivered
  {
    hide Arrive, Acks;
    if ms != [] {
      var j := |ms| - 1;
      ArriveAllAside(s, n, p, ms[..j], draws[..j], k);
      ArriveAside(ArriveAll(s, n, p, ms[..j], draws[..j]).0, n, p, ms[j], draws[j], k);
    }
  }

  lemma StartAside(links: Links, s: State, e: Event, draws: seq<Draw>, k: nat)
    requires CanStart(links, s, e, draws) && e.time == s.now && k < |s.motes|
    ensures var t := StartStep(links, s, e, draws);
            && |t.motes| == |s.motes| && t.now == s.now && t.delivered == s.delivered
            && (k != e.mote ==> Aside(s.motes[k], t.motes[k]))
            && (k == e.mote ==>
                  && var (m, out) := (t.motes[k], s.motes[k].sending.value);
                  && m.sending.Some? && m.sending.value.packet == out.packet && m.since == s.motes[k].since
                  && m.on == s.motes[k].on && m.tx == s.motes[k].tx
                  && m.pending == Some(Event(k, e.time + (13 + out.packet.length) * 1664 - 1, Done))
                  && m.pending.value in t.queue)
  {
    hide ArriveAll, StartStep;
    StartUnfolds(links, s, e, draws);
    ArriveAllAside(Started(s, e), e.mote, s.motes[e.mote].sending.value.packet, links[e.mote], draws, k);
  }

  lemma SpacedMore(ts: seq<int>, t: int)
    requires Spaced(ts) && After(ts, 832, t)
    ensures Spaced(ts + [t]) && At(ts + [t], 0, t)
  {
  }

  lemma BackoffWaits(s: State, e: Event, b: nat, n: nat, ts: seq<int>)
    requires e.mote < |s.motes| && s.motes[e.mote].pending == Some(e) && e.kind.Backoff? && e.time == s.now
    requires WaitInv(s, n, ts)
    ensures WaitInv(BackoffStep(s, e, b), n, if n == e.mote then ts + [e.time] else ts)
  {
    if n == e.mote { SpacedMore(ts, e.time); }
    hide Spaced;
  }

  lemma StartWaits(links: Links, s: State, e: Event, draws: seq<Draw>, n: nat, ts: seq<int>)
    requires CanStart(links, s, e, draws) && e.time == s.now
    requires s.motes[e.mote].pending == Some(e) && e.kind.Start? && WaitInv(s, n, ts)
    ensures WaitInv(StartStep(links, s, e, draws), n, ts)
  {
    hide StartStep, Spaced;
    StartAside(links, s, e, draws, n);
  }

  lemma OtherWaits(s: State, t: State, n: nat, ts: seq<int>)
    requires WaitInv(s, n, ts) && n < |t.motes| && t.now == s.now && Aside(s.motes[n], t.motes[n])
    ensures WaitInv(t, n, ts)
  {
  }

  lemma LaterWaits(s: State, t: int, n: nat, ts: seq<int>)
    requires WaitInv(s, n, ts) && s.now <= t
    ensures WaitInv(s.(now := t), n, ts)
  {
  }

  lemma RequestWaits(s: State, n: nat, r: Request, k: nat, ts: seq<int>)
    requires n < |s.motes| && WaitInv(s, k, ts)
    ensures WaitInv(RequestStep(s, n, r), k, ts)
  {
    hide Spaced;
  }

  lemma DoneWaits(s: State, e: Event, again: Option<Request>, k: nat, ts: seq<int>)
    requires e.mote < |s.motes| && e.time == s.now && WaitInv(s, k, ts)
    ensures WaitInv(DoneStep(s, e, again), k, ts)
  {
    hide Spaced;
  }

  /** What a step that is no request, backoff, start or done event leaves of mote n. */
  lemma ArrivalAside(s: State, e: Event, n: nat)
    requires HasEntry(s, e) && e.time == s.now && n < |s.motes|
    ensures var t := ArrivalStep(s, e); |t.motes| == |s.motes| && t.now == s.now && Aside(s.motes[n], t.motes[n])
  {
    hide Find, Without;
  }

  function Looked(step: Step, n: nat, ts: seq<int>): seq<int> {
    ts + if step.HandleBackoff? && step.event.mote == n then [step.event.time] else []
  }

  /** The pending event of a chain step is the one it handles. */
  lemma Handles(links: Links, s: State, e: Event)
    requires Inv(links, s) && e in s.queue && e.IsChain()
    ensures e.mote < |s.motes| == |links| && s.motes[e.mote].pending == Some(e) && s.motes[e.mote].sending.Some?
  {
    PendingOf(s, e);
    assert ChainInv(s.motes[e.mote], e.mote, s.now, -1);
  }

  lemma HasItsEntry(links: Links, s: State, e: Event)
    requires Inv(links, s) && e in s.queue && !e.IsChain()
    ensures HasEntry(s, e)
  {
    assert Expected(s, e);
    var i :| 0 <= i < |s.motes[e.mote].incoming| && ArrivalEvent(e.mote, s.motes[e.mote].incoming[i]) == e;
  }

  /** The event of the step is pending, is its time's, and is of its kind. */
  predicate Due(s: State, step: Step) {
    match step
    case Transmit(n, t, r) => n < |s.motes|
    case HandleBackoff(e, b) => e in s.queue && e.kind.Backoff? && e.time == s.now
    case HandleStart(e, draws) => e in s.queue && e.kind.Start? && e.time == s.now
    case HandleDone(e, again) => e in s.queue && e.kind.Done? && e.time == s.now
    case HandleReceive(e) => e in s.queue && e.kind.Receive? && e.time == s.now
    case HandleNoise(e) => e in s.queue && e.kind.Noise? && e.time == s.now
    case Switch(n, t, on) => n < |s.motes|
  }

  lemma StepDue(links: Links, s: State, step: Step)
    requires Inv(links, s) && Enabled(links, s, step)
    ensures s.now <= StepTime(step) && Inv(links, s.(now := StepTime(step)))
    ensures Due(s.(now := StepTime(step)), step)
    ensures step.HandleStart? ==> step.event.mote < |links| && |step.draws| == |links[step.event.mote]|
  {
    StepPasses(links, s, step);
    hide Inv;
  }

  lemma StepWaits(links: Links, s: State, step: Step, n: nat, ts: seq<int>)
    requires WellFormed(links) && Inv(links, s) && Enabled(links, s, step) && WaitInv(s, n, ts)
    ensures WaitInv(Apply(links, s, step), n, Looked(step, n, ts))
  {
    StepDue(links, s, step);
    hide Enabled, Inv, WaitInv;
    var u := s.(now := StepTime(step));
    LaterWaits(s, u.now, n, ts);
    assert ts + [] == ts;
    match step
    case HandleBackoff(e, b) => LookWaits(links, u, e, b, n, ts);
    case HandleReceive(e) => ArrivalWaits(links, u, e, n, ts);
    case HandleNoise(e) => ArrivalWaits(links, u, e, n, ts);
    case Transmit(m, t, r) => RequestWaits(u, m, r, n, ts);
    case Switch(m, t, on) => SwitchWaits(u, m, on, n, ts);
    case _ => SendWaits(links, s, step, n, ts);
  }

  lemma LookWaits(links: Links, s: State, e: Event, b: nat, n: nat, ts: seq<int>)
    requires Inv(links, s) && Due(s, HandleBackoff(e, b)) && WaitInv(s, n, ts)
    ensures e.mote < |s.motes| && WaitInv(BackoffStep(s, e, b), n, Looked(HandleBackoff(e, b), n, ts))
  {
    Handles(links, s, e);
    BackoffWaits(s, e, b, n, ts);
    assert ts + [] == ts;
  }

  lemma SendWaits(links: Links, s: State, step: Step, n: nat, ts: seq<int>)
    requires WellFormed(links) && (step.HandleStart? || step.HandleDone?)
    requires var u := s.(now := StepTime(step)); Inv(links, u) && Due(u, step) && WaitInv(u, n, ts)
    requires step.HandleStart? ==> step.event.mote < |links| && |step.draws| == |links[step.event.mote]|
    ensures WaitInv(Apply(links, s, step), n, ts)
  {
    hide WaitInv, Inv, StartStep, DoneStep;
    var u := s.(now := StepTime(step));
    Handles(links, u, step.event);
    match step
    case HandleStart(e, draws) => StartWaits(links, u, e, draws, n, ts);
    case HandleDone(e, again) => DoneWaits(u, e, again, n, ts);
  }

  lemma ArrivalWaits(links: Links, s: State, e: Event, n: nat, ts: seq<int>)
    requires Inv(links, s) && e in s.queue && !e.IsChain() && e.time == s.now && WaitInv(s, n, ts)
    ensures HasEntry(s, e) && WaitInv(ArrivalStep(s, e), n, ts)
  {
    hide Inv, ArrivalStep;
    HasItsEntry(links, s, e);
    ArrivalAside(s, e, n);
    OtherWaits(s, ArrivalStep(s, e), n, ts);
  }

  lemma SwitchWaits(s: State, m: nat, on: bool, n: nat, ts: seq<int>)
    requires m < |s.motes| && WaitInv(s, n, ts)
    ensures WaitInv(SetMote(s, m, s.motes[m].(on := on)), n, ts)
  {
    hide Spaced;
  }

  lemma {:induction false} RunWaits(links: Links, steps: seq<Step>, s: State, n: nat)
    requires Reaches(links, steps, s) && n < |links|
    ensures WaitInv(s, n, LookTimes(steps, n))
    decreases |steps|
  {
    if steps != [] {
      hide Inv, Enabled, Apply, WaitInv;
      var front, step := steps[..|steps| - 1], steps[|steps| - 1];
      var u :| Reaches(links, front, u) && Enabled(links, u, step) && s == Apply(links, u, step);
      RunWaits(links, front, u, n);
      RunKeeps(links, front, u);
      StepWaits(links, u, step, n, LookTimes(front, n));
    }
  }

  // ---- the laws ----------------------------------------------------------------------------------

  lemma {:induction false} SpacedFar(ts: seq<int>, i: nat, j: nat)
    requires Spaced(ts) && i <= j < |ts|
    ensures ts[i] + 832 * (j - i) <= ts[j] && 832 * (j + 1) <= ts[j]
  {
    if i < j { SpacedFar(ts, i, j - 1); } else if j > 0 { SpacedFar(ts, i - 1, j - 1); }
  }

  /** In every run the looks of a mote at the channel are at least a byte time of 832 ticks
      apart, so that up to any time there are only so many of them. */
  lemma LooksAreSpaced(links: Links, steps: seq<Step>, s: State, n: nat)
    requires Reaches(links, steps, s) && n < |links|
    ensures var ts := LookTimes(steps, n);
            && (forall i, j | 0 <= i <= j < |ts| :: ts[i] + 832 * (j - i) <= ts[j] <= s.now)
            && 832 * |ts| <= s.now
  {
    RunWaits(links, steps, s, n);
    hide Reaches, LookTimes;
    AllSpaced(LookTimes(steps, n), s.now);
  }

  lemma AllSpaced(ts: seq<int>, now: int)
    requires Spaced(ts) && After(ts, 0, now)
    ensures forall i, j | 0 <= i <= j < |ts| :: ts[i] + 832 * (j - i) <= ts[j] <= now
    ensures 832 * |ts| <= now
  {
    hide Spaced;
    forall i, j | 0 <= i <= j < |ts| ensures ts[i] + 832 * (j - i) <= ts[j] <= now {
      SpacedFar(ts, i, j);
      SpacedFar(ts, j, |ts| - 1);
    }
    if ts != [] { SpacedFar(ts, |ts| - 1, |ts| - 1); }
  }

  /** The one pending chain event of mote n. */
  ghost predicate Next(s: State, n: nat, e: Event) {
    && e in s.queue && e.mote == n && e.IsChain()
    && forall f | f in s.queue && f.mote == n && f.IsChain() :: f == e
  }

  lemma PendingIsNext(links: Links, s: State, n: nat)
    requires Inv(links, s) && n < |s.motes| && s.motes[n].pending.Some?
    ensures Next(s, n, s.motes[n].pending.value)
  {
    assert ChainInv(s.motes[n], n, s.now, -1);
    assert Expected(s, s.motes[n].pending.value);
    forall f | f in s.queue && f.mote == n && f.IsChain() ensures f == s.motes[n].pending.value {
      PendingOf(s, f);
    }
  }

  lemma BackoffDraw(links: Links, s: State, e: Event, b: nat)
    requires Enabled(links, s, HandleBackoff(e, b))
    ensures b < 15 * 832
  {
  }

  lemma Looks(links: Links, s: State, e: Event, b: nat)
    requires e.mote < |s.motes|
    ensures var (t, m) := (Apply(links, s, HandleBackoff(e, b)), s.motes[e.mote]);
            && t.now == e.time && |t.motes| == |s.motes|
            && t.motes[e.mote] ==
                 if m.incoming != [] then m.(pending := Some(Event(e.mote, e.time + 832 + b, Backoff)))
                 else m.(pending := Some(Event(e.mote, e.time + 1000, Start)), tx := TxTrans, since := e.time)
  {
  }

  /** In every run a mote that finds something coming in looks again after a byte time and
      the draw, before sixteen byte times are over; one that finds nothing goes on the air
      1000 ticks later. */
  lemma BusyMotesWait(links: Links, steps: seq<Step>, s: State, e: Event, b: nat)
    requires Reaches(links, steps, s) && Enabled(links, s, HandleBackoff(e, b))
    ensures var t := Apply(links, s, HandleBackoff(e, b));
            && e.mote < |s.motes| == |t.motes| && t.now == e.time
            && if s.motes[e.mote].incoming != []
               then && Next(t, e.mote, Event(e.mote, e.time + 832 + b, Backoff))
                    && e.time + 832 <= e.time + 832 + b < e.time + 16 * 832
                    && t.motes[e.mote].tx == s.motes[e.mote].tx
               else && Next(t, e.mote, Event(e.mote, e.time + 1000, Start))
                    && t.motes[e.mote].tx == TxTrans
  {
    var step := HandleBackoff(e, b);
    RunKeeps(links, steps, s);
    StepKeeps(links, s, step);
    Handles(links, s, e);
    hide Inv, Reaches, Next, Enabled, Apply;
    assert b < 15 * 832 by { BackoffDraw(links, s, e, b); }
    Looks(links, s, e, b);
    PendingIsNext(links, Apply(links, s, step), e.mote);
  }

  /** In every run a request of a mote that is sending nothing is granted, and the mote looks
      at the channel after one to 32 byte times; any other request changes nothing. */
  lemma RequestsWait(links: Links, steps: seq<Step>, s: State, n: nat, at: int, r: Request)
    requires Reaches(links, steps, s) && Enabled(links, s, Transmit(n, at, r))
    ensures var t := Apply(links, s, Transmit(n, at, r));
            if s.motes[n].sending.Some? then t == s.(now := at)
            else && |t.motes| == |s.motes| && Next(t, n, Event(n, at + 832 + r.backoff, Backoff))
                 && at + 832 <= at + 832 + r.backoff < at + 32 * 832
                 && t.motes[n].sending == Some(Outgoing(r.packet, false)) && t.motes[n].tx == TxBack
  {
    var step := Transmit(n, at, r);
    RunKeeps(links, steps, s);
    StepKeeps(links, s, step);
    hide Inv, Reaches, Next, Enabled, Apply;
    assert n < |s.motes| && r.backoff < 31 * 832 by { RequestDraw(links, s, n, at, r); }
    Asks(links, s, n, at, r);
    if s.motes[n].sending.None? { PendingIsNext(links, Apply(links, s, step), n); }
  }

  lemma RequestDraw(links: Links, s: State, n: nat, at: int, r: Request)
    requires Enabled(links, s, Transmit(n, at, r))
    ensures n < |s.motes| && r.backoff < 31 * 832
  {
  }

  lemma Asks(links: Links, s: State, n: nat, at: int, r: Request)
    requires n < |s.motes|
    ensures var (t, m) := (Apply(links, s, Transmit(n, at, r)), s.motes[n]);
            if m.sending.Some? then t == s.(now := at)
            else && |t.motes| == |s.motes|
                 && t.motes[n] == m.(pending := Some(Event(n, at + 832 + r.backoff, Backoff)), tx := TxBack,
                                     sending := Some(Outgoing(r.packet, false)))
  {
  }

  /** In every run a mote whose start event is pending goes on the air 1000 ticks after its last look
      at the channel, and its packet takes 1664 ticks for each byte of preamble, header and
      data; it is done one tick before that time is over. */
  lemma SendingTakes(links: Links, steps: seq<Step>, s: State, e: Event)
    requires Reaches(links, steps, s) && e in s.queue && (e.kind.Start? || e.kind.Done?)
    ensures e.mote < |s.motes| && s.motes[e.mote].sending.Some?
    ensures var (ts, length) := (LookTimes(steps, e.mote), s.motes[e.mote].sending.value.packet.length);
            && ts != []
            && (e.kind.Start? ==> e.time == ts[|ts| - 1] + 1000)
            && (e.kind.Done? ==> e.time == ts[|ts| - 1] + 1000 + (6 + length + 7) * 1664 - 1)
  {
    RunKeeps(links, steps, s);
    Handles(links, s, e);
    RunWaits(links, steps, s, e.mote);
  }

  /** In every run a done event records the transmission from the mote's last look at the
      channel on, and leaves it idle; a packet it asks to send at once is pending
      all the same. */
  lemma DoneLeavesIdle(links: Links, steps: seq<Step>, s: State, e: Event, again: Option<Request>)
    requires Reaches(links, steps, s) && Enabled(links, s, HandleDone(e, again))
    ensures var (t, ts) := (Apply(links, s, HandleDone(e, again)), LookTimes(steps, e.mote));
            && e.mote < |s.motes| == |t.motes| && ts != [] && t.own == s.own + [Own(e.mote, ts[|ts| - 1], e.time)]
            && t.motes[e.mote].tx == TxIdle
            && match again
               case None => t.motes[e.mote].sending.None?
               case Some(r) =>
                 && t.motes[e.mote].sending == Some(Outgoing(r.packet, false))
                 && Next(t, e.mote, Event(e.mote, e.time + 832 + r.backoff, Backoff))
  {
    var step := HandleDone(e, again);
    RunKeeps(links, steps, s);
    StepKeeps(links, s, step);
    Handles(links, s, e);
    hide Inv, Reaches, Next, Enabled, Apply;
    assert e.kind.Done? by { DoneKind(links, s, e, again); }
    RunWaits(links, steps, s, e.mote);
    Finishes(links, s, e, again);
    if again.Some? { PendingIsNext(links, Apply(links, s, step), e.mote); }
  }

  lemma DoneKind(links: Links, s: State, e: Event, again: Option<Request>)
    requires Enabled(links, s, HandleDone(e, again))
    ensures e.kind.Done?
  {
  }

  lemma Finishes(links: Links, s: State, e: Event, again: Option<Request>)
    requires e.mote < |s.motes|
    ensures var t := Apply(links, s, HandleDone(e, again));
            && |t.motes| == |s.motes| && t.own == s.own + [Own(e.mote, s.motes[e.mote].since, e.time)]
            && t.motes[e.mote] ==
                 s.motes[e.mote].(
                   tx := TxIdle,
                   sending := if again.Some? then Some(Outgoing(again.value.packet, false)) else None,
                   pending := if again.Some?
                              then Some(Event(e.mote, e.time + 832 + again.value.backoff, Backoff)) else None)
  {
  }
}
