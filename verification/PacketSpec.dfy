/** The packet-level radio simulator as a state machine.

    A step handles one pending event, the earliest, or lets a mote ask for a transmission.
    Times are ticks; draws of the random generator are arguments of the steps.  Besides
    the simulator's own variables the state keeps a record of everything that was ever on
    the air, of what was delivered and of when each mote was transmitting, so that whole
    runs can be spoken of. */
module PacketSpec {
  import opened Wrappers

  const BYTE_TIME := 8 * 104
  const BYTE_TRANSMIT_TIME := BYTE_TIME * 2
  const INIT_BACKOFF_LOW := 1 * BYTE_TIME
  const INIT_BACKOFF_HIGH := 32 * BYTE_TIME
  const BACKOFF_LOW := 1 * BYTE_TIME
  const BACKOFF_HIGH := 16 * BYTE_TIME
  const TX_CHANGE_LATENCY := 1000
  const PREAMBLE_LENGTH := 6
  const HEADER_LENGTH := 7
  const BROADCAST := 0xFFFF

  /** The part of a message that goes over the air. */
  datatype Packet = Packet(addr: nat, length: nat, data: seq<int>)

  datatype TxState = TxIdle | TxBack | TxTrans

  /** An entry of a mote's incoming list; `deliver` tells the two kinds of arrival apart. */
  datatype Copy = Copy(id: nat, from: nat, packet: Packet, crc: bool, deliver: bool, start: int, end: int)

  datatype Kind = Backoff | Start | Done | Receive(id: nat) | Noise(id: nat)

  datatype Event = Event(mote: nat, time: int, kind: Kind) {
    predicate IsChain() { kind.Backoff? || kind.Start? || kind.Done? }
  }

  /** A packet being sent and its acknowledgement flag. */
  datatype Outgoing = Outgoing(packet: Packet, ack: bool)

  /** One mote.  `pending` repeats its transmit-chain event and `since` the time its
      transmitter was switched on; neither is read by a step. */
  datatype Mote = Mote(sending: Option<Outgoing>, tx: TxState, incoming: seq<Copy>, on: bool,
                       pending: Option<Event>, since: int)

  /** A packet on one link, from its start to its end; `on` and `sending` are the switch and
      the transmitter of the receiving mote when it started. */
  datatype Air = Air(from: nat, to: nat, packet: Packet, lost: bool, start: int, end: int, on: bool, sending: bool)

  /** A mote's transmitter was on. */
  datatype Own = Own(mote: nat, start: int, end: int)

  datatype Delivery = Delivery(mote: nat, copy: Copy)

  datatype State = State(now: int, queue: set<Event>, motes: seq<Mote>,
                         air: seq<Air>, delivered: seq<Delivery>, own: seq<Own>)

  /** For each mote the motes that hear it, in list order. */
  type Links = seq<seq<nat>>

  predicate WellFormed(links: Links) {
    forall n | 0 <= n < |links| :: forall i | 0 <= i < |links[n]| :: links[n][i] < |links| <= BROADCAST
  }

  function AirTime(p: Packet): (t: int)
    ensures t >= 13 * BYTE_TRANSMIT_TIME
  {
    (PREAMBLE_LENGTH + p.length + HEADER_LENGTH) * BYTE_TRANSMIT_TIME
  }

  function Init(n: nat): State {
    State(0, {}, seq(n, _ => Mote(None, TxIdle, [], true, None, 0)), [], [], [])
  }

  // ---- the steps -------------------------------------------------------------------------

  /** The draws made for one link: whether the packet is lost, and what corruption leaves of
      it, or of each of the packets it meets in turn. */
  datatype Draw = Draw(lost: bool, junk: nat -> Packet)

  datatype Request = Request(packet: Packet, backoff: nat)

  datatype Step =
    | Transmit(mote: nat, at: int, request: Request)
    | HandleBackoff(event: Event, backoff: nat)
    | HandleStart(event: Event, draws: seq<Draw>)
    | HandleDone(event: Event, again: Option<Request>)
    | HandleReceive(event: Event)
    | HandleNoise(event: Event)
    | Switch(mote: nat, at: int, on: bool)

  /** The event is pending and no other is earlier. */
  ghost predicate Earliest(s: State, e: Event) {
    e in s.queue && forall f | f in s.queue :: e.time <= f.time
  }

  /** Time may pass up to the earliest event. */
  ghost predicate MayPass(s: State, t: int) {
    s.now <= t && forall f | f in s.queue :: t <= f.time
  }

  predicate ValidRequest(r: Request) { r.backoff < INIT_BACKOFF_HIGH - INIT_BACKOFF_LOW }

  ghost predicate Enabled(links: Links, s: State, step: Step) {
    match step
    case Transmit(n, t, r) => n < |s.motes| && MayPass(s, t) && ValidRequest(r)
    case HandleBackoff(e, b) => Earliest(s, e) && e.kind.Backoff? && b < BACKOFF_HIGH - BACKOFF_LOW
    case HandleStart(e, draws) =>
      Earliest(s, e) && e.kind.Start? && e.mote < |links| && |draws| == |links[e.mote]|
    case HandleDone(e, again) => Earliest(s, e) && e.kind.Done? && (again.Some? ==> ValidRequest(again.value))
    case HandleReceive(e) => Earliest(s, e) && e.kind.Receive?
    case HandleNoise(e) => Earliest(s, e) && e.kind.Noise?
    case Switch(n, t, on) => n < |s.motes| && MayPass(s, t) && (on || s.motes[n].sending.None?)
  }

  function SetMote(s: State, n: nat, m: Mote): State
    requires n < |s.motes|
  {
    s.(motes := s.motes[n := m])
  }

  /** packet_sim_transmit: refused while a packet is being sent. */
  function RequestStep(s: State, n: nat, r: Request): State
    requires n < |s.motes|
  {
    var m := s.motes[n];
    if m.sending.Some? then s
    else
      var e := Event(n, s.now + INIT_BACKOFF_LOW + r.backoff, Backoff);
      SetMote(s, n, m.(sending := Some(Outgoing(r.packet, false)), tx := TxBack, pending := Some(e)))
        .(queue := s.queue + {e})
  }

  function BackoffStep(s: State, e: Event, backoff: nat): State
    requires e.mote < |s.motes|
  {
    var m := s.motes[e.mote];
    if m.incoming != [] then
      var f := Event(e.mote, e.time + BACKOFF_LOW + backoff, Backoff);
      SetMote(s, e.mote, m.(pending := Some(f))).(now := e.time, queue := s.queue - {e} + {f})
    else
      var f := Event(e.mote, e.time + TX_CHANGE_LATENCY, Start);
      SetMote(s, e.mote, m.(pending := Some(f), tx := TxTrans, since := e.time))
        .(now := e.time, queue := s.queue - {e} + {f})
  }

  function ArrivalEvent(m: nat, c: Copy): Event {
    Event(m, c.end, if c.deliver then Receive(c.id) else Noise(c.id))
  }

  function Corrupt(c: Copy, junk: Packet): Copy { c.(packet := junk, crc := false) }

  /** Every entry becomes junk of its own. */
  function CorruptAll(cs: seq<Copy>, junk: nat -> Packet): (r: seq<Copy>)
    ensures |r| == |cs|
    ensures forall i | 0 <= i < |cs| :: r[i] == Corrupt(cs[i], junk(i))
  {
    seq(|cs|, i requires 0 <= i < |cs| => Corrupt(cs[i], junk(i)))
  }

  /** Some entry comes from mote k. */
  predicate HeardFrom(cs: seq<Copy>, k: nat) { exists i | 0 <= i < |cs| :: cs[i].from == k }

  /** A collision at m takes back the acknowledgement of every packet for m on the air there. */
  function ClearAck(mote: Mote, k: nat, m: nat, cs: seq<Copy>): Mote {
    if HeardFrom(cs, k) && mote.sending.Some? && mote.sending.value.packet.addr == m
    then mote.(sending := Some(mote.sending.value.(ack := false)))
    else mote
  }

  function ClearAcks(motes: seq<Mote>, m: nat, cs: seq<Copy>): (r: seq<Mote>)
    ensures |r| == |motes|
    ensures forall k | 0 <= k < |motes| :: r[k] == ClearAck(motes[k], k, m, cs)
  {
    seq(|motes|, k requires 0 <= k < |motes| => ClearAck(motes[k], k, m, cs))
  }

  /** Can mote m detect a packet that starts now? */
  predicate Free(mote: Mote) { mote.incoming == [] && mote.tx != TxTrans && mote.on }

  /** The packet p of mote n reaches mote m. */
  function Arrive(s: State, n: nat, p: Packet, m: nat, draw: Draw): State
    requires m < |s.motes|
  {
    var mote := s.motes[m];
    var end := s.now + AirTime(p);
    var id := |s.air|;
    var copy := Copy(id, n, p, true, Free(mote), s.now, end);
    var s1 := s.(queue := s.queue + {ArrivalEvent(m, copy)},
                 air := s.air + [Air(n, m, p, Free(mote) && draw.lost, s.now, end, mote.on, mote.tx == TxTrans)]);
    if Free(mote) then
      SetMote(s1, m, mote.(incoming := [if draw.lost then Corrupt(copy, draw.junk(0)) else copy]))
    else
      var motes := ClearAcks(s.motes, m, mote.incoming);
      s1.(motes := motes[m := motes[m].(incoming := CorruptAll(mote.incoming, draw.junk) + [copy])])
  }

  /** Does the packet count as acknowledged by m? */
  predicate Acks(s: State, p: Packet, m: nat, draw: Draw)
    requires m < |s.motes|
  {
    Free(s.motes[m]) && !draw.lost && (p.addr == BROADCAST || p.addr == m)
  }

  /** The packet reaches the motes of the list in turn; also whether one acknowledges. */
  function ArriveAll(s: State, n: nat, p: Packet, ms: seq<nat>, draws: seq<Draw>): (r: (State, bool))
    requires |draws| == |ms| && forall i | 0 <= i < |ms| :: ms[i] < |s.motes|
    ensures |r.0.motes| == |s.motes|
  {
    if ms == [] then (s, false)
    else
      var k := |ms| - 1;
      var (s1, ack) := ArriveAll(s, n, p, ms[..k], draws[..k]);
      (Arrive(s1, n, p, ms[k], draws[k]), ack || Acks(s1, p, ms[k], draws[k]))
  }

  function StartStep(links: Links, s: State, e: Event, draws: seq<Draw>): State
    requires WellFormed(links) && |s.motes| == |links| && e.mote < |links| && |draws| == |links[e.mote]|
    requires s.motes[e.mote].sending.Some?
  {
    var n := e.mote;
    var p := s.motes[n].sending.value.packet;
    var s0 := SetMote(s, n, s.motes[n].(pending := None)).(now := e.time, queue := s.queue - {e});
    var (s1, ack) := ArriveAll(s0, n, p, links[n], draws);
    var f := Event(n, e.time + AirTime(p) - 1, Done);
    SetMote(s1, n, s1.motes[n].(sending := Some(Outgoing(p, ack)), pending := Some(f))).(queue := s1.queue + {f})
  }

  /** The packet is done; the mote may ask for the next one at once, and whether or not it
      does its transmit state becomes idle. */
  function DoneStep(s: State, e: Event, again: Option<Request>): State
    requires e.mote < |s.motes|
  {
    var n := e.mote;
    var s0 := SetMote(s, n, s.motes[n].(sending := None, pending := None))
                .(now := e.time, queue := s.queue - {e}, own := s.own + [Own(n, s.motes[n].since, e.time)]);
    var s1 := if again.Some? then RequestStep(s0, n, again.value) else s0;
    SetMote(s1, n, s1.motes[n].(tx := TxIdle))
  }

  /** The list without its first entry of that id. */
  function Without(cs: seq<Copy>, id: nat): (r: seq<Copy>)
    ensures |r| <= |cs|
  {
    if cs == [] then [] else if cs[0].id == id then cs[1..] else [cs[0]] + Without(cs[1..], id)
  }

  predicate Lists(cs: seq<Copy>, id: nat) { exists i | 0 <= i < |cs| :: cs[i].id == id }

  function Find(cs: seq<Copy>, id: nat): (c: Copy)
    requires Lists(cs, id)
    ensures c.id == id && c in cs
  {
    if cs[0].id == id then cs[0] else Find(cs[1..], id)
  }

  function ArrivalStep(s: State, e: Event): State
    requires e.mote < |s.motes| && !e.IsChain() && Lists(s.motes[e.mote].incoming, e.kind.id)
  {
    var m := s.motes[e.mote];
    var c := Find(m.incoming, e.kind.id);
    SetMote(s, e.mote, m.(incoming := Without(m.incoming, e.kind.id)))
      .(now := e.time, queue := s.queue - {e},
        delivered := if e.kind.Receive? && m.on then s.delivered + [Delivery(e.mote, c)] else s.delivered)
  }
}
