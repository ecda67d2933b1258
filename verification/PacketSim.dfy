/** The packet simulator's handlers, working on linked incoming lists in place.  Each is
    proved to take the step of the state machine. */
module PacketSimulator {
  import opened Wrappers
  import opened PacketSpec
  import opened IncomingLists

  /** The simulator's arrays, and the lists as values, are those of the motes. */
  ghost predicate Mirrors(sending: seq<Option<Outgoing>>, tx: seq<TxState>, on: seq<bool>, contents: seq<seq<Copy>>,
                          motes: seq<Mote>) {
    && |sending| == |tx| == |on| == |contents| == |motes|
    && (forall m | 0 <= m < |motes| :: sending[m] == motes[m].sending)
    && (forall m | 0 <= m < |motes| :: tx[m] == motes[m].tx)
    && (forall m | 0 <= m < |motes| :: on[m] == motes[m].on)
    && (forall m | 0 <= m < |motes| :: contents[m] == motes[m].incoming)
  }

  /** What the simulator's arrays say of mote n. */
  lemma MirrorsAt(sending: seq<Option<Outgoing>>, tx: seq<TxState>, on: seq<bool>, contents: seq<seq<Copy>>,
                  motes: seq<Mote>, n: nat)
    requires Mirrors(sending, tx, on, contents, motes) && n < |motes|
    ensures |sending| == |tx| == |on| == |contents| == |motes|
    ensures sending[n] == motes[n].sending && tx[n] == motes[n].tx && on[n] == motes[n].on
            && contents[n] == motes[n].incoming
  {
  }

  /** One mote changes. */
  lemma MirrorsSet(sending: seq<Option<Outgoing>>, tx: seq<TxState>, on: seq<bool>, contents: seq<seq<Copy>>,
                   motes: seq<Mote>, n: nat, m: Mote)
    requires Mirrors(sending, tx, on, contents, motes) && n < |motes|
    ensures |sending| == |tx| == |on| == |contents| == |motes|
    ensures Mirrors(sending[n := m.sending], tx[n := m.tx], on[n := m.on], contents[n := m.incoming], motes[n := m])
    ensures m.sending == motes[n].sending ==> sending[n := m.sending] == sending
    ensures m.tx == motes[n].tx ==> tx[n := m.tx] == tx
    ensures m.on == motes[n].on ==> on[n := m.on] == on
    ensures m.incoming == motes[n].incoming ==> contents[n := m.incoming] == contents
  {
  }

  /** The sender k of an entry of cs loses its acknowledgement if it addresses m. */
  ghost function Cleared(out: Option<Outgoing>, k: nat, m: nat, cs: seq<Copy>): Option<Outgoing> {
    if HeardFrom(cs, k) && out.Some? && out.value.packet.addr == m then Some(out.value.(ack := false)) else out
  }

  lemma HeardMore(cs: seq<Copy>, i: nat, k: nat)
    requires i < |cs|
    ensures HeardFrom(cs[..i + 1], k) <==> HeardFrom(cs[..i], k) || cs[i].from == k
  {
    if HeardFrom(cs[..i], k) {
      var j :| 0 <= j < i && cs[..i][j].from == k;
      assert cs[..i + 1][j].from == k;
    }
    if cs[i].from == k { assert cs[..i + 1][i].from == k; }
    if HeardFrom(cs[..i + 1], k) && cs[i].from != k {
      var j :| 0 <= j < i + 1 && cs[..i + 1][j].from == k;
      assert cs[..i][j].from == k;
    }
  }

  /** The first i entries are corrupted. */
  ghost function CorruptFirst(cs: seq<Copy>, i: nat, junk: nat -> Packet): (r: seq<Copy>)
    requires i <= |cs|
    ensures |r| == |cs|
    ensures forall j | 0 <= j < |cs| :: r[j] == if j < i then Corrupt(cs[j], junk(j)) else cs[j]
  {
    CorruptAll(cs[..i], junk) + cs[i..]
  }

  class PacketSim {
    const links: Links
    const table: IncomingTable
    var now: int
    var queue: set<Event>
    var transmitting: seq<Option<Outgoing>>
    var txState: seq<TxState>
    var moteOn: seq<bool>
    var nextId: nat
    /** The state of the machine, with the record of the run. */
    ghost var view: State

    ghost predicate Valid()
      reads this, table, table.incoming, table.entries
    {
      table.Valid() && |table.incoming| == |links| && Fields()
    }

    ghost predicate Fields()
      reads this, table
    {
      && WellFormed(links) && |table.contents| == |view.motes| == |links|
      && now == view.now && queue == view.queue && nextId == |view.air|
      && (forall id | id in table.carried :: id < nextId)
      && Mirrors(transmitting, txState, moteOn, table.contents, view.motes)
    }

    constructor (links: Links)
      requires WellFormed(links)
      ensures Valid() && this.links == links && view == Init(|links|) && fresh(table)
      ensures fresh(table.incoming) && fresh(table.entries)
    {
      this.links := links;
      table := new IncomingTable(|links|);
      now, queue, nextId := 0, {}, 0;
      transmitting := seq(|links|, _ => None);
      txState := seq(|links|, _ => TxIdle);
      moteOn := seq(|links|, _ => true);
      view := Init(|links|);
    }

    /** packet_sim_transmit. */
    method Transmit(n: nat, r: Request) returns (ok: bool)
      requires Valid() && n < |links|
      modifies this
      ensures Valid() && view == RequestStep(old(view), n, r)
      ensures ok <==> old(view).motes[n].sending.None?
    {
      hide Mirrors, IncomingTable.Valid;
      ghost var t := RequestStep(view, n, r);
      Agree(n, t.motes[n]);
      if transmitting[n].Some? {
        return false;
      }
      transmitting := transmitting[n := Some(Outgoing(r.packet, false))];
      txState := txState[n := TxBack];
      queue := queue + {Event(n, now + INIT_BACKOFF_LOW + r.backoff, Backoff)};
      view := t;
      return true;
    }

    lemma Agree(n: nat, m: Mote)
      requires Fields() && n < |links|
      ensures |transmitting| == |txState| == |moteOn| == |table.contents| == |view.motes| == |links|
      ensures transmitting[n] == view.motes[n].sending && txState[n] == view.motes[n].tx
      ensures moteOn[n] == view.motes[n].on && table.contents[n] == view.motes[n].incoming
      ensures Mirrors(transmitting[n := m.sending], txState[n := m.tx], moteOn[n := m.on],
                      table.contents[n := m.incoming],
                      view.motes[n := m])
      ensures m.sending == view.motes[n].sending ==> transmitting[n := m.sending] == transmitting
      ensures m.tx == view.motes[n].tx ==> txState[n := m.tx] == txState
      ensures m.on == view.motes[n].on ==> moteOn[n := m.on] == moteOn
      ensures m.incoming == view.motes[n].incoming ==> table.contents[n := m.incoming] == table.contents
    {
      MirrorsAt(transmitting, txState, moteOn, table.contents, view.motes, n);
      MirrorsSet(transmitting, txState, moteOn, table.contents, view.motes, n, m);
    }

    method HandleBackoff(e: Event, backoff: nat)
      requires Valid() && e.mote < |links|
      modifies this`now, this`queue, this`txState, this`view
      ensures Valid() && view == BackoffStep(old(view), e, backoff)
    {
      hide Mirrors, IncomingTable.Valid;
      var n := e.mote;
      ghost var t := BackoffStep(view, e, backoff);
      Agree(n, t.motes[n]);
      var quiet := table.IsEmpty(n);
      now := e.time;
      if !quiet {
        queue := queue - {e} + {Event(n, e.time + BACKOFF_LOW + backoff, Backoff)};
      } else {
        txState := txState[n := TxTrans];
        queue := queue - {e} + {Event(n, e.time + TX_CHANGE_LATENCY, Start)};
      }
      view := t;
    }

    /** The done event; `again` is what the done callback asks for, if anything. */
    method HandleDone(e: Event, again: Option<Request>)
      requires Valid() && e.mote < |links|
      modifies this
      ensures Valid() && view == DoneStep(old(view), e, again)
    {
      hide RequestStep, Valid, Finished, DoneStep;
      Fits(e.mote);
      DoneIs(view, e, again);
      Finish(e);
      if again.Some? {
        var ok := Transmit(e.mote, again.value);
      }
      Fits(e.mote);
      BeIdle(e.mote);
    }

    static lemma DoneIs(s: State, e: Event, again: Option<Request>)
      requires e.mote < |s.motes|
      ensures var s0 := Finished(s, e);
              var s1 := if again.Some? then RequestStep(s0, e.mote, again.value) else s0;
              |s1.motes| == |s.motes| && DoneStep(s, e, again) == SetMote(s1, e.mote, s1.motes[e.mote].(tx := TxIdle))
    {
    }

    lemma Fits(n: nat)
      requires Valid() && n < |links|
      ensures |view.motes| == |links| && WellFormed(links)
    {
    }

    static ghost function Finished(s: State, e: Event): State
      requires e.mote < |s.motes|
    {
      SetMote(s, e.mote, s.motes[e.mote].(sending := None, pending := None))
        .(now := e.time, queue := s.queue - {e}, own := s.own + [Own(e.mote, s.motes[e.mote].since, e.time)])
    }

    /** Nothing is sent any more. */
    method Finish(e: Event)
      requires Valid() && e.mote < |links|
      modifies this
      ensures Valid() && e.mote < |old(view).motes| && view == Finished(old(view), e)
    {
      hide Mirrors, IncomingTable.Valid;
      var n := e.mote;
      Fits(n);
      ghost var t := Finished(view, e);
      Agree(n, t.motes[n]);
      now := e.time;
      queue := queue - {e};
      transmitting := transmitting[n := None];
      view := t;
    }

    method BeIdle(n: nat)
      requires Valid() && n < |links|
      modifies this
      ensures Valid() && n < |old(view).motes| && view == SetMote(old(view), n, old(view).motes[n].(tx := TxIdle))
    {
      hide Mirrors, IncomingTable.Valid;
      Agree(n, view.motes[n].(tx := TxIdle));
      txState := txState[n := TxIdle];
      view := SetMote(view, n, view.motes[n].(tx := TxIdle));
    }

    /** Takes the entry an arrival event carries out of its list; gives what is passed up if
        the event is a reception and the mote is on. */
    method HandleArrival(e: Event) returns (passed: Option<(Packet, bool)>)
      requires Valid() && e.mote < |links| && !e.IsChain() && Lists(view.motes[e.mote].incoming, e.kind.id)
      modifies this, table, table.incoming, table.entries
      ensures Valid() && view == ArrivalStep(old(view), e)
      ensures var c := Find(old(view).motes[e.mote].incoming, e.kind.id);
              passed == if e.kind.Receive? && old(view).motes[e.mote].on then Some((c.packet, c.crc)) else None
    {
      hide Find, Without, Lists, Mirrors, IncomingTable.Valid;
      var m := e.mote;
      ghost var t := ArrivalStep(view, e);
      Agree(m, t.motes[m]);
      var entry := table.Take(m, e.kind.id);
      now := e.time;
      queue := queue - {e};
      passed := if e.kind.Receive? && moteOn[m] then Some((entry.packet, entry.crc)) else None;
      view := t;
    }

    // ---- start -------------------------------------------------------------------------------

    /** The sender of entry i loses its acknowledgement if it addresses m. */
    method TakeBackAck(from: nat, m: nat, ghost cs: seq<Copy>, ghost i: nat, ghost sent: seq<Option<Outgoing>>)
      requires i < |cs| && cs[i].from == from < |transmitting| == |sent|
      requires forall k | 0 <= k < |sent| :: transmitting[k] == Cleared(sent[k], k, m, cs[..i])
      modifies this`transmitting
      ensures |transmitting| == |sent|
      ensures forall k | 0 <= k < |sent| :: transmitting[k] == Cleared(sent[k], k, m, cs[..i + 1])
    {
      hide HeardFrom;
      forall k | 0 <= k < |sent| { HeardMore(cs, i, k); }
      if transmitting[from].Some? && transmitting[from].value.packet.addr == m {
        transmitting := transmitting[from := Some(transmitting[from].value.(ack := false))];
      }
    }

    /** A collision at m: every entry of its list is corrupted with a draw of its own, and
        senders that address m lose their acknowledgement. */
    method Collide(m: nat, junk: nat -> Packet)
      requires table.Valid() && |table.incoming| == |table.contents| == |transmitting| && m < |table.incoming|
      modifies this`transmitting, table`contents, table.entries
      ensures table.Valid() && |transmitting| == |old(transmitting)|
      ensures table.contents == old(table.contents)[m := CorruptAll(old(table.contents)[m], junk)]
      ensures forall k | 0 <= k < |transmitting| ::
                transmitting[k] == Cleared(old(transmitting)[k], k, m, old(table.contents)[m])
    {
      hide Cleared, HeardFrom, Corrupt, CorruptAll, CorruptFirst, IncomingTable.Valid, IncomingTable.At;
      ghost var all, cs, sent := table.contents, table.contents[m], transmitting;
      var i := 0;
      NoneHeardYet(sent, m, cs);
      var already := table.First(m);
      assert CorruptFirst(cs, 0, junk) == cs && all[m := cs] == all;
      while already != null
        invariant i <= |cs| && Colliding(m, i, already, all, sent, junk)
        decreases |cs| - i
      {
        already := CollideEntry(m, i, already, all, sent, junk);
        i := i + 1;
      }
      assert cs[..i] == cs && CorruptFirst(cs, i, junk) == CorruptAll(cs, junk);
    }

    /** The first i entries of m's list, formerly in `all`, are corrupted, and their senders have lost
        their acknowledgements for m. */
    ghost predicate Colliding(m: nat, i: nat, already: IncomingMsg?, all: seq<seq<Copy>>, sent: seq<Option<Outgoing>>,
                              junk: nat -> Packet)
      reads this, table, table.incoming, table.entries
    {
      && table.Valid() && |table.incoming| == |transmitting| == |sent| && m < |all| == |sent| && i <= |all[m]|
      && table.contents == all[m := CorruptFirst(all[m], i, junk)]
      && table.At(m, i, already) && (already != null ==> already in table.entries)
         && (already == null <==> i == |all[m]|)
      && forall k | 0 <= k < |sent| :: transmitting[k] == Cleared(sent[k], k, m, all[m][..i])
    }

    method CollideEntry(m: nat, i: nat, entry: IncomingMsg, ghost all: seq<seq<Copy>>,
                        ghost sent: seq<Option<Outgoing>>, junk: nat -> Packet)
      returns (next: IncomingMsg?)
      requires Colliding(m, i, entry, all, sent, junk)
      modifies this`transmitting, table`contents, table.entries
      ensures i < |all[m]| && Colliding(m, i + 1, next, all, sent, junk)
    {
      hide Cleared, HeardFrom, Corrupt, CorruptAll, CorruptFirst, IncomingTable.Valid, IncomingTable.At;
      ghost var cs := all[m];
      assert CorruptFirst(cs, i, junk)[i := Corrupt(cs[i], junk(i))] == CorruptFirst(cs, i + 1, junk);
      var from;
      from, next := table.CorruptAt(m, i, entry, junk(i));
      TakeBackAck(from, m, cs, i, sent);
    }

    static lemma NoneHeardYet(sent: seq<Option<Outgoing>>, m: nat, cs: seq<Copy>)
      ensures forall k | 0 <= k < |sent| :: sent[k] == Cleared(sent[k], k, m, cs[..0])
    {
    }

    /** What an arrival leaves, in the simulator's own terms. */
    static lemma ArriveMirrors(s: State, n: nat, p: Packet, m: nat, draw: Draw, sending: seq<Option<Outgoing>>,
                               tx: seq<TxState>, on: seq<bool>, contents: seq<seq<Copy>>, sent: seq<Option<Outgoing>>,
                               copy: Copy)
      requires m < |s.motes| && Mirrors(sending, tx, on, contents, s.motes)
      requires copy == Copy(|s.air|, n, p, true, Free(s.motes[m]), s.now, s.now + AirTime(p))
      requires |sent| == |sending|
      requires Free(s.motes[m]) ==> sent == sending
      requires !Free(s.motes[m]) ==> forall k | 0 <= k < |sent| :: sent[k] == Cleared(sending[k], k, m, contents[m])
      ensures var t := Arrive(s, n, p, m, draw);
              && |t.motes| == |s.motes| && t.now == s.now && |t.air| == |s.air| + 1
                 && t.queue == s.queue + {ArrivalEvent(m, copy)}
              && Mirrors(sent, tx, on,
                         contents[m := if Free(s.motes[m])
                                       then contents[m] + [if draw.lost then Corrupt(copy, draw.junk(0)) else copy]
                                       else CorruptAll(contents[m], draw.junk) + [copy]], t.motes)
    {
      hide HeardFrom, Corrupt, CorruptAll, ArrivalEvent, AirTime;
    }

    /** The packet p of mote n reaches mote m: detected if m is free, else noise that corrupts
        what is already coming in.  Says whether it counts as acknowledged. */
    method ArriveAt(n: nat, p: Packet, m: nat, draw: Draw) returns (acks: bool)
      requires Valid() && n < |links| && m < |links|
      modifies this, table, table.incoming, table.entries
      ensures Valid() && view == Arrive(old(view), n, p, m, draw)
      ensures acks == Acks(old(view), p, m, draw)
      ensures forall x | x in table.entries :: x in old(table.entries) || fresh(x)
    {
      hide Arrive, Mirrors, IncomingTable.Valid;
      Agree(m, view.motes[m]);
      acks := false;
      var quiet := table.IsEmpty(m);
      if quiet && txState[m] != TxTrans && moteOn[m] {
        acks := Detect(n, p, m, draw);
      } else {
        Interfere(n, p, m, draw);
      }
    }

    method Detect(n: nat, p: Packet, m: nat, draw: Draw) returns (acks: bool)
      requires Valid() && n < |links| && m < |links| && Free(view.motes[m])
      modifies this, table, table.incoming, table.entries
      ensures Valid() && view == Arrive(old(view), n, p, m, draw)
      ensures acks == Acks(old(view), p, m, draw)
      ensures forall x | x in table.entries :: x in old(table.entries) || fresh(x)
    {
      hide Arrive, Cleared, Corrupt, CorruptAll, Mirrors, IncomingTable.Valid;
      Agree(m, view.motes[m]);
      acks := false;
      var end := now + AirTime(p);
      ghost var copy := Copy(nextId, n, p, true, true, now, end);
      var entry := new IncomingMsg(p, m, copy, n);
      if draw.lost {
        entry.CorruptPacket(draw.junk(0));
      } else if p.addr == BROADCAST || p.addr == m {
        acks := true;
      }
      ArriveMirrors(view, n, p, m, draw, transmitting, txState, moteOn, table.contents, transmitting, copy);
      Enter(m, entry, Event(m, end, Receive(nextId)), Arrive(view, n, p, m, draw));
    }

    method Interfere(n: nat, p: Packet, m: nat, draw: Draw)
      requires Valid() && n < |links| && m < |links| && !Free(view.motes[m])
      modifies this, table, table.incoming, table.entries
      ensures Valid() && view == Arrive(old(view), n, p, m, draw)
      ensures forall x | x in table.entries :: x in old(table.entries) || fresh(x)
    {
      hide Arrive, Cleared, Corrupt, CorruptAll, Mirrors, IncomingTable.Valid, HeardFrom, AirTime;
      Agree(m, view.motes[m]);
      var end := now + AirTime(p);
      ghost var copy := Copy(nextId, n, p, true, false, now, end);
      ghost var was, all, junked := transmitting, table.contents, CorruptAll(table.contents[m], draw.junk);
      Collide(m, draw.junk);
      SetTwice(all, m, junked, junked + [copy]);
      var entry := new IncomingMsg(p, m, copy, n);
      ArriveMirrors(view, n, p, m, draw, was, txState, moteOn, all, transmitting, copy);
      Enter(m, entry, Event(m, end, Noise(nextId)), Arrive(view, n, p, m, draw));
    }

    static lemma SetTwice<T>(s: seq<T>, m: nat, a: T, b: T)
      requires m < |s|
      ensures s[m := a][m := b] == s[m := b]
    {
    }

    /** The entry is listed and its event scheduled. */
    method Enter(m: nat, entry: IncomingMsg, e: Event, ghost t: State)
      requires table.Valid() && |table.incoming| == |links| == |table.contents| == |t.motes| && m < |links|
      requires entry !in table.entries && entry.mote == m && entry.id == nextId && entry.from < |links|
      requires WellFormed(links) && forall id | id in table.carried :: id < nextId
      requires now == t.now && queue + {e} == t.queue && nextId + 1 == |t.air|
      requires Mirrors(transmitting, txState, moteOn,
                       table.contents[m := table.contents[m] + [entry.AsCopy()]], t.motes)
      modifies this`queue, this`nextId, this`view, table, table.incoming[m], table.entries, entry
      ensures Valid() && view == t && table.entries == old(table.entries) + {entry}
    {
      hide Mirrors, IncomingTable.Valid;
      table.Add(m, nextId, entry);
      queue, nextId, view := queue + {e}, nextId + 1, t;
    }

    static ghost function Begun(s: State, e: Event): State
      requires e.mote < |s.motes|
    {
      SetMote(s, e.mote, s.motes[e.mote].(pending := None)).(now := e.time, queue := s.queue - {e})
    }

    static ghost function OnAir(s: State, e: Event, p: Packet, ack: bool): State
      requires e.mote < |s.motes|
    {
      var f := Event(e.mote, e.time + AirTime(p) - 1, Done);
      SetMote(s, e.mote, s.motes[e.mote].(sending := Some(Outgoing(p, ack)), pending := Some(f)))
        .(queue := s.queue + {f})
    }

    static lemma StartIs(links: Links, s: State, e: Event, draws: seq<Draw>)
      requires WellFormed(links) && |s.motes| == |links| && e.mote < |links| && |draws| == |links[e.mote]|
      requires s.motes[e.mote].sending.Some?
      ensures var p := s.motes[e.mote].sending.value.packet;
              && |Begun(s, e).motes| == |s.motes|
              && var (s1, ack) := ArriveAll(Begun(s, e), e.mote, p, links[e.mote], draws);
                 StartStep(links, s, e, draws) == OnAir(s1, e, p, ack)
    {
      hide ArriveAll, AirTime;
    }

    static lemma NoArrival(s: State, n: nat, p: Packet, ms: seq<nat>, draws: seq<Draw>)
      ensures ArriveAll(s, n, p, ms[..0], draws[..0]) == (s, false)
    {
    }

    static lemma OneMoreArrival(s: State, n: nat, p: Packet, ms: seq<nat>, draws: seq<Draw>, i: nat)
      requires i < |draws| == |ms| && forall j | 0 <= j < |ms| :: ms[j] < |s.motes|
      ensures var (s1, ack) := ArriveAll(s, n, p, ms[..i], draws[..i]);
              ArriveAll(s, n, p, ms[..i + 1], draws[..i + 1]) ==
                (Arrive(s1, n, p, ms[i], draws[i]), ack || Acks(s1, p, ms[i], draws[i]))
    {
      assert ms[..i + 1][..i] == ms[..i] && draws[..i + 1][..i] == draws[..i];
    }

    method BeginStart(e: Event) returns (p: Packet)
      requires Valid() && e.mote < |links| == |view.motes| && view.motes[e.mote].sending.Some?
      modifies this`now, this`queue, this`view
      ensures Valid() && |old(view).motes| == |links| && view == Begun(old(view), e)
      ensures old(view).motes[e.mote].sending.Some? && p == old(view).motes[e.mote].sending.value.packet
    {
      hide Mirrors, IncomingTable.Valid;
      var n := e.mote;
      ghost var t := Begun(view, e);
      Agree(n, t.motes[n]);
      p := transmitting[n].value.packet;
      now := e.time;
      queue := queue - {e};
      view := t;
    }

    method EndStart(e: Event, p: Packet, ack: bool)
      requires Valid() && e.mote < |links| == |view.motes|
      modifies this`queue, this`transmitting, this`view
      ensures Valid() && |old(view).motes| == |links| && view == OnAir(old(view), e, p, ack)
    {
      hide Mirrors, IncomingTable.Valid, AirTime;
      var n := e.mote;
      ghost var t := OnAir(view, e, p, ack);
      Agree(n, t.motes[n]);
      transmitting := transmitting[n := Some(Outgoing(p, ack))];
      queue := queue + {Event(n, e.time + AirTime(p) - 1, Done)};
      view := t;
    }

    /** The packet reaches every mote that hears n, in list order; whether one acknowledges. */
    method ArriveEach(n: nat, p: Packet, draws: seq<Draw>) returns (ack: bool)
      requires Valid() && n < |links| && |draws| == |links[n]|
      modifies this, table, table.incoming, table.entries
      ensures Valid() && |old(view).motes| == |links| && WellFormed(links)
      ensures (view, ack) == ArriveAll(old(view), n, p, links[n], draws)
    {
      hide Arrive, Acks, ArriveAll, Mirrors, IncomingTable.Valid;
      ghost var s := view;
      ack := false;
      NoArrival(s, n, p, links[n], draws);
      for i := 0 to |links[n]|
        invariant Valid() && |view.motes| == |s.motes| && (view, ack) == ArriveAll(s, n, p, links[n][..i], draws[..i])
        invariant forall x | x in table.entries :: x in old(table.entries) || fresh(x)
      {
        OneMoreArrival(s, n, p, links[n], draws, i);
        var acks := ArriveAt(n, p, links[n][i], draws[i]);
        ack := ack || acks;
      }
      assert links[n][..|links[n]|] == links[n] && draws[..|draws|] == draws;
    }

    /** The start event. */
    method HandleStart(e: Event, draws: seq<Draw>)
      requires Valid() && e.mote < |links| && |draws| == |links[e.mote]| && view.motes[e.mote].sending.Some?
      modifies this, table, table.incoming, table.entries
      ensures Valid() && view == StartStep(links, old(view), e, draws)
    {
      Fits(e.mote);
      hide Arrive, ArriveAll, StartStep, Begun, OnAir, Valid;
      StartIs(links, view, e, draws);
      var p := BeginStart(e);
      var ack := ArriveEach(e.mote, p, draws);
      Fits(e.mote);
      EndStart(e, p, ack);
    }
  }
}
