/** What every run of the packet simulator keeps. */
module PacketInvariant {
  import opened Wrappers
  import opened PacketSpec

  // ---- the queue and the lists ---------------------------------------------------------

  ghost predicate HasArrival(cs: seq<Copy>, m: nat, e: Event) {
    exists i | 0 <= i < |cs| :: ArrivalEvent(m, cs[i]) == e
  }

  /** The event is the pending one of its mote, or belongs to an entry of its mote's list. */
  ghost predicate Expected(s: State, e: Event) {
    && e.mote < |s.motes|
    && if e.IsChain() then s.motes[e.mote].pending == Some(e)
       else HasArrival(s.motes[e.mote].incoming, e.mote, e)
  }

  ghost predicate QueueInv(s: State) {
    && (forall e | e in s.queue :: Expected(s, e) && s.now <= e.time)
    && (forall e | Expected(s, e) :: e in s.queue)
  }

  /** A mote is sending exactly while it has a pending chain event, and its transmitter is on
      exactly while that is a start or a done event.  The mote `busy`, if any, is in the
      middle of handling its start event. */
  ghost predicate ChainInv(m: Mote, n: nat, now: int, busy: int) {
    && m.since <= now
    && (m.pending.Some? ==> m.pending.value.mote == n && m.pending.value.IsChain())
    && if n == busy then m.sending.Some? && m.pending.None? && m.tx == TxTrans
       else
         && (m.sending.Some? <==> m.pending.Some?)
         && (m.tx == TxTrans <==> m.pending.Some? && !m.pending.value.kind.Backoff?)
  }

  ghost predicate ChainsInv(s: State, busy: int) {
    forall n | 0 <= n < |s.motes| :: ChainInv(s.motes[n], n, s.now, busy)
  }

  /** An entry of m's list repeats a packet on the air to m. */
  ghost predicate OnAir(air: seq<Air>, m: nat, c: Copy) {
    && c.id < |air|
    && var r := air[c.id]; r.to == m && r.from == c.from && r.start == c.start && r.end == c.end
  }

  /** Nothing else was on the air to m when the copy began, and nothing began before k. */
  ghost predicate Alone(air: seq<Air>, m: nat, c: Copy) {
    forall id | c.id < id < |air| :: air[id].to != m
  }

  ghost predicate Detected(air: seq<Air>, m: nat, c: Copy) {
    forall id | 0 <= id < c.id && id < |air| && air[id].to == m :: air[id].end <= c.start
  }

  /** The list of mote m: entries in order of arrival; one that will be delivered is the
      first, and is clean exactly when it was not lost and nothing has begun since. */
  ghost predicate ListInv(air: seq<Air>, m: nat, mote: Mote, now: int) {
    && (forall i | 0 <= i < |mote.incoming| ::
          var c := mote.incoming[i];
          && OnAir(air, m, c) && c.start <= now <= c.end
          && (c.deliver ==>
                && i == 0 && mote.tx != TxTrans && Detected(air, m, c)
                && (c.crc <==> !air[c.id].lost && Alone(air, m, c))
                && (c.crc ==> |mote.incoming| == 1 && c.packet == air[c.id].packet)))
    && (forall i, j | 0 <= i < j < |mote.incoming| :: mote.incoming[i].id < mote.incoming[j].id)
  }

  ghost predicate ListsInv(s: State) {
    forall m | 0 <= m < |s.motes| :: ListInv(s.air, m, s.motes[m], s.now)
  }

  /** What has been on the air is over, or still in the list of its receiver. */
  ghost predicate AirInv(s: State) {
    && (forall id | 0 <= id < |s.air| ::
          var r := s.air[id];
          && r.to < |s.motes| && r.start <= s.now && r.start < r.end
          && (r.end <= s.now || Lists(s.motes[r.to].incoming, id)))
    && (forall i, j | 0 <= i < j < |s.air| :: s.air[i].start <= s.air[j].start)
  }

  // ---- the record of deliveries ------------------------------------------------------------

  /** A delivered copy met nothing else on the air to its mote if its crc was good, and its
      crc was good if it was neither lost nor met anything. */
  ghost predicate DeliveryInv(air: seq<Air>, d: Delivery, now: int) {
    var (m, c) := (d.mote, d.copy);
    && OnAir(air, m, c) && c.start < c.end <= now
    && Detected(air, m, c)
    && (c.crc ==> !air[c.id].lost && c.packet == air[c.id].packet)
    && (c.crc ==> forall id | c.id < id < |air| && air[id].to == m :: c.end <= air[id].start)
    && (!c.crc ==> air[c.id].lost || exists id | c.id < id < |air| :: air[id].to == m && air[id].start <= c.end)
  }

  ghost predicate DeliveriesInv(s: State) {
    forall k | 0 <= k < |s.delivered| :: DeliveryInv(s.air, s.delivered[k], s.now)
  }

  /** A mote's own transmissions end before an entry it will deliver began ... */
  ghost predicate OwnInv(s: State) {
    && (forall k | 0 <= k < |s.own| ::
          var o := s.own[k];
          && o.start <= o.end <= s.now
          && (o.mote < |s.motes| ==> OwnBefore(o, s.motes[o.mote].incoming)))
    // ... and do not overlap one that was delivered.
    && (forall d, k | 0 <= d < |s.delivered| && 0 <= k < |s.own| :: HalfDuplex(s.delivered[d], s.own[k]))
    && (forall d | 0 <= d < |s.delivered| ::
          var n := s.delivered[d].mote;
          n < |s.motes| && s.motes[n].tx == TxTrans ==> s.delivered[d].copy.end <= s.motes[n].since)
  }

  ghost predicate OwnBefore(o: Own, cs: seq<Copy>) {
    forall i | 0 <= i < |cs| && cs[i].deliver :: o.end <= cs[i].start
  }

  ghost predicate HalfDuplex(d: Delivery, o: Own) {
    o.mote == d.mote ==> o.end <= d.copy.start || d.copy.end <= o.start
  }

  // ---- acknowledgements ----------------------------------------------------------------------

  /** The list begins with a good copy from mote n that will be delivered. */
  predicate CleanFrom(cs: seq<Copy>, n: nat) {
    cs != [] && cs[0].from == n && cs[0].deliver && cs[0].crc
  }

  /** Between start and done, the flag tells whether the addressed mote holds a good copy. */
  ghost predicate AckInv(s: State, n: nat)
    requires n < |s.motes|
  {
    var m := s.motes[n];
    m.pending.Some? && m.pending.value.kind.Done? && m.sending.Some? && m.sending.value.packet.addr < |s.motes| ==>
      (m.sending.value.ack <==> CleanFrom(s.motes[m.sending.value.packet.addr].incoming, n))
  }

  /** When the copies of mote n end: one tick after its done event, before its next start. */
  ghost predicate EndInv(m: Mote, now: int, end: int) {
    match m.pending
    case None => end <= now + 1
    case Some(e) => if e.kind.Done? then end == e.time + 1 else end < e.time
  }

  ghost predicate EndsInv(s: State, busy: int) {
    forall m, i | 0 <= m < |s.motes| && 0 <= i < |s.motes[m].incoming| ::
      var c := s.motes[m].incoming[i];
      c.from < |s.motes| && (c.from != busy ==> EndInv(s.motes[c.from], s.now, c.end))
  }

  ghost predicate AcksInv(s: State) {
    forall n | 0 <= n < |s.motes| :: AckInv(s, n)
  }

  /** Everything but the queue. */
  ghost predicate StateInv(s: State, busy: int) {
    ChainsInv(s, busy) && ListsInv(s) && AirInv(s) && DeliveriesInv(s) && OwnInv(s) && EndsInv(s, busy)
  }

  // ---- passing time --------------------------------------------------------------------------

  lemma PassTime(s: State, t: int)
    requires QueueInv(s) && StateInv(s, -1) && MayPass(s, t)
    ensures QueueInv(s.(now := t)) && StateInv(s.(now := t), -1)
  {
    var s' := s.(now := t);
    forall e ensures Expected(s', e) == Expected(s, e) {
    }
    forall m | 0 <= m < |s.motes| ensures ListInv(s.air, m, s.motes[m], t) {
      var cs := s.motes[m].incoming;
      forall i | 0 <= i < |cs| ensures t <= cs[i].end {
        var e := ArrivalEvent(m, cs[i]);
        assert Expected(s, e);
      }
      assert ListInv(s.air, m, s.motes[m], s.now);
    }
  }

  // ---- steps of the transmit chain: one mote changes, its list does not -----------------------

  ghost predicate FromEnd(s: State, n: nat, m: Mote) {
    forall k, i | 0 <= k < |s.motes| && 0 <= i < |s.motes[k].incoming| && s.motes[k].incoming[i].from == n ::
      EndInv(m, s.now, s.motes[k].incoming[i].end)
  }

  ghost predicate Since(s: State, n: nat, m: Mote) {
    m.tx == TxTrans ==>
      && (forall i | 0 <= i < |m.incoming| :: !m.incoming[i].deliver)
      && (forall d | 0 <= d < |s.delivered| && s.delivered[d].mote == n :: s.delivered[d].copy.end <= m.since)
  }

  lemma SetMoteLists(s: State, n: nat, m: Mote)
    requires n < |s.motes| && ListsInv(s) && AirInv(s) && m.incoming == s.motes[n].incoming && Since(s, n, m)
    ensures ListsInv(SetMote(s, n, m)) && AirInv(SetMote(s, n, m))
  {
    assert ListInv(s.air, n, s.motes[n], s.now);
    assert ListInv(s.air, n, m, s.now);
  }

  lemma SetMoteEnds(s: State, n: nat, m: Mote)
    requires n < |s.motes| && EndsInv(s, -1) && m.incoming == s.motes[n].incoming && FromEnd(s, n, m)
    ensures EndsInv(SetMote(s, n, m), -1)
  {
    hide EndInv;
  }

  lemma SetMoteOwn(s: State, n: nat, m: Mote)
    requires n < |s.motes| && OwnInv(s) && m.incoming == s.motes[n].incoming && Since(s, n, m)
    ensures OwnInv(SetMote(s, n, m))
  {
    hide HalfDuplex, OwnBefore;
  }

  lemma SetMoteKeeps(s: State, n: nat, m: Mote)
    requires n < |s.motes| && StateInv(s, -1) && m.incoming == s.motes[n].incoming
    requires ChainInv(m, n, s.now, -1) && Since(s, n, m) && FromEnd(s, n, m)
    ensures StateInv(SetMote(s, n, m), -1)
  {
    SetMoteLists(s, n, m);
    SetMoteEnds(s, n, m);
    SetMoteOwn(s, n, m);
    hide ListsInv, AirInv, OwnInv, EndsInv, ChainInv, DeliveryInv, Since, FromEnd;
  }

  /** One chain event of mote n is replaced by another, or by none. */
  lemma ReplaceChain(s: State, n: nat, e: Event, m: Mote, q: set<Event>)
    requires n < |s.motes| && QueueInv(s) && s.motes[n].pending == Some(e) && e.mote == n && e.IsChain()
    requires m.incoming == s.motes[n].incoming
    requires m.pending.Some? ==> m.pending.value.mote == n && m.pending.value.IsChain() && s.now <= m.pending.value.time
    requires q == s.queue - {e} + (if m.pending.Some? then {m.pending.value} else {})
    ensures QueueInv(SetMote(s, n, m).(queue := q))
  {
    var t := SetMote(s, n, m).(queue := q);
    forall f | f in q ensures Expected(t, f) && s.now <= f.time {
      if m.pending != Some(f) {
        assert Expected(s, f);
      }
    }
    forall f | Expected(t, f) ensures f in q {
      if !(f.mote == n && f.IsChain()) { assert Expected(s, f); }
    }
  }

  lemma NewChain(s: State, n: nat, m: Mote, q: set<Event>)
    requires n < |s.motes| && QueueInv(s) && s.motes[n].pending.None? && m.pending.Some?
    requires m.incoming == s.motes[n].incoming
    requires var f := m.pending.value; f.mote == n && f.IsChain() && s.now <= f.time && q == s.queue + {f}
    ensures QueueInv(SetMote(s, n, m).(queue := q))
  {
    var t, f := SetMote(s, n, m).(queue := q), m.pending.value;
    forall e | e in q ensures Expected(t, e) && s.now <= e.time {
      if e != f { assert Expected(s, e); }
    }
    forall e | Expected(t, e) ensures e in q {
      if e != f { assert Expected(s, e); }
    }
  }

  lemma FromEndLater(s: State, n: nat, m: Mote)
    requires n < |s.motes| && EndsInv(s, -1) && ChainInv(s.motes[n], n, s.now, -1)
    requires match s.motes[n].pending
             case None => m.pending.Some? && !m.pending.value.kind.Done? && s.now + 1 < m.pending.value.time
             case Some(e) =>
               if e.kind.Done? then
                 && e.time == s.now
                 && (m.pending.Some? ==> !m.pending.value.kind.Done? && s.now + 1 < m.pending.value.time)
               else m.pending.Some? && !m.pending.value.kind.Done? && e.time <= m.pending.value.time
    ensures FromEnd(s, n, m)
  {
  }

  lemma RequestKeeps(s: State, n: nat, r: Request)
    requires n < |s.motes| && QueueInv(s) && StateInv(s, -1)
    ensures QueueInv(RequestStep(s, n, r)) && StateInv(RequestStep(s, n, r), -1)
  {
    var before := s.motes[n];
    if before.sending.None? {
      var t := RequestStep(s, n, r);
      var m := t.motes[n];
      assert ChainInv(before, n, s.now, -1);
      NewChain(s, n, m, t.queue);
      FromEndLater(s, n, m);
      SetMoteKeeps(s, n, m);
      hide ListsInv, AirInv, OwnInv, EndsInv, ChainInv, DeliveryInv, Since, FromEnd;
    }
  }

  lemma BackoffKeeps(s: State, e: Event, b: nat)
    requires QueueInv(s) && StateInv(s, -1) && e in s.queue && e.time == s.now && e.kind.Backoff?
    ensures e.mote < |s.motes|
    ensures QueueInv(BackoffStep(s, e, b)) && StateInv(BackoffStep(s, e, b), -1)
  {
    PendingOf(s, e);
    hide QueueInv, StateInv;
    BackoffQueue(s, e, b);
    BackoffState(s, e, b);
  }

  /** A chain event in the queue is the pending one of its mote. */
  lemma PendingOf(s: State, e: Event)
    requires QueueInv(s) && e in s.queue && e.IsChain()
    ensures e.mote < |s.motes| && s.motes[e.mote].pending == Some(e)
  {
    assert Expected(s, e);
  }

  lemma BackoffQueue(s: State, e: Event, b: nat)
    requires QueueInv(s) && e.mote < |s.motes| && s.motes[e.mote].pending == Some(e)
    requires e.time == s.now && e.kind.Backoff?
    ensures QueueInv(BackoffStep(s, e, b))
  {
    hide QueueInv;
    var t := BackoffStep(s, e, b);
    ReplaceChain(s, e.mote, e, t.motes[e.mote], t.queue);
  }

  lemma BackoffState(s: State, e: Event, b: nat)
    requires StateInv(s, -1) && e.mote < |s.motes| && s.motes[e.mote].pending == Some(e)
    requires e.time == s.now && e.kind.Backoff?
    ensures StateInv(BackoffStep(s, e, b), -1)
  {
    var n := e.mote;
    var t := BackoffStep(s, e, b);
    var m := t.motes[n];
    assert ChainInv(s.motes[n], n, s.now, -1);
    FromEndLater(s, n, m);
    assert Since(s, n, m);
    hide ListsInv, AirInv, OwnInv, EndsInv, ChainInv, DeliveryInv, Since, FromEnd;
    SetMoteKeeps(s, n, m);
  }

  lemma OwnClosed(s: State, n: nat)
    requires n < |s.motes| && OwnInv(s) && ListsInv(s) && s.motes[n].tx == TxTrans && s.motes[n].since <= s.now
    ensures OwnInv(s.(own := s.own + [Own(n, s.motes[n].since, s.now)]))
  {
    var t := s.(own := s.own + [Own(n, s.motes[n].since, s.now)]);
    assert ListInv(s.air, n, s.motes[n], s.now);
    forall d, k | 0 <= d < |t.delivered| && 0 <= k < |t.own| ensures HalfDuplex(t.delivered[d], t.own[k]) {
    }
  }

  lemma DoneKeeps(s: State, e: Event, again: Option<Request>)
    requires QueueInv(s) && StateInv(s, -1) && e in s.queue && e.time == s.now && e.kind.Done?
    ensures e.mote < |s.motes|
    ensures QueueInv(DoneStep(s, e, again)) && StateInv(DoneStep(s, e, again), -1)
  {
    hide ListsInv, AirInv, DeliveriesInv, OwnInv, EndsInv, HasArrival;
    assert Expected(s, e);
    var n := e.mote;
    assert ChainInv(s.motes[n], n, s.now, -1);
    OwnClosed(s, n);
    var s1 := s.(own := s.own + [Own(n, s.motes[n].since, s.now)]);
    OwnOnly(s, s1);
    var t := DoneStep(s, e, again);
    var m := t.motes[n];
    ReplaceChain(s, n, e, m, t.queue);
    FromEndLater(s1, n, m);
    SetMoteKeeps(s1, n, m);
    hide StateInv, QueueInv;
    QueueOnly(SetMote(s1, n, m), t);
    QueueSame(SetMote(s, n, m).(queue := t.queue), t);
  }

  lemma OwnOnly(s: State, t: State)
    requires StateInv(s, -1) && t == s.(own := t.own) && OwnInv(t)
    ensures StateInv(t, -1)
  {
    hide EndInv, ListInv, ChainInv, DeliveryInv, HalfDuplex, OwnBefore;
  }

  // ---- arrivals ------------------------------------------------------------------------------

  /** In a list in order of arrival, removing an id removes that entry and no other. */
  lemma {:induction false} WithoutIs(cs: seq<Copy>, k: nat)
    requires k < |cs| && forall i, j | 0 <= i < j < |cs| :: cs[i].id < cs[j].id
    ensures Without(cs, cs[k].id) == cs[..k] + cs[k + 1..]
    ensures Lists(cs, cs[k].id) && Find(cs, cs[k].id) == cs[k]
  {
    if k == 0 {
    } else {
      WithoutIs(cs[1..], k - 1);
      assert cs[1..][k - 1] == cs[k];
      assert cs[..k] + cs[k + 1..] == [cs[0]] + (cs[1..][..k - 1] + cs[1..][k..]);
    }
  }

  /** The entry whose event is handled. */
  lemma ArrivalEntry(s: State, e: Event) returns (k: nat)
    requires QueueInv(s) && ListsInv(s) && e in s.queue && !e.IsChain()
    ensures e.mote < |s.motes|
    ensures var cs := s.motes[e.mote].incoming;
            && k < |cs| && ArrivalEvent(e.mote, cs[k]) == e && cs[k].id == e.kind.id
            && Without(cs, e.kind.id) == cs[..k] + cs[k + 1..]
            && Lists(cs, e.kind.id) && Find(cs, e.kind.id) == cs[k]
  {
    assert Expected(s, e);
    var cs := s.motes[e.mote].incoming;
    k :| 0 <= k < |cs| && ArrivalEvent(e.mote, cs[k]) == e;
    assert ListInv(s.air, e.mote, s.motes[e.mote], s.now);
    WithoutIs(cs, k);
  }

  /** Removing an entry removes its event and no other. */
  lemma RemoveHas(cs: seq<Copy>, m: nat, k: nat, f: Event)
    requires k < |cs| && forall i, j | 0 <= i < j < |cs| :: cs[i].id < cs[j].id
    ensures HasArrival(cs[..k] + cs[k + 1..], m, f) <==> HasArrival(cs, m, f) && f != ArrivalEvent(m, cs[k])
  {
    var r := cs[..k] + cs[k + 1..];
    if HasArrival(cs, m, f) && f != ArrivalEvent(m, cs[k]) {
      var i :| 0 <= i < |cs| && ArrivalEvent(m, cs[i]) == f;
      assert r[if i < k then i else i - 1] == cs[i];
    }
    if HasArrival(r, m, f) {
      hide HasArrival;
      var i :| 0 <= i < |r| && ArrivalEvent(m, r[i]) == f;
      RemovedIndex(cs, k, i);
      assert HasArrival(cs, m, f) by { HasAt(cs, m, if i < k then i else i + 1); }
    }
  }

  lemma RemovedIndex(cs: seq<Copy>, k: nat, i: nat)
    requires k < |cs| && i < |cs| - 1 && forall i, j | 0 <= i < j < |cs| :: cs[i].id < cs[j].id
    ensures var j := if i < k then i else i + 1; (cs[..k] + cs[k + 1..])[i] == cs[j] && cs[j].id != cs[k].id
  {
  }

  lemma HasAt(cs: seq<Copy>, m: nat, i: nat)
    requires i < |cs|
    ensures HasArrival(cs, m, ArrivalEvent(m, cs[i]))
  {
  }

  lemma ArrivalQueue(s: State, e: Event, k: nat)
    requires QueueInv(s) && ListsInv(s) && e in s.queue && !e.IsChain() && e.mote < |s.motes|
    requires k < |s.motes[e.mote].incoming| && ArrivalEvent(e.mote, s.motes[e.mote].incoming[k]) == e
    ensures var cs := s.motes[e.mote].incoming;
            QueueInv(SetMote(s, e.mote, s.motes[e.mote].(incoming := cs[..k] + cs[k + 1..])).(queue := s.queue - {e}))
  {
    var n, cs := e.mote, s.motes[e.mote].incoming;
    var t := SetMote(s, n, s.motes[n].(incoming := cs[..k] + cs[k + 1..])).(queue := s.queue - {e});
    assert ListInv(s.air, n, s.motes[n], s.now);
    forall f ensures Expected(t, f) <==> Expected(s, f) && f != e {
      if f.mote == n && !f.IsChain() { RemoveHas(cs, n, k, f); }
    }
  }

  lemma RemoveLists(s: State, n: nat, k: nat)
    requires n < |s.motes| && ListsInv(s) && k < |s.motes[n].incoming|
    ensures var cs := s.motes[n].incoming;
            ListsInv(SetMote(s, n, s.motes[n].(incoming := cs[..k] + cs[k + 1..])))
  {
    var cs := s.motes[n].incoming;
    var r := cs[..k] + cs[k + 1..];
    hide Detected, Alone, OnAir;
    assert ListInv(s.air, n, s.motes[n], s.now);
    forall i | 0 <= i < |r| ensures r[i] == cs[if i < k then i else i + 1] { }
    assert ListInv(s.air, n, s.motes[n].(incoming := r), s.now);
  }

  lemma StillListed(cs: seq<Copy>, k: nat, id: nat)
    requires k < |cs| && cs[k].id != id && Lists(cs, id)
    ensures Lists(cs[..k] + cs[k + 1..], id)
  {
    var i :| 0 <= i < |cs| && cs[i].id == id;
    assert (cs[..k] + cs[k + 1..])[if i < k then i else i - 1] == cs[i];
  }

  lemma RemoveAir(s: State, n: nat, k: nat)
    requires n < |s.motes| && ListsInv(s) && AirInv(s) && k < |s.motes[n].incoming|
             && s.motes[n].incoming[k].end == s.now
    ensures var cs := s.motes[n].incoming;
            AirInv(SetMote(s, n, s.motes[n].(incoming := cs[..k] + cs[k + 1..])))
  {
    hide Lists, Alone, Detected;
    var cs := s.motes[n].incoming;
    var r := cs[..k] + cs[k + 1..];
    assert ListInv(s.air, n, s.motes[n], s.now);
    forall id | 0 <= id < |s.air| && s.air[id].to == n && s.now < s.air[id].end ensures Lists(r, id) {
      StillListed(cs, k, id);
    }
  }

  lemma RemoveOthers(s: State, n: nat, k: nat)
    requires n < |s.motes| && k < |s.motes[n].incoming| && ChainsInv(s, -1) && OwnInv(s) && EndsInv(s, -1)
    ensures var cs := s.motes[n].incoming;
            var t := SetMote(s, n, s.motes[n].(incoming := cs[..k] + cs[k + 1..]));
            ChainsInv(t, -1) && OwnInv(t) && EndsInv(t, -1)
  {
    var cs := s.motes[n].incoming;
    var r := cs[..k] + cs[k + 1..];
    var t := SetMote(s, n, s.motes[n].(incoming := r));
    hide EndInv, HalfDuplex;
    forall m, i | 0 <= m < |t.motes| && 0 <= i < |t.motes[m].incoming|
      ensures var c := t.motes[m].incoming[i]; c.from < |s.motes| && EndInv(t.motes[c.from], t.now, c.end)
    {
      var j := if m != n || i < k then i else i + 1;
      assert t.motes[m].incoming[i] == s.motes[m].incoming[j];
    }
    forall j | 0 <= j < |s.own| ensures s.own[j].mote == n ==> OwnBefore(s.own[j], r) {
    }
  }

  lemma Delivered(s: State, n: nat)
    requires n < |s.motes| && ListsInv(s) && AirInv(s) && OwnInv(s) && DeliveriesInv(s)
    requires s.motes[n].incoming != [] && s.motes[n].incoming[0].deliver && s.motes[n].incoming[0].end == s.now
    ensures var t := s.(delivered := s.delivered + [Delivery(n, s.motes[n].incoming[0])]);
            DeliveriesInv(t) && OwnInv(t)
  {
    var c := s.motes[n].incoming[0];
    var d := Delivery(n, c);
    var t := s.(delivered := s.delivered + [d]);
    assert ListInv(s.air, n, s.motes[n], s.now);
    FirstIsDelivered(s, n);
    hide DeliveryInv, EndInv;
    forall i, k | 0 <= i < |t.delivered| && 0 <= k < |t.own| ensures HalfDuplex(t.delivered[i], t.own[k]) {
    }
  }

  lemma FirstIsDelivered(s: State, n: nat)
    requires n < |s.motes| && ListsInv(s) && AirInv(s)
    requires s.motes[n].incoming != [] && s.motes[n].incoming[0].deliver && s.motes[n].incoming[0].end == s.now
    ensures DeliveryInv(s.air, Delivery(n, s.motes[n].incoming[0]), s.now)
  {
    var c := s.motes[n].incoming[0];
    assert ListInv(s.air, n, s.motes[n], s.now);
    if !c.crc && !s.air[c.id].lost {
      var id :| c.id < id < |s.air| && s.air[id].to == n;
      assert s.air[id].start <= c.end;
    }
  }

  /** What the reception records. */
  lemma ArrivalRecords(s: State, e: Event, k: nat)
    requires StateInv(s, -1) && e.time == s.now && !e.IsChain() && e.mote < |s.motes|
    requires Lists(s.motes[e.mote].incoming, e.kind.id)
    requires var cs := s.motes[e.mote].incoming;
             k < |cs| && Find(cs, e.kind.id) == cs[k] && ArrivalEvent(e.mote, cs[k]) == e
    ensures StateInv(s.(delivered := ArrivalStep(s, e).delivered), -1)
  {
    hide EndInv, AirInv, DeliveriesInv, OwnInv, OnAir, Detected, Alone, Without, Find;
    var t := s.(delivered := ArrivalStep(s, e).delivered);
    if t.delivered != s.delivered {
      assert ListInv(s.air, e.mote, s.motes[e.mote], s.now);
      Delivered(s, e.mote);
      RecordOnly(s, t);
    }
  }

  lemma RecordOnly(s: State, t: State)
    requires ChainsInv(s, -1) && ListsInv(s) && AirInv(s) && EndsInv(s, -1) && t == s.(delivered := t.delivered)
    ensures ChainsInv(t, -1) && ListsInv(t) && AirInv(t) && EndsInv(t, -1)
  {
    hide EndInv, ListInv, ChainInv;
  }

  lemma RemoveKeeps(s: State, n: nat, k: nat)
    requires n < |s.motes| && StateInv(s, -1) && k < |s.motes[n].incoming| && s.motes[n].incoming[k].end == s.now
    ensures var cs := s.motes[n].incoming;
            StateInv(SetMote(s, n, s.motes[n].(incoming := cs[..k] + cs[k + 1..])), -1)
  {
    RemoveLists(s, n, k);
    RemoveAir(s, n, k);
    RemoveOthers(s, n, k);
    hide ListsInv, AirInv, OwnInv, EndsInv, ChainInv, DeliveryInv;
  }

  /** Handling an arrival: the entry is there, and is removed. */
  lemma ArrivalKeeps(s: State, e: Event)
    requires QueueInv(s) && StateInv(s, -1) && e in s.queue && e.time == s.now && !e.IsChain()
    ensures e.mote < |s.motes| && Lists(s.motes[e.mote].incoming, e.kind.id)
    ensures QueueInv(ArrivalStep(s, e)) && StateInv(ArrivalStep(s, e), -1)
  {
    hide QueueInv, ListsInv, AirInv, DeliveriesInv, ChainsInv, OwnInv, EndsInv, Lists, Find, Without;
    var k := ArrivalEntry(s, e);
    var n, cs := e.mote, s.motes[e.mote].incoming;
    ArrivalQueue(s, e, k);
    ArrivalRecords(s, e, k);
    var s1 := s.(delivered := ArrivalStep(s, e).delivered);
    RemoveKeeps(s1, n, k);
    var t := SetMote(s1, n, s.motes[n].(incoming := cs[..k] + cs[k + 1..]));
    QueueOnly(t, ArrivalStep(s, e));
    QueueSame(SetMote(s, n, s.motes[n].(incoming := cs[..k] + cs[k + 1..])).(queue := s.queue - {e}),
              ArrivalStep(s, e));
  }

  lemma QueueOnly(s: State, t: State)
    requires StateInv(s, -1) && t == s.(queue := t.queue)
    ensures StateInv(t, -1)
  {
    hide EndInv, ListInv, ChainInv, DeliveryInv, HalfDuplex, OwnBefore;
  }

  lemma QueueSame(s: State, t: State)
    requires QueueInv(s) && t.queue == s.queue && t.motes == s.motes && t.now == s.now
    ensures QueueInv(t)
  {
    forall e ensures Expected(t, e) == Expected(s, e) { }
  }

  // ---- a packet reaches a mote ---------------------------------------------------------------

  lemma ArriveQueue(s: State, n: nat, p: Packet, m: nat, draw: Draw)
    requires m < |s.motes| && QueueInv(s)
    ensures QueueInv(Arrive(s, n, p, m, draw))
  {
    var t := Arrive(s, n, p, m, draw);
    var cs, ds := s.motes[m].incoming, t.motes[m].incoming;
    var c := ds[|ds| - 1];
    var g := ArrivalEvent(m, c);
    forall f ensures Expected(t, f) <==> Expected(s, f) || f == g {
      if f.mote == m && !f.IsChain() {
        if HasArrival(cs, m, f) {
          var i :| 0 <= i < |cs| && ArrivalEvent(m, cs[i]) == f;
          assert ArrivalEvent(m, ds[i]) == f;
        }
        if HasArrival(ds, m, f) {
          var i :| 0 <= i < |ds| && ArrivalEvent(m, ds[i]) == f;
          assert i < |cs| ==> ArrivalEvent(m, cs[i]) == f;
        }
        assert ArrivalEvent(m, ds[|ds| - 1]) == g;
      }
    }
  }

  lemma ArriveChains(s: State, n: nat, p: Packet, m: nat, draw: Draw, busy: int)
    requires m < |s.motes| && ChainsInv(s, busy)
    ensures ChainsInv(Arrive(s, n, p, m, draw), busy)
  {
    var t := Arrive(s, n, p, m, draw);
    forall k | 0 <= k < |t.motes| ensures ChainInv(t.motes[k], k, t.now, busy) {
      assert ChainInv(s.motes[k], k, s.now, busy);
    }
  }

  lemma ExtendAir(air: seq<Air>, r: Air, k: nat, c: Copy)
    requires r.to != k && c.id < |air|
    ensures Alone(air + [r], k, c) == Alone(air, k, c)
    ensures Detected(air, k, c) ==> Detected(air + [r], k, c)
  {
    if Alone(air + [r], k, c) {
      forall id | c.id < id < |air| ensures air[id].to != k {
        assert (air + [r])[id] == air[id];
      }
    }
  }

  lemma ArriveOtherList(air: seq<Air>, r: Air, k: nat, mote: Mote, mote': Mote, now: int)
    requires ListInv(air, k, mote, now) && r.to != k
    requires mote'.incoming == mote.incoming && mote'.tx == mote.tx
    ensures ListInv(air + [r], k, mote', now)
  {
    forall i | 0 <= i < |mote.incoming| ensures
      Alone(air + [r], k, mote.incoming[i]) == Alone(air, k, mote.incoming[i]) &&
      (Detected(air, k, mote.incoming[i]) ==> Detected(air + [r], k, mote.incoming[i]))
    {
      ExtendAir(air, r, k, mote.incoming[i]);
    }
    hide Alone, Detected;
  }

  lemma ArriveList(s: State, n: nat, p: Packet, m: nat, draw: Draw)
    requires m < |s.motes| && ListsInv(s) && AirInv(s)
    ensures ListInv(Arrive(s, n, p, m, draw).air, m, Arrive(s, n, p, m, draw).motes[m], s.now)
  {
    assert ListInv(s.air, m, s.motes[m], s.now);
    hide ListsInv;
    if Free(s.motes[m]) { DetectedList(s, n, p, m, draw); } else { JunkList(s, n, p, m, draw); }
  }

  /** A mote that is free has one entry afterwards, that of the packet. */
  lemma DetectedList(s: State, n: nat, p: Packet, m: nat, draw: Draw)
    requires m < |s.motes| && AirInv(s) && Free(s.motes[m])
    ensures ListInv(Arrive(s, n, p, m, draw).air, m, Arrive(s, n, p, m, draw).motes[m], s.now)
  {
    hide ArrivalEvent, HeardFrom;
  }

  /** At any other the entries before that of the packet are junk. */
  lemma JunkList(s: State, n: nat, p: Packet, m: nat, draw: Draw)
    requires m < |s.motes| && ListInv(s.air, m, s.motes[m], s.now) && !Free(s.motes[m])
    ensures ListInv(Arrive(s, n, p, m, draw).air, m, Arrive(s, n, p, m, draw).motes[m], s.now)
  {
    hide ArrivalEvent, HeardFrom;
    var t := Arrive(s, n, p, m, draw);
    var cs, ds := s.motes[m].incoming, t.motes[m].incoming;
    assert t.air[|s.air|].to == m;
    forall i | 0 <= i < |cs| ensures ds[i] == Corrupt(cs[i], draw.junk(i)) && !Alone(t.air, m, ds[i]) {
    }
  }

  lemma ArriveLists(s: State, n: nat, p: Packet, m: nat, draw: Draw)
    requires m < |s.motes| && ListsInv(s) && AirInv(s)
    ensures ListsInv(Arrive(s, n, p, m, draw))
  {
    var t := Arrive(s, n, p, m, draw);
    forall k | 0 <= k < |t.motes| ensures ListInv(t.air, k, t.motes[k], t.now) {
      if k == m {
        ArriveList(s, n, p, m, draw);
      } else {
        assert ListInv(s.air, k, s.motes[k], s.now);
        ArriveOtherList(s.air, t.air[|s.air|], k, s.motes[k], t.motes[k], s.now);
      }
    }
  }

  lemma ArriveAir(s: State, n: nat, p: Packet, m: nat, draw: Draw)
    requires m < |s.motes| && AirInv(s)
    ensures AirInv(Arrive(s, n, p, m, draw))
  {
    var t := Arrive(s, n, p, m, draw);
    var cs, ds := s.motes[m].incoming, t.motes[m].incoming;
    assert ds[|ds| - 1].id == |s.air|;
    forall id | 0 <= id < |s.air| && s.air[id].to == m && Lists(cs, id) ensures Lists(ds, id) {
      var i :| 0 <= i < |cs| && cs[i].id == id;
      assert ds[i].id == id;
    }
  }

  lemma ArriveDeliveries(s: State, n: nat, p: Packet, m: nat, draw: Draw)
    requires m < |s.motes| && DeliveriesInv(s)
    ensures DeliveriesInv(Arrive(s, n, p, m, draw))
  {
    var t := Arrive(s, n, p, m, draw);
    forall k | 0 <= k < |t.delivered| ensures DeliveryInv(t.air, t.delivered[k], t.now) {
      var d := s.delivered[k];
      assert DeliveryInv(s.air, d, s.now);
      if !d.copy.crc && !s.air[d.copy.id].lost {
        var id :| d.copy.id < id < |s.air| && s.air[id].to == d.mote && s.air[id].start <= d.copy.end;
        assert t.air[id] == s.air[id];
      }
    }
  }

  lemma ArriveOwn(s: State, n: nat, p: Packet, m: nat, draw: Draw)
    requires m < |s.motes| && OwnInv(s)
    ensures OwnInv(Arrive(s, n, p, m, draw))
  {
    var t := Arrive(s, n, p, m, draw);
    var cs, ds := s.motes[m].incoming, t.motes[m].incoming;
    forall k | 0 <= k < |t.own| && t.own[k].mote == m ensures OwnBefore(t.own[k], ds) {
      forall i | 0 <= i < |ds| && ds[i].deliver ensures t.own[k].end <= ds[i].start {
        if i < |cs| { assert cs[i].deliver && ds[i].start == cs[i].start; }
      }
    }
  }

  lemma ArriveEnds(s: State, n: nat, p: Packet, m: nat, draw: Draw)
    requires m < |s.motes| && n < |s.motes| && EndsInv(s, n)
    ensures EndsInv(Arrive(s, n, p, m, draw), n)
  {
    var t := Arrive(s, n, p, m, draw);
    forall k, i | 0 <= k < |t.motes| && 0 <= i < |t.motes[k].incoming|
      ensures var c := t.motes[k].incoming[i];
              c.from < |t.motes| && (c.from != n ==> EndInv(t.motes[c.from], t.now, c.end))
    {
      ArrivedEntry(s, n, p, m, draw, k, i);
      hide Arrive;
      var c := t.motes[k].incoming[i];
      if c.from != n { assert EndInv(s.motes[c.from], s.now, c.end); }
    }
  }

  /** An entry of a list after an arrival was there before, or is that of the arrival. */
  lemma ArrivedEntry(s: State, n: nat, p: Packet, m: nat, draw: Draw, k: nat, i: nat)
    requires m < |s.motes| && k < |s.motes| && i < |Arrive(s, n, p, m, draw).motes[k].incoming|
    ensures var t := Arrive(s, n, p, m, draw);
            var (c, cs) := (t.motes[k].incoming[i], s.motes[k].incoming);
            && |t.motes| == |s.motes| && t.now == s.now
            && (if i < |cs| then c.from == cs[i].from && c.end == cs[i].end else c.from == n)
            && (c.from < |s.motes| ==> t.motes[c.from].pending == s.motes[c.from].pending)
  {
    hide HeardFrom, AirTime, ArrivalEvent;
  }

  lemma ArriveKeeps(s: State, n: nat, p: Packet, m: nat, draw: Draw)
    requires m < |s.motes| && n < |s.motes| && QueueInv(s) && StateInv(s, n)
    ensures QueueInv(Arrive(s, n, p, m, draw)) && StateInv(Arrive(s, n, p, m, draw), n)
  {
    hide QueueInv, ChainsInv, ListsInv, AirInv, DeliveriesInv, OwnInv, EndsInv, Arrive;
    ArriveQueue(s, n, p, m, draw);
    ArriveChains(s, n, p, m, draw, n);
    ArriveLists(s, n, p, m, draw);
    ArriveAir(s, n, p, m, draw);
    ArriveDeliveries(s, n, p, m, draw);
    ArriveOwn(s, n, p, m, draw);
    ArriveEnds(s, n, p, m, draw);
  }

  // ---- start ---------------------------------------------------------------------------------

  /** No list holds a copy from n. */
  ghost predicate NoneFrom(s: State, n: nat) {
    forall m, i | 0 <= m < |s.motes| && 0 <= i < |s.motes[m].incoming| :: s.motes[m].incoming[i].from != n
  }

  /** Every copy from n ends then. */
  ghost predicate FromEndAt(s: State, n: nat, end: int) {
    forall m, i | 0 <= m < |s.motes| && 0 <= i < |s.motes[m].incoming| && s.motes[m].incoming[i].from == n ::
      s.motes[m].incoming[i].end == end
  }

  function Started(s: State, e: Event): State
    requires e.mote < |s.motes|
  {
    SetMote(s, e.mote, s.motes[e.mote].(pending := None)).(now := e.time, queue := s.queue - {e})
  }

  lemma StartBegins(s: State, e: Event)
    requires QueueInv(s) && StateInv(s, -1) && e in s.queue && e.time == s.now && e.kind.Start?
    ensures e.mote < |s.motes| && s.motes[e.mote].sending.Some?
    ensures QueueInv(Started(s, e)) && StateInv(Started(s, e), e.mote) && NoneFrom(Started(s, e), e.mote)
  {
    PendingOf(s, e);
    assert ChainInv(s.motes[e.mote], e.mote, s.now, -1);
    hide QueueInv, StateInv, NoneFrom, ChainInv;
    var t := Started(s, e);
    ReplaceChain(s, e.mote, e, t.motes[e.mote], t.queue);
    StartState(s, e);
  }

  lemma StartState(s: State, e: Event)
    requires StateInv(s, -1) && e.mote < |s.motes| && s.motes[e.mote].pending == Some(e)
    requires e.time == s.now && e.kind.Start?
    ensures StateInv(Started(s, e), e.mote) && NoneFrom(Started(s, e), e.mote)
  {
    var n := e.mote;
    var m := Started(s, e).motes[n];
    StartSince(s, e);
    StartNone(s, e);
    StartChains(s, e);
    hide ListsInv, AirInv, OwnInv, DeliveriesInv, EndsInv, ChainsInv, NoneFrom, Since;
    SetMoteLists(s, n, m);
    SetMoteOwn(s, n, m);
    QueueAside(SetMote(s, n, m), s.queue - {e});
  }

  /** What is kept does not depend on the queue. */
  lemma QueueAside(s: State, q: set<Event>)
    ensures ListsInv(s.(queue := q)) == ListsInv(s) && AirInv(s.(queue := q)) == AirInv(s)
    ensures OwnInv(s.(queue := q)) == OwnInv(s) && DeliveriesInv(s.(queue := q)) == DeliveriesInv(s)
  {
  }

  lemma StartSince(s: State, e: Event)
    requires ListsInv(s) && OwnInv(s) && ChainsInv(s, -1) && e.mote < |s.motes| && s.motes[e.mote].pending == Some(e)
    requires e.kind.Start?
    ensures Since(s, e.mote, Started(s, e).motes[e.mote])
  {
    assert ChainInv(s.motes[e.mote], e.mote, s.now, -1);
    assert ListInv(s.air, e.mote, s.motes[e.mote], s.now);
  }

  /** None of its copies is left: they end before its start event. */
  lemma StartNone(s: State, e: Event)
    requires ListsInv(s) && EndsInv(s, -1) && e.mote < |s.motes| && s.motes[e.mote].pending == Some(e)
    requires e.time == s.now && e.kind.Start?
    ensures NoneFrom(Started(s, e), e.mote) && EndsInv(Started(s, e), e.mote)
  {
    var t := Started(s, e);
    forall k, i | 0 <= k < |t.motes| && 0 <= i < |t.motes[k].incoming|
      ensures var c := t.motes[k].incoming[i];
              c.from < |t.motes| && c.from != e.mote && EndInv(t.motes[c.from], t.now, c.end)
    {
      var c := s.motes[k].incoming[i];
      assert t.motes[k].incoming[i] == c;
      assert ListInv(s.air, k, s.motes[k], s.now);
      assert EndInv(s.motes[c.from], s.now, c.end);
    }
  }

  lemma StartChains(s: State, e: Event)
    requires ChainsInv(s, -1) && e.mote < |s.motes| && s.motes[e.mote].pending == Some(e)
    requires e.time == s.now && e.kind.Start?
    ensures ChainsInv(Started(s, e), e.mote)
  {
    var t := Started(s, e);
    forall k | 0 <= k < |t.motes| ensures ChainInv(t.motes[k], k, t.now, e.mote) {
      assert ChainInv(s.motes[k], k, s.now, -1);
    }
  }

  lemma {:induction false} ArriveAllKeeps(s: State, n: nat, p: Packet, ms: seq<nat>, draws: seq<Draw>)
    requires |draws| == |ms| && forall i | 0 <= i < |ms| :: ms[i] < |s.motes|
    requires n < |s.motes| && QueueInv(s) && StateInv(s, n) && FromEndAt(s, n, s.now + AirTime(p))
    ensures var t := ArriveAll(s, n, p, ms, draws).0;
            QueueInv(t) && StateInv(t, n) && FromEndAt(t, n, s.now + AirTime(p)) && t.now == s.now && t.own == s.own
  {
    if ms != [] {
      var k := |ms| - 1;
      ArriveAllKeeps(s, n, p, ms[..k], draws[..k]);
      var s1 := ArriveAll(s, n, p, ms[..k], draws[..k]).0;
      ArriveKeeps(s1, n, p, ms[k], draws[k]);
      ArriveFromEnd(s1, n, p, ms[k], draws[k]);
      hide QueueInv, StateInv, FromEndAt;
    }
  }

  lemma ArriveFromEnd(s: State, n: nat, p: Packet, m: nat, draw: Draw)
    requires m < |s.motes| && FromEndAt(s, n, s.now + AirTime(p))
    ensures FromEndAt(Arrive(s, n, p, m, draw), n, s.now + AirTime(p))
  {
    var t := Arrive(s, n, p, m, draw);
    forall k, i | 0 <= k < |t.motes| && 0 <= i < |t.motes[k].incoming| && t.motes[k].incoming[i].from == n
      ensures t.motes[k].incoming[i].end == s.now + AirTime(p)
    {
      if i < |s.motes[k].incoming| {
        assert t.motes[k].incoming[i].from == s.motes[k].incoming[i].from;
      }
    }
  }

  lemma StartEnds(s: State, n: nat, out: Outgoing)
    requires n < |s.motes| && QueueInv(s) && StateInv(s, n) && FromEndAt(s, n, s.now + AirTime(out.packet))
    ensures var f := Event(n, s.now + AirTime(out.packet) - 1, Done);
            var t := SetMote(s, n, s.motes[n].(sending := Some(out), pending := Some(f))).(queue := s.queue + {f});
            QueueInv(t) && StateInv(t, -1)
  {
    var f := Event(n, s.now + AirTime(out.packet) - 1, Done);
    var m := s.motes[n].(sending := Some(out), pending := Some(f));
    assert ChainInv(s.motes[n], n, s.now, n);
    NewChain(s, n, m, s.queue + {f});
    assert ListInv(s.air, n, s.motes[n], s.now);
    assert Since(s, n, m);
    SetMoteLists(s, n, m);
    SetMoteOwn(s, n, m);
    var t := SetMote(s, n, m);
    forall k, i | 0 <= k < |t.motes| && 0 <= i < |t.motes[k].incoming|
      ensures var c := t.motes[k].incoming[i]; c.from < |t.motes| && EndInv(t.motes[c.from], t.now, c.end)
    {
      assert t.motes[k].incoming[i] == s.motes[k].incoming[i];
    }
    hide ListsInv, AirInv, OwnInv, DeliveryInv, EndInv;
  }

  lemma StartKeeps(links: Links, s: State, e: Event, draws: seq<Draw>)
    requires WellFormed(links) && |s.motes| == |links|
    requires QueueInv(s) && StateInv(s, -1) && e in s.queue && e.time == s.now && e.kind.Start?
    requires e.mote < |links| && |draws| == |links[e.mote]|
    ensures s.motes[e.mote].sending.Some?
    ensures var t := StartStep(links, s, e, draws); QueueInv(t) && StateInv(t, -1)
  {
    hide QueueInv, StateInv, FromEndAt, NoneFrom, Started, ArriveAll, SetMote;
    StartBegins(s, e);
    StartUnfolds(links, s, e, draws);
    var n := e.mote;
    var p := s.motes[n].sending.value.packet;
    NoneFromEnd(Started(s, e), n, s.now + AirTime(p));
    ArriveAllKeeps(Started(s, e), n, p, links[n], draws);
    var (s1, ack) := ArriveAll(Started(s, e), n, p, links[n], draws);
    StartEnds(s1, n, Outgoing(p, ack));
  }

  lemma NoneFromEnd(s: State, n: nat, end: int)
    requires NoneFrom(s, n)
    ensures FromEndAt(s, n, end)
  {
  }

  lemma StartUnfolds(links: Links, s: State, e: Event, draws: seq<Draw>)
    requires WellFormed(links) && |s.motes| == |links| && e.mote < |links| && |draws| == |links[e.mote]|
    requires s.motes[e.mote].sending.Some? && e.time == s.now
    ensures var (n, p) := (e.mote, s.motes[e.mote].sending.value.packet);
            && Started(s, e).now == s.now && |Started(s, e).motes| == |s.motes|
            && var (s1, ack) := ArriveAll(Started(s, e), n, p, links[n], draws);
               var f := Event(n, e.time + AirTime(p) - 1, Done);
               StartStep(links, s, e, draws) ==
                 SetMote(s1, n, s1.motes[n].(sending := Some(Outgoing(p, ack)), pending := Some(f)))
                   .(queue := s1.queue + {f})
  {
    hide ArriveAll, AirTime;
  }
}
