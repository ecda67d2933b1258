/** What the packet simulator puts on the air, whom a packet reaches, when it counts as
    acknowledged, and what is delivered; for every topology. */
module PacketLaws {
  import opened Wrappers
  import opened PacketSpec
  import opened PacketInvariant
  import opened PacketRuns
  import opened PacketTimes

  // ---- detection -----------------------------------------------------------------------------

  /** An entry that will be delivered found its mote switched on and not transmitting; for one
      that will not, the mote was off or transmitting or still had something coming in. */
  ghost predicate EntryInv(air: seq<Air>, m: nat, c: Copy) {
    && c.id < |air|
    && if c.deliver then air[c.id].on && !air[c.id].sending
       else
         && !air[c.id].lost
         && (air[c.id].on && !air[c.id].sending ==> CameIn(air, m, c))
  }

  ghost predicate CameIn(air: seq<Air>, m: nat, c: Copy) {
    exists id | 0 <= id < c.id && id < |air| :: air[id].to == m && air[id].end >= c.start
  }

  ghost predicate EntriesInv(s: State) {
    forall m, i | 0 <= m < |s.motes| && 0 <= i < |s.motes[m].incoming| :: EntryInv(s.air, m, s.motes[m].incoming[i])
  }

  // ---- acknowledgements ----------------------------------------------------------------------

  /** Entry i of mote m is from mote n and will be delivered, m was switched on, and the packet
      was not lost on its link; and a packet for one mote is for m, and nobody else's packet
      has come there since. */
  ghost predicate GotBy(s: State, n: nat, addr: nat, m: nat, i: nat) {
    && m < |s.motes| && i < |s.motes[m].incoming|
    && var c := s.motes[m].incoming[i];
       && c.from == n && c.deliver && c.id < |s.air| && !s.air[c.id].lost && s.air[c.id].on
       && (addr == BROADCAST || (addr == m && OnlySince(s.air, m, n, c.id)))
  }

  ghost predicate OnlySince(air: seq<Air>, m: nat, n: nat, id: nat) {
    forall j | id < j < |air| && air[j].to == m :: air[j].from == n
  }

  ghost predicate Got(s: State, n: nat, addr: nat) { exists m: nat, i: nat :: GotBy(s, n, addr, m, i) }

  /** A mote whose packet is on the air. */
  predicate OnTheAir(m: Mote) { m.pending.Some? && m.pending.value.kind.Done? && m.sending.Some? }

  ghost predicate AckLawAt(s: State, n: nat)
    requires n < |s.motes|
  {
    OnTheAir(s.motes[n]) ==>
      var out := s.motes[n].sending.value; out.ack <==> Got(s, n, out.packet.addr)
  }

  ghost predicate AckLaw(s: State) { forall n | 0 <= n < |s.motes| :: AckLawAt(s, n) }

  // ---- one link ------------------------------------------------------------------------------

  lemma ArriveEntry(s: State, n: nat, p: Packet, m: nat, draw: Draw)
    requires m < |s.motes| && ListInv(s.air, m, s.motes[m], s.now)
    ensures var t := Arrive(s, n, p, m, draw);
            var ds := t.motes[m].incoming;
            |ds| == |s.motes[m].incoming| + 1 && EntryInv(t.air, m, ds[|ds| - 1])
  {
    hide HeardFrom, ArrivalEvent, AirTime, Alone, Detected;
    var t, cs := Arrive(s, n, p, m, draw), s.motes[m].incoming;
    if cs != [] {
      var id := cs[0].id;
      assert s.air[id].to == m && s.air[id].end >= s.now;
      assert t.air[id] == s.air[id];
    }
  }

  /** An entry there before stays where it is, whatever becomes of its content. */
  lemma ArriveStays(s: State, n: nat, p: Packet, m: nat, draw: Draw, k: nat, i: nat)
    requires m < |s.motes| && k < |s.motes| && i < |s.motes[k].incoming|
    ensures var t := Arrive(s, n, p, m, draw);
            && k < |t.motes| && i < |t.motes[k].incoming|
            && var (c, d) := (s.motes[k].incoming[i], t.motes[k].incoming[i]);
               d.id == c.id && d.from == c.from && d.deliver == c.deliver && d.start == c.start && d.end == c.end
  {
    hide HeardFrom, ArrivalEvent, AirTime;
  }

  lemma ArriveRecord(s: State, n: nat, p: Packet, m: nat, draw: Draw)
    requires m < |s.motes|
    ensures var (t, mote) := (Arrive(s, n, p, m, draw), s.motes[m]);
            && |t.air| == |s.air| + 1 && t.air[..|s.air|] == s.air
            && var r := t.air[|s.air|];
               r == Air(n, m, p, r.lost, s.now, s.now + (13 + p.length) * 1664, mote.on, mote.tx == TxTrans)
               && (r.lost <==> mote.incoming == [] && mote.on && mote.tx != TxTrans && draw.lost)
  {
    hide HeardFrom, ArrivalEvent;
  }

  lemma EntryStays(air: seq<Air>, r: Air, m: nat, c: Copy)
    requires EntryInv(air, m, c)
    ensures EntryInv(air + [r], m, c)
  {
    if CameIn(air, m, c) {
      var id :| 0 <= id < c.id && id < |air| && air[id].to == m && air[id].end >= c.start;
      assert (air + [r])[id] == air[id];
    }
  }

  lemma SameEntry(air: seq<Air>, m: nat, c: Copy, d: Copy)
    requires EntryInv(air, m, c) && d.id == c.id && d.deliver == c.deliver && d.start == c.start
    ensures EntryInv(air, m, d)
  {
  }

  /** The lists of motes other than m stay as they are; m's gains one entry. */
  lemma ArriveLength(s: State, n: nat, p: Packet, m: nat, draw: Draw, k: nat)
    requires m < |s.motes| && k < |s.motes|
    ensures var t := Arrive(s, n, p, m, draw);
            && |t.motes| == |s.motes|
            && |t.motes[k].incoming| == |s.motes[k].incoming| + if k == m then 1 else 0
  {
    hide HeardFrom, ArrivalEvent, AirTime;
  }

  lemma ArriveEntries(s: State, n: nat, p: Packet, m: nat, draw: Draw)
    requires m < |s.motes| && EntriesInv(s) && ListsInv(s)
    ensures EntriesInv(Arrive(s, n, p, m, draw))
  {
    var t := Arrive(s, n, p, m, draw);
    ArriveRecord(s, n, p, m, draw);
    ArriveEntry(s, n, p, m, draw);
    ArriveLength(s, n, p, m, draw, m);
    assert t.air == s.air + [t.air[|s.air|]];
    hide Arrive, EntryInv;
    forall k, i | 0 <= k < |t.motes| && 0 <= i < |t.motes[k].incoming|
      ensures EntryInv(t.air, k, t.motes[k].incoming[i])
    {
      ArriveLength(s, n, p, m, draw, k);
      if i < |s.motes[k].incoming| {
        ArriveStays(s, n, p, m, draw, k, i);
        EntryStays(s.air, t.air[|s.air|], k, s.motes[k].incoming[i]);
        SameEntry(t.air, k, s.motes[k].incoming[i], t.motes[k].incoming[i]);
      }
    }
  }

  /** What m holds afterwards as the last entry. */
  lemma ArriveLast(s: State, n: nat, p: Packet, m: nat, draw: Draw)
    requires m < |s.motes|
    ensures var (t, mote) := (Arrive(s, n, p, m, draw), s.motes[m]);
            var (k, ds) := (|mote.incoming|, t.motes[m].incoming);
            && |ds| == k + 1 && ds[k].id == |s.air| && ds[k].from == n
            && ds[k].start == s.now && ds[k].end == s.now + (13 + p.length) * 1664
            && (ds[k].deliver <==> mote.incoming == [] && mote.on && mote.tx != TxTrans)
            && ArrivalEvent(m, ds[k]) in t.queue
  {
    hide HeardFrom;
  }

  lemma OnlyMore(air: seq<Air>, r: Air, m: nat, n: nat, id: nat)
    requires id < |air|
    ensures OnlySince(air + [r], m, n, id) <==> OnlySince(air, m, n, id) && (r.to == m ==> r.from == n)
  {
    if OnlySince(air + [r], m, n, id) {
      forall j | id < j < |air| && air[j].to == m ensures air[j].from == n { assert (air + [r])[j] == air[j]; }
      assert (air + [r])[|air|] == r;
    }
  }

  /** What was got before still is, unless it is another's packet for m alone. */
  lemma ArriveGotBy(s: State, n: nat, p: Packet, m: nat, draw: Draw, j: nat, addr: nat, k: nat, i: nat)
    requires m < |s.motes| && k < |s.motes| && i < |s.motes[k].incoming| && ListsInv(s)
    ensures GotBy(Arrive(s, n, p, m, draw), j, addr, k, i) <==>
              GotBy(s, j, addr, k, i) && (addr == BROADCAST || addr != m || j == n)
  {
    ArriveStays(s, n, p, m, draw, k, i);
    ArriveRecord(s, n, p, m, draw);
    ArriveLength(s, n, p, m, draw, k);
    assert ListInv(s.air, k, s.motes[k], s.now);
    hide Arrive, Alone, Detected, OnlySince;
    var t, id := Arrive(s, n, p, m, draw), s.motes[k].incoming[i].id;
    assert t.air[..|s.air|][id] == t.air[id];
    assert t.air == s.air + [t.air[|s.air|]];
    OnlyMore(s.air, t.air[|s.air|], k, j, id);
  }

  lemma ArriveGotLast(s: State, n: nat, p: Packet, m: nat, draw: Draw, j: nat, addr: nat)
    requires m < |s.motes|
    ensures GotBy(Arrive(s, n, p, m, draw), j, addr, m, |s.motes[m].incoming|) <==>
              j == n && (addr == BROADCAST || addr == m)
              && s.motes[m].incoming == [] && s.motes[m].on && s.motes[m].tx != TxTrans && !draw.lost
  {
    ArriveLast(s, n, p, m, draw);
    ArriveRecord(s, n, p, m, draw);
    ArriveLength(s, n, p, m, draw, m);
    hide Arrive;
  }

  lemma StaysGot(s: State, n: nat, p: Packet, m: nat, draw: Draw, j: nat, addr: nat)
    requires m < |s.motes| && ListsInv(s) && Got(s, j, addr) && (addr == BROADCAST || addr != m || j == n)
    ensures Got(Arrive(s, n, p, m, draw), j, addr)
  {
    hide Arrive, ListsInv, GotBy, HeardFrom;
    var k: nat, i: nat :| GotBy(s, j, addr, k, i);
    GotInside(s, j, addr, k, i);
    ArriveGotBy(s, n, p, m, draw, j, addr, k, i);
  }

  lemma WasGot(s: State, n: nat, p: Packet, m: nat, draw: Draw, j: nat, addr: nat)
    requires m < |s.motes| && ListsInv(s) && Got(Arrive(s, n, p, m, draw), j, addr)
    ensures (Got(s, j, addr) && (addr == BROADCAST || addr != m || j == n))
            || GotBy(Arrive(s, n, p, m, draw), j, addr, m, |s.motes[m].incoming|)
  {
    hide Arrive, ListsInv, GotBy, HeardFrom;
    var t := Arrive(s, n, p, m, draw);
    var k: nat, i: nat :| GotBy(t, j, addr, k, i);
    GotInside(t, j, addr, k, i);
    ArriveLength(s, n, p, m, draw, m);
    ArriveLength(s, n, p, m, draw, k);
    if i < |s.motes[k].incoming| { ArriveGotBy(s, n, p, m, draw, j, addr, k, i); }
  }

  /** Another mote's packet is got as before, or as no more if it was for m; n's own also by m,
      if m detects it, it is not lost and it is for m. */
  lemma ArriveGot(s: State, n: nat, p: Packet, m: nat, draw: Draw, j: nat, addr: nat)
    requires m < |s.motes| && ListsInv(s)
    ensures Got(Arrive(s, n, p, m, draw), j, addr) <==>
              if j == n then
                Got(s, n, addr) || ((addr == BROADCAST || addr == m) && s.motes[m].incoming == []
                                    && s.motes[m].on && s.motes[m].tx != TxTrans && !draw.lost)
              else Got(s, j, addr) && (addr == BROADCAST || addr != m)
  {
    var t := Arrive(s, n, p, m, draw);
    ArriveGotLast(s, n, p, m, draw, j, addr);
    hide Arrive, ListsInv, GotBy;
    if Got(t, j, addr) { WasGot(s, n, p, m, draw, j, addr); }
    if Got(s, j, addr) && (addr == BROADCAST || addr != m || j == n) { StaysGot(s, n, p, m, draw, j, addr); }
  }

  lemma GotInside(s: State, j: nat, addr: nat, k: nat, i: nat)
    requires GotBy(s, j, addr, k, i)
    ensures k < |s.motes| && i < |s.motes[k].incoming| && (addr == BROADCAST || addr == k)
    ensures HeardFrom(s.motes[k].incoming, j)
  {
    assert s.motes[k].incoming[i].from == j;
  }

  lemma ArriveSending(s: State, n: nat, p: Packet, m: nat, draw: Draw, k: nat)
    requires m < |s.motes| && k < |s.motes|
    ensures var t := Arrive(s, n, p, m, draw);
            && |t.motes| == |s.motes| && OnTheAir(t.motes[k]) == OnTheAir(s.motes[k])
            && (OnTheAir(s.motes[k]) ==>
                  && var (a, b) := (s.motes[k].sending.value, t.motes[k].sending.value);
                     && a.packet == b.packet
                     && (b.ack <==> a.ack && !(!Free(s.motes[m]) && HeardFrom(s.motes[m].incoming, k)
                                               && a.packet.addr == m)))
  {
    hide HeardFrom, ArrivalEvent, AirTime, Free;
  }

  lemma ArriveAckAt(s: State, n: nat, p: Packet, m: nat, draw: Draw, k: nat)
    requires m < |s.motes| <= BROADCAST && n < |s.motes| && s.motes[n].pending.None? && k < |s.motes|
    requires AckLawAt(s, k) && ListsInv(s)
    ensures k < |Arrive(s, n, p, m, draw).motes| && AckLawAt(Arrive(s, n, p, m, draw), k)
  {
    ArriveSending(s, n, p, m, draw, k);
    hide Arrive, ListsInv, GotBy, HeardFrom;
    if OnTheAir(s.motes[k]) {
      var addr := s.motes[k].sending.value.packet.addr;
      ArriveGot(s, n, p, m, draw, k, addr);
      if addr == m && Got(s, k, addr) {
        var x: nat, i: nat :| GotBy(s, k, addr, x, i);
        GotInside(s, k, addr, x, i);
        FreeIsEmpty(s.motes[m]);
      }
    }
  }

  lemma ArriveAckLaw(s: State, n: nat, p: Packet, m: nat, draw: Draw)
    requires m < |s.motes| <= BROADCAST && n < |s.motes| && s.motes[n].pending.None?
    requires AckLaw(s) && ListsInv(s)
    ensures AckLaw(Arrive(s, n, p, m, draw))
  {
    hide Arrive, ListsInv, AckLawAt;
    var t := Arrive(s, n, p, m, draw);
    ArriveLength(s, n, p, m, draw, n);
    forall k | 0 <= k < |t.motes| ensures AckLawAt(t, k) {
      ArriveAckAt(s, n, p, m, draw, k);
    }
  }

  // ---- all links -----------------------------------------------------------------------------

  /** What holds of the state throughout the handling of n's start event. */
  ghost predicate Arriving(s: State, n: nat) {
    && n < |s.motes| && s.motes[n].pending.None? && QueueInv(s) && StateInv(s, n)
    && EntriesInv(s) && AckLaw(s)
  }

  lemma ArriveAgain(s: State, n: nat, p: Packet, m: nat, draw: Draw)
    requires m < |s.motes| <= BROADCAST && Arriving(s, n)
    ensures Arriving(Arrive(s, n, p, m, draw), n)
  {
    hide Arrive, QueueInv, ChainsInv, ListsInv, AirInv, DeliveriesInv, OwnInv, EndsInv, EntriesInv, AckLaw, Got;
    ArriveKeeps(s, n, p, m, draw);
    ArriveEntries(s, n, p, m, draw);
    ArriveAckLaw(s, n, p, m, draw);
    ArriveAside(s, n, p, m, draw, n);
  }

  /** The flag tells whether the packet was got. */
  lemma {:induction false} ArriveAllGot(s: State, n: nat, p: Packet, ms: seq<nat>, draws: seq<Draw>)
    requires |draws| == |ms| && (ms != [] ==> |s.motes| <= BROADCAST)
    requires Arriving(s, n) && forall i | 0 <= i < |ms| :: ms[i] < |s.motes|
    ensures var (t, ack) := ArriveAll(s, n, p, ms, draws);
            && Arriving(t, n)
            && (!Got(s, n, p.addr) ==> (ack <==> Got(t, n, p.addr)))
  {
    if ms != [] {
      var k := |ms| - 1;
      ArriveAllGot(s, n, p, ms[..k], draws[..k]);
      var s1 := ArriveAll(s, n, p, ms[..k], draws[..k]).0;
      assert ListsInv(s1);
      hide Arrive, Arriving, Got, ListsInv;
      ArriveAgain(s1, n, p, ms[k], draws[k]);
      ArriveGot(s1, n, p, ms[k], draws[k], n, p.addr);
    }
  }

  lemma NobodyGot(s: State, n: nat)
    requires NoneFrom(s, n)
    ensures forall addr :: !Got(s, n, addr)
  {
    forall addr: nat, m: nat, i: nat ensures !GotBy(s, n, addr, m, i) { }
  }

  // ---- the steps -------------------------------------------------------------------------------

  ghost predicate LawInv(s: State) { EntriesInv(s) && AckLaw(s) }

  lemma StartLaws(links: Links, s: State, e: Event, draws: seq<Draw>)
    requires CanStart(links, s, e, draws) && QueueInv(s) && StateInv(s, -1) && LawInv(s)
    requires e in s.queue && e.time == s.now && e.kind.Start?
    ensures LawInv(StartStep(links, s, e, draws))
  {
    hide QueueInv, StateInv, LawInv, StartStep, Started, Got, ArriveAll, Arriving, NoneFrom;
    var n := e.mote;
    StartBegins(s, e);
    StartUnfolds(links, s, e, draws);
    var p, u := s.motes[n].sending.value.packet, Started(s, e);
    NobodyGot(u, n);
    BegunLaws(s, e);
    ReachLimit(links, n);
    ArriveAllGot(u, n, p, links[n], draws);
    var (v, ack) := ArriveAll(u, n, p, links[n], draws);
    OnAirLaws(v, n, Outgoing(p, ack), e.time + AirTime(p) - 1);
  }

  lemma ReachLimit(links: Links, n: nat)
    requires WellFormed(links) && n < |links|
    ensures links[n] != [] ==> |links| <= BROADCAST
  {
    if links[n] != [] { assert links[n][0] < |links|; }
  }

  lemma BegunLaws(s: State, e: Event)
    requires LawInv(s) && e.mote < |s.motes|
    requires QueueInv(Started(s, e)) && StateInv(Started(s, e), e.mote)
    ensures Arriving(Started(s, e), e.mote)
  {
    hide QueueInv, StateInv, EntryInv, Got;
    var t := Started(s, e);
    SameLists(s, t);
    forall k | 0 <= k < |t.motes| ensures AckLawAt(t, k) { assert AckLawAt(s, k); }
  }

  /** Whether a packet was got is told by the lists and the record of the air alone. */
  lemma SameLists(s: State, t: State)
    requires |t.motes| == |s.motes| && t.air == s.air
    requires forall k | 0 <= k < |s.motes| :: t.motes[k].incoming == s.motes[k].incoming
    ensures EntriesInv(s) ==> EntriesInv(t)
    ensures forall n, addr :: Got(t, n, addr) == Got(s, n, addr)
  {
    hide EntryInv, OnlySince;
    forall n, addr ensures Got(t, n, addr) == Got(s, n, addr) {
      if Got(s, n, addr) { var m: nat, i: nat :| GotBy(s, n, addr, m, i); assert GotBy(t, n, addr, m, i); }
      if Got(t, n, addr) { var m: nat, i: nat :| GotBy(t, n, addr, m, i); assert GotBy(s, n, addr, m, i); }
    }
  }

  lemma OnAirLaws(s: State, n: nat, out: Outgoing, end: int)
    requires Arriving(s, n) && (out.ack <==> Got(s, n, out.packet.addr))
    ensures var f := Event(n, end, Done);
            LawInv(SetMote(s, n, s.motes[n].(sending := Some(out), pending := Some(f))).(queue := s.queue + {f}))
  {
    hide QueueInv, StateInv, EntryInv, Got;
    var f := Event(n, end, Done);
    var t := SetMote(s, n, s.motes[n].(sending := Some(out), pending := Some(f))).(queue := s.queue + {f});
    SameLists(s, t);
    forall k | 0 <= k < |t.motes| ensures AckLawAt(t, k) { assert AckLawAt(s, k); }
  }

  /** Steps of the transmit chain that put nothing on the air. */
  lemma ChainLaws(s: State, t: State, n: nat)
    requires LawInv(s) && n < |s.motes| == |t.motes| && t.air == s.air
    requires t.motes[n].incoming == s.motes[n].incoming
    requires t.motes[n].pending != s.motes[n].pending || t.motes[n].sending != s.motes[n].sending ==>
               !OnTheAir(t.motes[n])
    requires forall k | 0 <= k < |s.motes| && k != n :: t.motes[k] == s.motes[k]
    ensures LawInv(t)
  {
    hide EntryInv, Got;
    SameLists(s, t);
    forall k | 0 <= k < |t.motes| ensures AckLawAt(t, k) { assert AckLawAt(s, k); }
  }

  lemma ArrivalLaws(s: State, e: Event)
    requires QueueInv(s) && StateInv(s, -1) && LawInv(s) && e in s.queue && e.time == s.now && !e.IsChain()
    requires HasEntry(s, e)
    ensures LawInv(ArrivalStep(s, e))
  {
    hide QueueInv, StateInv, Find, Without, EntryInv, Got, GotBy;
    var t := ArrivalStep(s, e);
    var k := InOrder(s, e);
    RemovedLaws(s, t, e.mote, k);
    forall n | 0 <= n < |t.motes| ensures AckLawAt(t, n) {
      assert AckLawAt(s, n) && t.motes[n] == s.motes[n].(incoming := t.motes[n].incoming);
      if OnTheAir(t.motes[n]) {
        if s.motes[e.mote].incoming[k].from == n { EndsAfterDone(s, n, e.mote, k); }
        StillGot(s, t, e.mote, k, n, s.motes[n].sending.value.packet.addr);
      }
    }
  }

  ghost predicate Removed(s: State, t: State, m: nat, k: nat) {
    && |t.motes| == |s.motes| && t.air == s.air && m < |s.motes| && k < |s.motes[m].incoming|
    && t.motes[m].incoming == s.motes[m].incoming[..k] + s.motes[m].incoming[k + 1..]
    && forall j | 0 <= j < |s.motes| && j != m :: t.motes[j] == s.motes[j]
  }

  lemma RemovedLaws(s: State, t: State, m: nat, k: nat)
    requires Removed(s, t, m, k) && EntriesInv(s)
    ensures EntriesInv(t)
  {
    hide EntryInv;
    forall j, i | 0 <= j < |t.motes| && 0 <= i < |t.motes[j].incoming|
      ensures EntryInv(t.air, j, t.motes[j].incoming[i])
    {
      if j == m {
        assert t.motes[j].incoming[i] == s.motes[j].incoming[if i < k then i else i + 1];
      }
    }
  }

  lemma StillGot(s: State, t: State, m: nat, k: nat, n: nat, addr: nat)
    requires Removed(s, t, m, k) && s.motes[m].incoming[k].from != n
    ensures Got(t, n, addr) == Got(s, n, addr)
  {
    hide OnlySince;
    if Got(s, n, addr) {
      var j: nat, i: nat :| GotBy(s, n, addr, j, i);
      assert GotBy(t, n, addr, j, if j == m && i > k then i - 1 else i);
    }
    if Got(t, n, addr) {
      var j: nat, i: nat :| GotBy(t, n, addr, j, i);
      assert GotBy(s, n, addr, j, if j == m && i >= k then i + 1 else i);
    }
  }

  lemma StepLaws(links: Links, s: State, step: Step)
    requires WellFormed(links) && Inv(links, s) && Enabled(links, s, step) && LawInv(s)
    ensures LawInv(Apply(links, s, step))
  {
    StepDue(links, s, step);
    hide Enabled, Inv, LawInv;
    var u := s.(now := StepTime(step));
    if s.motes != [] { LaterLaws(s, u); }
    match step
    case Transmit(n, t, r) => RequestLaws(u, n, r);
    case HandleBackoff(e, b) => BackoffLaws(links, u, e, b);
    case HandleStart(e, draws) => StartedLaws(links, u, e, draws);
    case HandleDone(e, again) => DoneLaws(links, u, e, again);
    case HandleReceive(e) => ArrivedLaws(links, u, e);
    case HandleNoise(e) => ArrivedLaws(links, u, e);
    case Switch(n, t, on) => ChainLaws(u, SetMote(u, n, u.motes[n].(on := on)), n);
  }

  lemma LaterLaws(s: State, u: State)
    requires LawInv(s) && u == s.(now := u.now) && |s.motes| > 0
    ensures LawInv(u)
  {
    ChainLaws(s, u, 0);
  }

  lemma RequestLaws(s: State, n: nat, r: Request)
    requires LawInv(s) && n < |s.motes|
    ensures LawInv(RequestStep(s, n, r))
  {
    hide LawInv;
    ChainLaws(s, RequestStep(s, n, r), n);
  }

  lemma BackoffLaws(links: Links, s: State, e: Event, b: nat)
    requires Inv(links, s) && LawInv(s) && Due(s, HandleBackoff(e, b))
    ensures e.mote < |s.motes| && LawInv(BackoffStep(s, e, b))
  {
    Handles(links, s, e);
    hide LawInv, Inv;
    ChainLaws(s, BackoffStep(s, e, b), e.mote);
  }

  lemma DoneLaws(links: Links, s: State, e: Event, again: Option<Request>)
    requires Inv(links, s) && LawInv(s) && Due(s, HandleDone(e, again))
    ensures e.mote < |s.motes| && LawInv(DoneStep(s, e, again))
  {
    Handles(links, s, e);
    hide LawInv, Inv;
    ChainLaws(s, DoneStep(s, e, again), e.mote);
  }

  lemma StartedLaws(links: Links, s: State, e: Event, draws: seq<Draw>)
    requires WellFormed(links) && Inv(links, s) && LawInv(s) && Due(s, HandleStart(e, draws))
    requires e.mote < |links| && |draws| == |links[e.mote]|
    ensures CanStart(links, s, e, draws) && LawInv(StartStep(links, s, e, draws))
  {
    hide LawInv, StartStep, QueueInv, StateInv, AcksInv;
    Handles(links, s, e);
    StartLaws(links, s, e, draws);
  }

  lemma ArrivedLaws(links: Links, s: State, e: Event)
    requires Inv(links, s) && LawInv(s) && e in s.queue && e.time == s.now && !e.IsChain()
    ensures HasEntry(s, e) && LawInv(ArrivalStep(s, e))
  {
    hide LawInv, ArrivalStep, QueueInv, StateInv, AcksInv;
    HasItsEntry(links, s, e);
    ArrivalLaws(s, e);
  }

  lemma {:induction false} RunLaws(links: Links, steps: seq<Step>, s: State)
    requires Reaches(links, steps, s)
    ensures LawInv(s)
    decreases |steps|
  {
    if steps != [] {
      hide Inv, Enabled, Apply, LawInv;
      var front, step := steps[..|steps| - 1], steps[|steps| - 1];
      var u :| Reaches(links, front, u) && Enabled(links, u, step) && s == Apply(links, u, step);
      RunLaws(links, front, u);
      RunKeeps(links, front, u);
      StepLaws(links, u, step);
    }
  }

  // ---- the laws ----------------------------------------------------------------------------------

  /** In every run and every topology, when a packet is done it is acknowledged if and only if some
      mote, switched on when the packet began, holds a copy that it will be delivered and
      that was not lost on its link; and if the packet is not for everybody, that mote is
      the one it is for, and nothing of any other mote's has come there since. */
  lemma AcknowledgedIff(links: Links, steps: seq<Step>, s: State, e: Event, again: Option<Request>)
    requires Reaches(links, steps, s) && Enabled(links, s, HandleDone(e, again))
    ensures e.mote < |s.motes| && s.motes[e.mote].sending.Some?
    ensures var (out, n) := (s.motes[e.mote].sending.value, e.mote);
            out.ack <==>
              exists m, i | 0 <= m < |s.motes| && 0 <= i < |s.motes[m].incoming| ::
                Acknowledges(s, n, out.packet.addr, m, s.motes[m].incoming[i])
  {
    RunKeeps(links, steps, s);
    RunLaws(links, steps, s);
    Handles(links, s, e);
    hide Inv, Reaches, EntriesInv, Enabled, Got, Acknowledges;
    assert e.kind.Done? by { DoneKind(links, s, e, again); }
    assert OnTheAir(s.motes[e.mote]) && AckLawAt(s, e.mote);
    GotMeans(s, e.mote, s.motes[e.mote].sending.value.packet.addr);
  }

  ghost predicate Acknowledges(s: State, n: nat, addr: nat, m: nat, c: Copy) {
    && c.from == n && c.deliver && c.id < |s.air| && !s.air[c.id].lost && s.air[c.id].on
    && (addr == 0xFFFF || (addr == m && forall id | c.id < id < |s.air| && s.air[id].to == m :: s.air[id].from == n))
  }

  lemma GotMeans(s: State, n: nat, addr: nat)
    ensures Got(s, n, addr) <==>
              exists m, i | 0 <= m < |s.motes| && 0 <= i < |s.motes[m].incoming| ::
                Acknowledges(s, n, addr, m, s.motes[m].incoming[i])
  {
    forall m: nat, i: nat | m < |s.motes| && i < |s.motes[m].incoming|
      ensures GotBy(s, n, addr, m, i) <==> Acknowledges(s, n, addr, m, s.motes[m].incoming[i])
    {
    }
    hide Acknowledges;
    if m: nat, i: nat :| GotBy(s, n, addr, m, i) { GotInside(s, n, addr, m, i); }
    hide GotBy;
    if m: nat, i: nat :| m < |s.motes| && i < |s.motes[m].incoming|
                         && Acknowledges(s, n, addr, m, s.motes[m].incoming[i]) {
      assert GotBy(s, n, addr, m, i);
    }
  }

  /** In every run an entry will be delivered only if its mote was switched on and not
      transmitting when it began, and everything earlier on the air to that mote was over;
      and where one will not be, the mote was off or transmitting, or something earlier
      was not over before it began. */
  lemma DetectedIff(links: Links, steps: seq<Step>, s: State, m: nat, i: nat)
    requires Reaches(links, steps, s) && m < |s.motes| && i < |s.motes[m].incoming|
    ensures var c := s.motes[m].incoming[i];
            && c.id < |s.air|
            && var r := s.air[c.id];
               && r.to == m && r.from == c.from && r.start == c.start && r.end == c.end
               && (c.deliver ==> r.on && !r.sending
                                 && forall id | 0 <= id < c.id && s.air[id].to == m :: s.air[id].end <= c.start)
               && (!c.deliver ==> !r.on || r.sending
                                  || exists id | 0 <= id < c.id :: s.air[id].to == m && s.air[id].end >= c.start)
  {
    RunKeeps(links, steps, s);
    RunLaws(links, steps, s);
    hide Reaches;
    assert ListInv(s.air, m, s.motes[m], s.now);
    assert EntryInv(s.air, m, s.motes[m].incoming[i]);
    var c := s.motes[m].incoming[i];
    if !c.deliver && s.air[c.id].on && !s.air[c.id].sending {
      var id :| 0 <= id < c.id && id < |s.air| && s.air[id].to == m && s.air[id].end >= c.start;
    }
  }

  // ---- whom a packet reaches -----------------------------------------------------------------------

  /** Does the i-th mote of the list detect a packet that starts in state s? */
  predicate Detects(s: State, ms: seq<nat>, i: nat) {
    && i < |ms| && ms[i] < |s.motes|
    && var m := s.motes[ms[i]];
       m.incoming == [] && m.on && m.tx != TxTrans && ms[i] !in ms[..i]
  }

  /** The packet is on the air on the i-th link, its copy in the list of that link's mote. */
  ghost predicate OnLink(s: State, t: State, n: nat, p: Packet, ms: seq<nat>, draws: seq<Draw>, i: nat) {
    && i < |ms| && i < |draws| && ms[i] < |s.motes| && ms[i] < |t.motes| && |s.air| + i < |t.air|
    && var (r, m) := (t.air[|s.air| + i], s.motes[ms[i]]);
       && r == Air(n, ms[i], p, r.lost, s.now, s.now + (13 + p.length) * 1664, m.on, m.tx == TxTrans)
       && (r.lost <==> Detects(s, ms, i) && draws[i].lost)
       && HasCopy(t.motes[ms[i]].incoming, |s.air| + i, n, Detects(s, ms, i))
  }

  ghost predicate HasCopy(cs: seq<Copy>, id: nat, n: nat, deliver: bool) {
    exists k | 0 <= k < |cs| :: cs[k].id == id && cs[k].from == n && cs[k].deliver == deliver
  }

  lemma {:induction false} ArriveAllGrows(s: State, n: nat, p: Packet, ms: seq<nat>, draws: seq<Draw>, m: nat)
    requires |draws| == |ms| && m < |s.motes| && forall i | 0 <= i < |ms| :: ms[i] < |s.motes|
    ensures var t := ArriveAll(s, n, p, ms, draws).0;
            && |t.motes| == |s.motes| && |t.air| == |s.air| + |ms|
            && (t.motes[m].incoming == [] <==> s.motes[m].incoming == [] && m !in ms)
  {
    if ms != [] {
      var k := |ms| - 1;
      ArriveAllGrows(s, n, p, ms[..k], draws[..k], m);
      hide Arrive, Acks;
      var s1 := ArriveAll(s, n, p, ms[..k], draws[..k]).0;
      ArriveLength(s1, n, p, ms[k], draws[k], m);
      ArriveRecord(s1, n, p, ms[k], draws[k]);
      assert m in ms <==> m in ms[..k] || m == ms[k];
    }
  }

  lemma LinkStays(s: State, s1: State, n: nat, p: Packet, ms: seq<nat>, draws: seq<Draw>, i: nat)
    requires |draws| == |ms| && ms != [] && ms[|ms| - 1] < |s1.motes|
    requires OnLink(s, s1, n, p, ms[..|ms| - 1], draws[..|ms| - 1], i)
    ensures OnLink(s, Arrive(s1, n, p, ms[|ms| - 1], draws[|ms| - 1]), n, p, ms, draws, i)
  {
    var k := |ms| - 1;
    var t := Arrive(s1, n, p, ms[k], draws[k]);
    var cs := s1.motes[ms[i]].incoming;
    var j :| 0 <= j < |cs| && cs[j].id == |s.air| + i && cs[j].from == n
             && cs[j].deliver == Detects(s, ms[..k], i);
    ArriveStays(s1, n, p, ms[k], draws[k], ms[i], j);
    ArriveRecord(s1, n, p, ms[k], draws[k]);
    hide Arrive;
    assert ms[..k][..i] == ms[..i];
    assert t.air[..|s1.air|][|s.air| + i] == t.air[|s.air| + i];
  }

  lemma LastLink(s: State, n: nat, p: Packet, ms: seq<nat>, draws: seq<Draw>)
    requires |draws| == |ms| && ms != [] && forall i | 0 <= i < |ms| :: ms[i] < |s.motes|
    ensures OnLink(s, ArriveAll(s, n, p, ms, draws).0, n, p, ms, draws, |ms| - 1)
  {
    var k := |ms| - 1;
    var m := ms[k];
    var s1 := ArriveAll(s, n, p, ms[..k], draws[..k]).0;
    ArriveAllGrows(s, n, p, ms[..k], draws[..k], m);
    ArriveAllAside(s, n, p, ms[..k], draws[..k], m);
    ArriveRecord(s1, n, p, m, draws[k]);
    ArriveLast(s1, n, p, m, draws[k]);
    hide Arrive, Acks;
  }

  lemma {:induction false} ArriveAllLinks(s: State, n: nat, p: Packet, ms: seq<nat>, draws: seq<Draw>)
    requires |draws| == |ms| && forall i | 0 <= i < |ms| :: ms[i] < |s.motes|
    ensures var t := ArriveAll(s, n, p, ms, draws).0;
            && |t.air| == |s.air| + |ms| && t.air[..|s.air|] == s.air
            && forall i: nat | i < |ms| :: OnLink(s, t, n, p, ms, draws, i)
  {
    hide OnLink;
    if ms != [] {
      var k := |ms| - 1;
      ArriveAllLinks(s, n, p, ms[..k], draws[..k]);
      LastLink(s, n, p, ms, draws);
      hide Arrive, Acks;
      var s1 := ArriveAll(s, n, p, ms[..k], draws[..k]).0;
      ArriveRecord(s1, n, p, ms[k], draws[k]);
      forall i: nat | i < k ensures OnLink(s, ArriveAll(s, n, p, ms, draws).0, n, p, ms, draws, i) {
        LinkStays(s, s1, n, p, ms, draws, i);
      }
    }
  }

  /** The list of the i-th mote after the packet came there, if it does not come again. */
  ghost predicate Junked(s: State, t: State, p: Packet, ms: seq<nat>, draws: seq<Draw>, i: nat) {
    && i < |ms| && i < |draws| && ms[i] < |t.motes| && t.motes[ms[i]].incoming != []
    && var (cs, last) := (t.motes[ms[i]].incoming, |t.motes[ms[i]].incoming| - 1);
       var lost := Detects(s, ms, i) && draws[i].lost;
       && (forall j | 0 <= j < last :: cs[j].packet == draws[i].junk(j) && !cs[j].crc)
       && cs[last].packet == (if lost then draws[i].junk(0) else p) && cs[last].crc == !lost
  }

  lemma ArriveJunks(s: State, n: nat, p: Packet, m: nat, draw: Draw)
    requires m < |s.motes|
    ensures var (t, mote) := (Arrive(s, n, p, m, draw), s.motes[m]);
            var (k, ds) := (|mote.incoming|, t.motes[m].incoming);
            var lost := mote.incoming == [] && mote.on && mote.tx != TxTrans && draw.lost;
            && |ds| == k + 1 && (forall j | 0 <= j < k :: ds[j].packet == draw.junk(j) && !ds[j].crc)
            && ds[k].packet == (if lost then draw.junk(0) else p) && ds[k].crc == !lost
  {
    hide HeardFrom, ArrivalEvent, AirTime;
  }

  lemma ArriveElsewhere(s: State, n: nat, p: Packet, m: nat, draw: Draw, k: nat)
    requires m < |s.motes| && k < |s.motes| && k != m
    ensures k < |Arrive(s, n, p, m, draw).motes|
    ensures Arrive(s, n, p, m, draw).motes[k].incoming == s.motes[k].incoming
  {
    hide HeardFrom, ArrivalEvent, AirTime;
  }

  lemma LastJunks(s: State, n: nat, p: Packet, ms: seq<nat>, draws: seq<Draw>)
    requires |draws| == |ms| && ms != [] && forall i | 0 <= i < |ms| :: ms[i] < |s.motes|
    ensures Junked(s, ArriveAll(s, n, p, ms, draws).0, p, ms, draws, |ms| - 1)
  {
    var k := |ms| - 1;
    var m := ms[k];
    var s1 := ArriveAll(s, n, p, ms[..k], draws[..k]).0;
    ArriveAllGrows(s, n, p, ms[..k], draws[..k], m);
    ArriveAllAside(s, n, p, ms[..k], draws[..k], m);
    ArriveJunks(s1, n, p, m, draws[k]);
    hide Arrive, Acks;
  }

  lemma JunkStays(s: State, s1: State, n: nat, p: Packet, ms: seq<nat>, draws: seq<Draw>, i: nat)
    requires |draws| == |ms| && i < |ms| - 1 && ms[|ms| - 1] < |s1.motes| && ms[i] !in ms[i + 1..]
    requires Junked(s, s1, p, ms[..|ms| - 1], draws[..|ms| - 1], i)
    ensures Junked(s, Arrive(s1, n, p, ms[|ms| - 1], draws[|ms| - 1]), p, ms, draws, i)
  {
    var k := |ms| - 1;
    assert ms[k] in ms[i + 1..];
    ArriveElsewhere(s1, n, p, ms[k], draws[k], ms[i]);
    hide Arrive;
    assert ms[..k][..i] == ms[..i];
  }

  lemma {:induction false} ArriveAllJunks(s: State, n: nat, p: Packet, ms: seq<nat>, draws: seq<Draw>, i: nat)
    requires |draws| == |ms| && i < |ms| && ms[i] !in ms[i + 1..] && forall j | 0 <= j < |ms| :: ms[j] < |s.motes|
    ensures Junked(s, ArriveAll(s, n, p, ms, draws).0, p, ms, draws, i)
  {
    hide Junked, Arrive, Acks;
    var k := |ms| - 1;
    if i == k {
      LastJunks(s, n, p, ms, draws);
    } else {
      assert ms[..k][i + 1..] == ms[i + 1..][..k - i - 1];
      ArriveAllJunks(s, n, p, ms[..k], draws[..k], i);
      var s1 := ArriveAll(s, n, p, ms[..k], draws[..k]).0;
      ArriveAllGrows(s, n, p, ms[..k], draws[..k], ms[k]);
      JunkStays(s, s1, n, p, ms, draws, i);
    }
  }

  lemma StartJunked(links: Links, s: State, e: Event, draws: seq<Draw>, i: nat)
    requires CanStart(links, s, e, draws) && e.time == s.now
    requires i < |links[e.mote]| && links[e.mote][i] !in links[e.mote][i + 1..]
    ensures Junked(s, StartStep(links, s, e, draws), s.motes[e.mote].sending.value.packet, links[e.mote], draws, i)
  {
    hide ArriveAll, StartStep;
    var n := e.mote;
    var p, u := s.motes[n].sending.value.packet, Started(s, e);
    StartUnfolds(links, s, e, draws);
    ArriveAllJunks(u, n, p, links[n], draws, i);
  }

  /** In every run a start event leaves each mote that hears the packet, if it does so once, with
      nothing but junk before the packet, each entry with a draw of its own; the packet itself
      is what was sent, unless the mote detects it and it is lost: then it is junk too. */
  lemma StartCorrupts(links: Links, steps: seq<Step>, s: State, e: Event, draws: seq<Draw>, i: nat)
    requires Reaches(links, steps, s) && Enabled(links, s, HandleStart(e, draws))
    requires i < |links[e.mote]| && links[e.mote][i] !in links[e.mote][i + 1..]
    ensures e.mote < |s.motes| && s.motes[e.mote].sending.Some?
    ensures Junked(s, Apply(links, s, HandleStart(e, draws)), s.motes[e.mote].sending.value.packet,
                   links[e.mote], draws, i)
  {
    RunKeeps(links, steps, s);
    Handles(links, s, e);
    StepDue(links, s, HandleStart(e, draws));
    hide Inv, Reaches, Enabled, StartStep, Junked;
    var u := s.(now := e.time);
    StartJunked(links, u, e, draws, i);
    SameDetects(s, u, links[e.mote], i);
    assert Junked(u, StartStep(links, u, e, draws), u.motes[e.mote].sending.value.packet, links[e.mote], draws, i);
    JunkedLater(s, u, StartStep(links, u, e, draws), s.motes[e.mote].sending.value.packet, links[e.mote], draws, i);
  }

  lemma SameDetects(s: State, u: State, ms: seq<nat>, i: nat)
    requires u.motes == s.motes
    ensures Detects(u, ms, i) == Detects(s, ms, i)
  {
  }

  lemma JunkedLater(s: State, u: State, t: State, p: Packet, ms: seq<nat>, draws: seq<Draw>, i: nat)
    requires Junked(u, t, p, ms, draws, i) && Detects(u, ms, i) == Detects(s, ms, i)
    ensures Junked(s, t, p, ms, draws, i)
  {
  }

  /** In every run a start event puts the packet on the air once for each link of its mote and
      enters a copy with each mote that hears it, to be delivered exactly if that mote was on, was
      not transmitting and had nothing coming in; the draw decides the loss of those alone. */
  lemma StartReachesAll(links: Links, steps: seq<Step>, s: State, e: Event, draws: seq<Draw>)
    requires Reaches(links, steps, s) && Enabled(links, s, HandleStart(e, draws))
    ensures var t := Apply(links, s, HandleStart(e, draws));
            && e.mote < |links| == |s.motes| && s.motes[e.mote].sending.Some?
            && var (p, ms) := (s.motes[e.mote].sending.value.packet, links[e.mote]);
            && |t.motes| == |links| && |draws| == |ms| && |t.air| == |s.air| + |ms| && t.air[..|s.air|] == s.air
            && forall i: nat | i < |ms| :: OnLink(s.(now := e.time), t, e.mote, p, ms, draws, i)
  {
    RunKeeps(links, steps, s);
    Handles(links, s, e);
    StepDue(links, s, HandleStart(e, draws));
    hide Inv, Reaches, Enabled, StartStep, OnLink;
    StartLinks(links, s.(now := e.time), e, draws);
  }

  lemma StartLinks(links: Links, s: State, e: Event, draws: seq<Draw>)
    requires CanStart(links, s, e, draws) && e.time == s.now
    ensures var (t, p, ms) := (StartStep(links, s, e, draws), s.motes[e.mote].sending.value.packet, links[e.mote]);
            && |t.motes| == |s.motes| && |t.air| == |s.air| + |ms| && t.air[..|s.air|] == s.air
            && forall i: nat | i < |ms| :: OnLink(s, t, e.mote, p, ms, draws, i)
  {
    hide ArriveAll, OnLink, StartStep;
    var n := e.mote;
    var p, u := s.motes[n].sending.value.packet, Started(s, e);
    StartUnfolds(links, s, e, draws);
    ArriveAllLinks(u, n, p, links[n], draws);
    var v, t := ArriveAll(u, n, p, links[n], draws).0, StartStep(links, s, e, draws);
    forall i: nat | i < |links[n]| ensures OnLink(s, t, n, p, links[n], draws, i) {
      SameLink(u, v, s, t, n, p, links[n], draws, i);
    }
  }

  lemma SameLink(u: State, v: State, s: State, t: State, n: nat, p: Packet, ms: seq<nat>, draws: seq<Draw>, i: nat)
    requires OnLink(u, v, n, p, ms, draws, i) && s.air == u.air && t.air == v.air && s.now == u.now
    requires |s.motes| == |u.motes| && |t.motes| == |v.motes|
    requires forall k | 0 <= k < |s.motes| ::
               && s.motes[k].incoming == u.motes[k].incoming
               && s.motes[k].on == u.motes[k].on && s.motes[k].tx == u.motes[k].tx
    requires forall k | 0 <= k < |t.motes| :: t.motes[k].incoming == v.motes[k].incoming
    ensures OnLink(s, t, n, p, ms, draws, i)
  {
  }

  // ---- receptions ----------------------------------------------------------------------------------

  /** Is mote m on after the steps?  All are on from the beginning. */
  predicate SwitchedOn(steps: seq<Step>, m: nat) {
    if steps == [] then true
    else
      var front, step := steps[..|steps| - 1], steps[|steps| - 1];
      if step.Switch? && step.mote == m then step.on else SwitchedOn(front, m)
  }

  lemma StepSwitches(links: Links, s: State, step: Step, m: nat)
    requires WellFormed(links) && Inv(links, s) && Enabled(links, s, step) && m < |links|
    ensures var t := Apply(links, s, step);
            && |t.motes| == |s.motes| == |links|
            && (t.motes[m].on <==> if step.Switch? && step.mote == m then step.on else s.motes[m].on)
  {
    StepDue(links, s, step);
    assert |s.motes| == |links| by { InvParts(links, s); }
    hide Enabled, Inv, StartStep, ArrivalStep, DoneStep, BackoffStep, RequestStep;
    var u := s.(now := StepTime(step));
    match step
    case HandleBackoff(e, b) =>
      Handles(links, u, e);
      BackoffSwitches(u, e, b, m);
    case HandleStart(e, draws) =>
      Handles(links, u, e);
      StartAside(links, u, e, draws, m);
    case HandleDone(e, again) =>
      Handles(links, u, e);
      DoneSwitches(u, e, again, m);
    case HandleReceive(e) =>
      HasItsEntry(links, u, e);
      ArrivalAside(u, e, m);
    case HandleNoise(e) =>
      HasItsEntry(links, u, e);
      ArrivalAside(u, e, m);
    case Transmit(n, t, r) => RequestSwitches(u, n, r, m);
    case Switch(n, t, on) =>
  }

  lemma BackoffSwitches(s: State, e: Event, b: nat, m: nat)
    requires e.mote < |s.motes| && m < |s.motes|
    ensures var t := BackoffStep(s, e, b); |t.motes| == |s.motes| && t.motes[m].on == s.motes[m].on
  {
  }

  lemma DoneSwitches(s: State, e: Event, again: Option<Request>, m: nat)
    requires e.mote < |s.motes| && m < |s.motes|
    ensures var t := DoneStep(s, e, again); |t.motes| == |s.motes| && t.motes[m].on == s.motes[m].on
  {
  }

  lemma RequestSwitches(s: State, n: nat, r: Request, m: nat)
    requires n < |s.motes| && m < |s.motes|
    ensures var t := RequestStep(s, n, r); |t.motes| == |s.motes| && t.motes[m].on == s.motes[m].on
  {
  }

  /** In every run a mote is on exactly if it was last switched on, or never switched. */
  lemma {:induction false} SwitchesLast(links: Links, steps: seq<Step>, s: State, m: nat)
    requires Reaches(links, steps, s) && m < |links|
    ensures m < |s.motes| && (s.motes[m].on <==> SwitchedOn(steps, m))
    decreases |steps|
  {
    if steps != [] {
      hide Inv, Enabled, Apply;
      var front, step := steps[..|steps| - 1], steps[|steps| - 1];
      var u :| Reaches(links, front, u) && Enabled(links, u, step) && s == Apply(links, u, step);
      SwitchesLast(links, front, u, m);
      RunKeeps(links, front, u);
      StepSwitches(links, u, step, m);
    }
  }

  /** In every run a reception or a noise event finds its entry and takes it from the list, and no
      other; the entry of a reception is the head, and it is delivered exactly if the
      mote is on by then. */
  lemma ReceptionsDeliver(links: Links, steps: seq<Step>, s: State, step: Step) returns (k: nat)
    requires Reaches(links, steps, s) && Enabled(links, s, step) && (step.HandleReceive? || step.HandleNoise?)
    ensures var (t, e, m) := (Apply(links, s, step), step.event, step.event.mote);
            && m < |links| == |s.motes| == |t.motes| && k < |s.motes[m].incoming|
            && var (cs, c) := (s.motes[m].incoming, s.motes[m].incoming[k]);
            && c.id == e.kind.id && c.end == e.time && (c.deliver <==> step.HandleReceive?)
            && (step.HandleReceive? ==> k == 0)
            && t.motes == s.motes[m := s.motes[m].(incoming := cs[..k] + cs[k + 1..])]
            && t.delivered ==
                 s.delivered + (if step.HandleReceive? && SwitchedOn(steps, m) then [Delivery(m, c)] else [])
  {
    RunKeeps(links, steps, s);
    StepDue(links, s, step);
    hide Reaches, SwitchedOn;
    var e := step.event;
    k := EntryOf(links, s.(now := e.time), e);
    SwitchesLast(links, steps, s, e.mote);
    hide Inv, Enabled, HasEntry, Find, Without, Apply;
    assert (e.kind.Receive? <==> step.HandleReceive?) by { KindOf(links, s, step); }
    Takes(links, s, step, k);
  }

  lemma KindOf(links: Links, s: State, step: Step)
    requires Enabled(links, s, step) && (step.HandleReceive? || step.HandleNoise?)
    ensures step.event.kind.Receive? <==> step.HandleReceive?
  {
  }

  lemma Takes(links: Links, s: State, step: Step, k: nat)
    requires step.HandleReceive? || step.HandleNoise?
    requires var e := step.event; HasEntry(s, e) && (e.kind.Receive? <==> step.HandleReceive?)
    requires var (e, cs) := (step.event, s.motes[step.event.mote].incoming);
             && k < |cs| && Find(cs, e.kind.id) == cs[k]
             && Without(cs, e.kind.id) == cs[..k] + cs[k + 1..]
    ensures var (t, m, cs) := (Apply(links, s, step), step.event.mote, s.motes[step.event.mote].incoming);
            && t.motes == s.motes[m := s.motes[m].(incoming := cs[..k] + cs[k + 1..])]
            && t.delivered == s.delivered + (if step.HandleReceive? && s.motes[m].on then [Delivery(m, cs[k])] else [])
  {
    hide Find, Without;
  }

  /** The entry of an arrival event. */
  lemma EntryOf(links: Links, s: State, e: Event) returns (k: nat)
    requires Inv(links, s) && e in s.queue && !e.IsChain()
    ensures e.mote < |s.motes| == |links| && HasEntry(s, e)
    ensures var cs := s.motes[e.mote].incoming;
            && k < |cs| && ArrivalEvent(e.mote, cs[k]) == e && (cs[k].deliver ==> k == 0)
            && Without(cs, e.kind.id) == cs[..k] + cs[k + 1..] && Find(cs, e.kind.id) == cs[k]
  {
    k := ArrivalEntry(s, e);
    hide QueueInv, Find, Without, OnAir, Alone, Detected;
    assert ListInv(s.air, e.mote, s.motes[e.mote], s.now);
  }
}
