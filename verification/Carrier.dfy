/** The bit-level radio models: how many bits are on the air to each mote.

    The lossy model keeps with each link the bit it carries; the static model keeps one bit
    per sender, and the simple model is the static one in which everybody hears everybody. */
module Carrier {

  /** `bit` is 0 or 1. */
  datatype Link = Link(mote: nat, loss: real, bit: int)

  /** For each mote its links, and the number of bits that it hears. */
  datatype State = State(links: seq<seq<Link>>, active: seq<int>)

  predicate WellFormed(links: seq<seq<Link>>) {
    forall n | 0 <= n < |links| :: GoodLinks(links[n], |links|)
  }

  predicate GoodLinks(ls: seq<Link>, motes: nat) {
    forall i | 0 <= i < |ls| :: ls[i].mote < motes && 0 <= ls[i].bit <= 1
  }

  /** The bits that these links carry to mote m. */
  function BitsTo(ls: seq<Link>, m: nat): int {
    if ls == [] then 0
    else BitsTo(ls[..|ls| - 1], m) + if ls[|ls| - 1].mote == m then ls[|ls| - 1].bit else 0
  }

  function Carried(links: seq<seq<Link>>, m: nat): int {
    if links == [] then 0 else Carried(links[..|links| - 1], m) + BitsTo(links[|links| - 1], m)
  }

  /** The counters tell what is on the air. */
  predicate Conserved(s: State) {
    && |s.active| == |s.links| && WellFormed(s.links)
    && forall m | 0 <= m < |s.active| :: s.active[m] == Carried(s.links, m)
  }

  predicate Silent(ls: seq<Link>) { forall i | 0 <= i < |ls| :: ls[i].bit == 0 }

  // ---- the steps ----------------------------------------------------------------------------------

  /** The links after a bit has been sent; a loss reverses it. */
  function Sent(ls: seq<Link>, bit: int, lost: seq<bool>): (r: seq<Link>)
    requires |lost| == |ls| && 0 <= bit <= 1
    ensures |r| == |ls| && forall i | 0 <= i < |r| :: r[i] == ls[i].(bit := if lost[i] then 1 - bit else bit)
  {
    seq(|ls|, i requires 0 <= i < |ls| => ls[i].(bit := if lost[i] then 1 - bit else bit))
  }

  function Stopped(ls: seq<Link>): (r: seq<Link>)
    ensures |r| == |ls| && forall i | 0 <= i < |r| :: r[i] == ls[i].(bit := 0)
  {
    seq(|ls|, i requires 0 <= i < |ls| => ls[i].(bit := 0))
  }

  function Plus(active: seq<int>, ls: seq<Link>, sign: int): (r: seq<int>)
    ensures |r| == |active| && forall m | 0 <= m < |r| :: r[m] == active[m] + sign * BitsTo(ls, m)
  {
    seq(|active|, m requires 0 <= m < |active| => active[m] + sign * BitsTo(ls, m))
  }

  /** lossy_transmit: what the links carried before is overwritten. */
  function Transmit(s: State, n: nat, bit: int, lost: seq<bool>): State
    requires n < |s.links| && |lost| == |s.links[n]| && 0 <= bit <= 1
  {
    var ls := Sent(s.links[n], bit, lost);
    State(s.links[n := ls], Plus(s.active, ls, 1))
  }

  /** lossy_stop_transmit. */
  function Stop(s: State, n: nat): State
    requires n < |s.links|
  {
    State(s.links[n := Stopped(s.links[n])], Plus(s.active, s.links[n], -1))
  }

  predicate HasLink(ls: seq<Link>, m: nat) { exists i | 0 <= i < |ls| :: ls[i].mote == m }

  /** The first link to m gets the loss. */
  function WithLoss(ls: seq<Link>, m: nat, loss: real): (r: seq<Link>) {
    if ls == [] then []
    else if ls[0].mote == m then [ls[0].(loss := loss)] + ls[1..]
    else [ls[0]] + WithLoss(ls[1..], m, loss)
  }

  /** set_link_prob_value: a new link is put in front, and it carries nothing. */
  function SetLoss(s: State, n: nat, m: nat, loss: real): State
    requires n < |s.links|
  {
    var ls := s.links[n];
    s.(links := s.links[n := if HasLink(ls, m) then WithLoss(ls, m, loss) else [Link(m, loss, 0)] + ls])
  }

  // ---- sums ---------------------------------------------------------------------------------------

  lemma {:induction false} CarriedUpdate(links: seq<seq<Link>>, n: nat, ls: seq<Link>, m: nat)
    requires n < |links|
    ensures Carried(links[n := ls], m) == Carried(links, m) - BitsTo(links[n], m) + BitsTo(ls, m)
  {
    var k := |links| - 1;
    if n < k {
      CarriedUpdate(links[..k], n, ls, m);
      assert links[n := ls][..k] == links[..k][n := ls];
    } else {
      assert links[n := ls][..k] == links[..k];
    }
  }

  lemma {:induction false} BitsNonNegative(ls: seq<Link>, m: nat)
    requires forall i | 0 <= i < |ls| :: 0 <= ls[i].bit <= 1
    ensures BitsTo(ls, m) >= 0
    ensures BitsTo(ls, m) > 0 <==> exists i | 0 <= i < |ls| :: ls[i].mote == m && ls[i].bit == 1
  {
    if ls != [] {
      var front := ls[..|ls| - 1];
      BitsNonNegative(front, m);
      if BitsTo(front, m) > 0 {
        var i :| 0 <= i < |front| && front[i].mote == m && front[i].bit == 1;
        assert ls[i].mote == m && ls[i].bit == 1;
      }
      if exists i :: 0 <= i < |ls| && ls[i].mote == m && ls[i].bit == 1 {
        var i :| 0 <= i < |ls| && ls[i].mote == m && ls[i].bit == 1;
        assert i < |front| ==> front[i].mote == m && front[i].bit == 1;
      }
    }
  }

  lemma {:induction false} CarriedNonNegative(links: seq<seq<Link>>, m: nat, motes: nat)
    requires forall n | 0 <= n < |links| :: GoodLinks(links[n], motes)
    ensures Carried(links, m) >= 0
    ensures Carried(links, m) > 0 <==>
            exists n, i | 0 <= n < |links| && 0 <= i < |links[n]| :: links[n][i].mote == m && links[n][i].bit == 1
  {
    if links != [] {
      var k := |links| - 1;
      CarriedNonNegative(links[..k], m, motes);
      BitsNonNegative(links[k], m);
      if Carried(links[..k], m) > 0 {
        var n, i :| 0 <= n < k && 0 <= i < |links[..k][n]| && links[..k][n][i].mote == m && links[..k][n][i].bit == 1;
        assert links[n][i].mote == m && links[n][i].bit == 1;
      }
      if exists n, i :: 0 <= n < |links| && 0 <= i < |links[n]| && links[n][i].mote == m && links[n][i].bit == 1 {
        var n, i :| 0 <= n < |links| && 0 <= i < |links[n]| && links[n][i].mote == m && links[n][i].bit == 1;
        assert n < k ==> links[..k][n][i].mote == m && links[..k][n][i].bit == 1;
      }
    }
  }

  lemma {:induction false} SilentSum(ls: seq<Link>, m: nat)
    requires Silent(ls)
    ensures BitsTo(ls, m) == 0
  {
    if ls != [] { SilentSum(ls[..|ls| - 1], m); }
  }

  // ---- conservation ---------------------------------------------------------------------------------

  /** A transmission keeps the counters right exactly if the sender's links carried nothing. */
  lemma TransmitConservesIff(s: State, n: nat, bit: int, lost: seq<bool>)
    requires Conserved(s) && n < |s.links| && |lost| == |s.links[n]| && 0 <= bit <= 1
    ensures Conserved(Transmit(s, n, bit, lost)) <==> Silent(s.links[n])
  {
    var ls, ms := s.links[n], Sent(s.links[n], bit, lost);
    var t := Transmit(s, n, bit, lost);
    forall m | 0 <= m < |s.active| ensures t.active[m] - Carried(t.links, m) == BitsTo(ls, m) {
      CarriedUpdate(s.links, n, ms, m);
    }
    assert GoodLinks(ls, |s.links|) && GoodLinks(ms, |s.links|);
    if Silent(ls) {
      forall m | 0 <= m < |s.active| ensures BitsTo(ls, m) == 0 { SilentSum(ls, m); }
    } else {
      var i :| 0 <= i < |ls| && ls[i].bit != 0;
      BitsNonNegative(ls, ls[i].mote);
      assert t.active[ls[i].mote] != Carried(t.links, ls[i].mote);
    }
  }

  /** What a mote hears of a transmission: a 1 that is not lost on a link to it, or a 0 that is;
      it is heard together with what others have on the air. */
  lemma HeardIff(s: State, n: nat, bit: int, lost: seq<bool>, m: nat)
    requires Conserved(s) && n < |s.links| && m < |s.links| && |lost| == |s.links[n]| && 0 <= bit <= 1
    requires Silent(s.links[n])
    ensures Transmit(s, n, bit, lost).active[m] > 0 <==>
              s.active[m] > 0 || exists i | 0 <= i < |lost| :: s.links[n][i].mote == m && (bit == 1) != lost[i]
    ensures Stop(Transmit(s, n, bit, lost), n).active[m] == s.active[m]
  {
    var ls := Sent(s.links[n], bit, lost);
    assert GoodLinks(s.links[n], |s.links|);
    CarriedNonNegative(s.links, m, |s.links|);
    BitsNonNegative(ls, m);
    hide BitsTo, Carried;
    if i :| 0 <= i < |lost| && s.links[n][i].mote == m && (bit == 1) != lost[i] {
      assert ls[i].mote == m && ls[i].bit == 1;
    }
    if i :| 0 <= i < |ls| && ls[i].mote == m && ls[i].bit == 1 {
      assert s.links[n][i].mote == m && (bit == 1) != lost[i];
    }
  }

  lemma StopConserves(s: State, n: nat)
    requires Conserved(s) && n < |s.links|
    ensures Conserved(Stop(s, n)) && Silent(Stop(s, n).links[n])
  {
    var t := Stop(s, n);
    assert GoodLinks(s.links[n], |s.links|);
    forall m | 0 <= m < |s.active| ensures t.active[m] == Carried(t.links, m) {
      CarriedUpdate(s.links, n, Stopped(s.links[n]), m);
      SilentSum(Stopped(s.links[n]), m);
    }
  }

  lemma {:induction false} WithLossSame(ls: seq<Link>, m: nat, loss: real, k: nat)
    ensures |WithLoss(ls, m, loss)| == |ls|
    ensures forall i | 0 <= i < |ls| ::
              WithLoss(ls, m, loss)[i].mote == ls[i].mote && WithLoss(ls, m, loss)[i].bit == ls[i].bit
    ensures BitsTo(WithLoss(ls, m, loss), k) == BitsTo(ls, k)
  {
    WithLossFields(ls, m, loss);
    BitsToSame(ls, WithLoss(ls, m, loss), k);
  }

  lemma {:induction false} WithLossFields(ls: seq<Link>, m: nat, loss: real)
    ensures |WithLoss(ls, m, loss)| == |ls|
    ensures forall i | 0 <= i < |ls| ::
              WithLoss(ls, m, loss)[i].mote == ls[i].mote && WithLoss(ls, m, loss)[i].bit == ls[i].bit
  {
    if ls != [] { WithLossFields(ls[1..], m, loss); }
  }

  lemma {:induction false} BitsToSame(a: seq<Link>, b: seq<Link>, k: nat)
    requires |a| == |b| && forall i | 0 <= i < |a| :: a[i].mote == b[i].mote && a[i].bit == b[i].bit
    ensures BitsTo(a, k) == BitsTo(b, k)
  {
    if a != [] { BitsToSame(a[..|a| - 1], b[..|b| - 1], k); }
  }

  lemma {:induction false} BitsToFront(x: Link, ls: seq<Link>, k: nat)
    requires x.bit == 0
    ensures BitsTo([x] + ls, k) == BitsTo(ls, k)
  {
    var all := [x] + ls;
    if ls != [] {
      assert all[..|all| - 1] == [x] + ls[..|ls| - 1];
      BitsToFront(x, ls[..|ls| - 1], k);
    } else {
      assert all[..0] == [];
    }
  }

  /** Links may change while bits are on the air. */
  lemma SetLossConserves(s: State, n: nat, m: nat, loss: real)
    requires Conserved(s) && n < |s.links| && m < |s.links|
    ensures Conserved(SetLoss(s, n, m, loss))
    ensures Silent(s.links[n]) <==> Silent(SetLoss(s, n, m, loss).links[n])
  {
    var ls := s.links[n];
    var t := SetLoss(s, n, m, loss);
    assert GoodLinks(ls, |s.links|);
    WithLossFields(ls, m, loss);
    if !HasLink(ls, m) { assert forall i | 0 <= i < |ls| :: t.links[n][i + 1] == ls[i]; }
    forall k | 0 <= k < |s.active| ensures t.active[k] == Carried(t.links, k) {
      CarriedUpdate(s.links, n, t.links[n], k);
      if HasLink(ls, m) { WithLossSame(ls, m, loss, k); } else { BitsToFront(Link(m, loss, 0), ls, k); }
    }
  }

  // ---- runs -----------------------------------------------------------------------------------------

  datatype Step =
    | DoStop(mote: nat)
    | DoTransmit(mote: nat, bit: int, lost: seq<bool>)
    | DoSetLoss(mote: nat, to: nat, loss: real)

  predicate Fits(s: State, step: Step) {
    && step.mote < |s.links|
    && match step
       case DoStop(n) => true
       case DoTransmit(n, bit, lost) => 0 <= bit <= 1 && |lost| == |s.links[n]|
       case DoSetLoss(n, m, loss) => m < |s.links|
  }

  function Apply(s: State, step: Step): (t: State)
    requires Fits(s, step)
    ensures |t.links| == |s.links| && |t.active| == |s.active|
    ensures forall k | 0 <= k < |s.links| && k != step.mote :: t.links[k] == s.links[k]
  {
    match step
    case DoStop(n) => Stop(s, n)
    case DoTransmit(n, bit, lost) => Transmit(s, n, bit, lost)
    case DoSetLoss(n, m, loss) => SetLoss(s, n, m, loss)
  }

  /** The steps can be taken one after another, and lead from s to t. */
  predicate Leads(s: State, steps: seq<Step>, t: State)
    decreases |steps|
  {
    if steps == [] then t == s else Fits(s, steps[0]) && Leads(Apply(s, steps[0]), steps[1..], t)
  }

  /** Nobody transmits over a bit of its own that is still on the air. */
  predicate StopsFirst(s: State, steps: seq<Step>)
    decreases |steps|
  {
    steps == [] ||
    (Fits(s, steps[0]) && (steps[0].DoTransmit? ==> Silent(s.links[steps[0].mote]))
     && StopsFirst(Apply(s, steps[0]), steps[1..]))
  }

  /** In every run the counters tell what is on the air, are never negative, and a mote hears
      a bit exactly if a link to it carries one. */
  lemma {:induction false} RunsConserve(s: State, steps: seq<Step>, t: State)
    requires Conserved(s) && Leads(s, steps, t) && StopsFirst(s, steps)
    ensures Conserved(t)
    ensures forall m | 0 <= m < |t.active| ::
              t.active[m] >= 0 &&
              (t.active[m] > 0 <==> exists n, i | 0 <= n < |t.links| && 0 <= i < |t.links[n]| ::
                                      t.links[n][i].mote == m && t.links[n][i].bit == 1)
    decreases |steps|
  {
    if steps == [] {
      forall m | 0 <= m < |t.active| { CarriedNonNegative(t.links, m, |t.links|); }
    } else {
      match steps[0] {
        case DoStop(n) => StopConserves(s, n);
        case DoTransmit(n, bit, lost) => TransmitConservesIff(s, n, bit, lost);
        case DoSetLoss(n, m, loss) => SetLossConserves(s, n, m, loss);
      }
      RunsConserve(Apply(s, steps[0]), steps[1..], t);
    }
  }

  /** What another mote does commutes with a transmission. */
  lemma Commutes(s: State, n: nat, bit: int, lost: seq<bool>, step: Step)
    requires n < |s.links| && |lost| == |s.links[n]| && 0 <= bit <= 1 && step.mote != n && Fits(s, step)
    ensures Fits(Transmit(s, n, bit, lost), step)
    ensures Apply(Transmit(s, n, bit, lost), step) == Transmit(Apply(s, step), n, bit, lost)
  {
    var a, b := Apply(Transmit(s, n, bit, lost), step), Transmit(Apply(s, step), n, bit, lost);
    assert a.links == b.links;
    assert a.active == b.active;
  }

  lemma StopAfterTransmit(s: State, n: nat, bit: int, lost: seq<bool>)
    requires n < |s.links| && |lost| == |s.links[n]| && 0 <= bit <= 1 && Silent(s.links[n])
    ensures Stop(Transmit(s, n, bit, lost), n) == s
  {
    var t := Stop(Transmit(s, n, bit, lost), n);
    assert t.links[n] == s.links[n];
    assert t.links == s.links && t.active == s.active;
  }

  /** Stopping undoes a transmission exactly, whatever other motes did in between. */
  lemma {:induction false} StopUndoes(s: State, n: nat, bit: int, lost: seq<bool>, steps: seq<Step>, t: State, u: State)
    requires n < |s.links| && |lost| == |s.links[n]| && 0 <= bit <= 1 && Silent(s.links[n])
    requires forall i | 0 <= i < |steps| :: steps[i].mote != n
    requires Leads(s, steps, t) && Leads(Transmit(s, n, bit, lost), steps, u)
    ensures n < |u.links| && Stop(u, n) == t
    decreases |steps|
  {
    if steps == [] {
      StopAfterTransmit(s, n, bit, lost);
    } else {
      Commutes(s, n, bit, lost, steps[0]);
      StopUndoes(Apply(s, steps[0]), n, bit, lost, steps[1..], t, u);
    }
  }

  // ---- the static and the simple model ------------------------------------------------------------------

  /** The static model keeps one bit per sender, and counts the links down by one. */
  datatype StaticState = StaticState(to: seq<seq<nat>>, transmitting: seq<int>, active: seq<int>)

  function CountTo(ms: seq<nat>, m: nat): int {
    if ms == [] then 0 else CountTo(ms[..|ms| - 1], m) + if ms[|ms| - 1] == m then 1 else 0
  }

  function StaticTransmit(s: StaticState, n: nat, bit: int): StaticState
    requires n < |s.to| == |s.transmitting|
  {
    s.(transmitting := s.transmitting[n := bit],
       active := seq(|s.active|, m requires 0 <= m < |s.active| => s.active[m] + bit * CountTo(s.to[n], m)))
  }

  function StaticStop(s: StaticState, n: nat): StaticState
    requires n < |s.to| == |s.transmitting|
  {
    if s.transmitting[n] == 0 then s
    else s.(transmitting := s.transmitting[n := 0],
            active := seq(|s.active|, m requires 0 <= m < |s.active| => s.active[m] - CountTo(s.to[n], m)))
  }

  /** The static state is the lossy one in which all links of a sender carry its bit. */
  predicate Agrees(s: StaticState, l: State) {
    && |s.to| == |s.transmitting| == |l.links| && s.active == l.active
    && forall n | 0 <= n < |s.to| ::
         0 <= s.transmitting[n] <= 1 && LinksTo(s.to[n], l.links[n], s.transmitting[n])
  }

  predicate LinksTo(ms: seq<nat>, ls: seq<Link>, bit: int) {
    |ms| == |ls| && forall i | 0 <= i < |ms| :: ls[i].mote == ms[i] && ls[i].bit == bit
  }

  lemma {:induction false} BitsCount(ms: seq<nat>, ls: seq<Link>, bit: int, m: nat)
    requires LinksTo(ms, ls, bit)
    ensures BitsTo(ls, m) == bit * CountTo(ms, m)
  {
    if ms != [] { BitsCount(ms[..|ms| - 1], ls[..|ls| - 1], bit, m); }
  }

  /** Then it stays so: the static model is the lossy one without losses, as long as the
      links do not change. */
  lemma StaticAgrees(s: StaticState, l: State, n: nat, bit: int, lost: seq<bool>)
    requires Agrees(s, l) && n < |s.to| && 0 <= bit <= 1
    requires |lost| == |l.links[n]| && forall i | 0 <= i < |lost| :: !lost[i]
    ensures Agrees(StaticTransmit(s, n, bit), Transmit(l, n, bit, lost))
    ensures Agrees(StaticStop(s, n), Stop(l, n))
  {
    StaticTransmits(s, l, n, bit, lost);
    StaticStops(s, l, n);
  }

  lemma StaticTransmits(s: StaticState, l: State, n: nat, bit: int, lost: seq<bool>)
    requires Agrees(s, l) && n < |s.to| && 0 <= bit <= 1
    requires |lost| == |l.links[n]| && forall i | 0 <= i < |lost| :: !lost[i]
    ensures Agrees(StaticTransmit(s, n, bit), Transmit(l, n, bit, lost))
  {
    var t := Transmit(l, n, bit, lost);
    forall m | 0 <= m < |s.active| ensures StaticTransmit(s, n, bit).active[m] == t.active[m] {
      BitsCount(s.to[n], t.links[n], bit, m);
    }
    assert StaticTransmit(s, n, bit).active == t.active;
  }

  lemma StaticStops(s: StaticState, l: State, n: nat)
    requires Agrees(s, l) && n < |s.to|
    ensures Agrees(StaticStop(s, n), Stop(l, n))
  {
    var u := Stop(l, n);
    forall m | 0 <= m < |s.active| ensures StaticStop(s, n).active[m] == u.active[m] {
      BitsCount(s.to[n], l.links[n], s.transmitting[n], m);
      assert s.transmitting[n] == 0 || s.transmitting[n] == 1;
    }
    assert StaticStop(s, n).active == u.active;
  }

  /** In the simple model every mote counts every bit once, its own as well: it is the static
      model in which each mote has one link to each. */
  function Everybody(motes: nat): (r: seq<nat>)
    ensures |r| == motes && forall i | 0 <= i < motes :: r[i] == i
  {
    seq(motes, i => i)
  }

  function SimpleTransmit(active: seq<int>, bit: int): seq<int> {
    seq(|active|, i requires 0 <= i < |active| => active[i] + bit)
  }

  lemma {:induction false} EverybodyOnce(motes: nat, m: nat)
    ensures CountTo(Everybody(motes), m) == if m < motes then 1 else 0
  {
    if motes > 0 {
      assert Everybody(motes)[..motes - 1] == Everybody(motes - 1);
      EverybodyOnce(motes - 1, m);
    }
  }

  lemma SimpleIsStatic(s: StaticState, n: nat, bit: int)
    requires n < |s.to| == |s.transmitting| == |s.active| && s.to[n] == Everybody(|s.to|)
    ensures StaticTransmit(s, n, bit).active == SimpleTransmit(s.active, bit)
    ensures s.transmitting[n] != 0 ==> StaticStop(s, n).active == SimpleTransmit(s.active, -1)
  {
    forall m | 0 <= m < |s.active|
      ensures StaticTransmit(s, n, bit).active[m] == SimpleTransmit(s.active, bit)[m]
      ensures s.transmitting[n] != 0 ==> StaticStop(s, n).active[m] == SimpleTransmit(s.active, -1)[m]
    {
      EverybodyOnce(|s.to|, m);
    }
  }

  /** A link that is added under a bit is taken back once too often: the static model is right
      again after the stop exactly if the sender's bit was 0. */
  lemma StaticNewLinkIff(s: StaticState, n: nat, m: nat)
    requires n < |s.to| == |s.transmitting| && m < |s.active| && 0 <= s.transmitting[n] <= 1
    ensures var t := s.(to := s.to[n := [m] + s.to[n]]);
            StaticStop(t, n).active == StaticStop(s, n).active <==> s.transmitting[n] == 0
  {
    CountFront(m, s.to[n], m);
    var t := s.(to := s.to[n := [m] + s.to[n]]);
    if s.transmitting[n] != 0 {
      assert StaticStop(t, n).active[m] == StaticStop(s, n).active[m] - 1;
    }
  }

  lemma {:induction false} CountFront(x: nat, ms: seq<nat>, m: nat)
    ensures CountTo([x] + ms, m) == CountTo(ms, m) + if x == m then 1 else 0
  {
    var all := [x] + ms;
    if ms == [] {
      assert all[..0] == [];
    } else {
      assert all[..|all| - 1] == [x] + ms[..|ms| - 1];
      CountFront(x, ms[..|ms| - 1], m);
    }
  }
}
