/** The trace processor's globals, changed in place event by event.  It is proved to keep in
    each total the integral of the current. */
module EnergyTotals {
  import opened Energy

  type Amounts = map<Component, real>

  function NoAmounts(): (a: Amounts)
    ensures forall t: Component :: t in a && a[t] == 0.0
  {
    var a: Amounts := map[Cpu := 0.0, Radio := 0.0, Adc := 0.0, Leds := 0.0, Sensor := 0.0, Eeprom := 0.0];
    assert forall t: Component :: t in a by { forall t: Component ensures t in a { InTotals(t); } }
    a
  }

  /** get_leds_current, get_sensor_current and the others: from the state that a trace leads
      to they give the current that the trace tells. */
  method CurrentOf(em: Model, s: MoteState, t: Component) returns (c: real)
    ensures c == Current(em, s, t)
    ensures forall sb, trace, m: nat | s == StateAfter(em, sb, trace, m) :: c == Drawn(em, sb, trace, m, t)
  {
    forall sb, trace, m: nat | s == StateAfter(em, sb, trace, m)
      ensures Drawn(em, sb, trace, m, t) == Current(em, s, t)
    {
      CurrentIsDrawn(em, sb, trace, m, t);
    }
    hide StateAfter, Drawn;
    match t {
      case Cpu => c := em.cpu(s.cpu);
      case Radio =>
        if s.radio.on {
          if s.radio.tx { c := em.radioTx(s.radio.txPower); } else { c := em.radioRx; }
        } else {
          c := 0.0;
        }
      case Adc => c := if s.adcOn then em.adc else 0.0;
      case Leds =>
        var on := CountOn(s.led);
        c := on as real * em.led;
      case Sensor =>
        c := SensorsOn(s.sensor, em.sensor);
        if s.sensorBoard {
          c := em.sensorBoard + c;
        }
      case Eeprom =>
        if s.eepromRead {
          return em.eepromRead;
        }
        if s.eepromWrite {
          return em.eepromWrite;
        }
        c := 0.0;
    }
  }

  method CountOn(leds: map<string, bool>) returns (n: nat)
    ensures n == |On(leds)|
  {
    n := 0;
    var left := leds.Keys;
    assert On(leds) - left == {};
    while left != {}
      invariant left <= leds.Keys && n == |On(leds) - left|
      decreases |left|
    {
      var k :| k in left;
      ghost var was := left;
      left := left - {k};
      if leds[k] {
        n := n + 1;
        assert On(leds) - left == (On(leds) - was) + {k};
      } else {
        assert On(leds) - left == On(leds) - was;
      }
    }
    assert On(leds) - left == On(leds);
  }

  /** The items come in any order. */
  method SensorsOn(sensors: map<string, bool>, f: string -> real) returns (total: real)
    ensures total == SumOf(On(sensors), f)
  {
    total := 0.0;
    var left := sensors.Keys;
    assert On(sensors) * left == On(sensors);
    while left != {}
      invariant left <= sensors.Keys && total + SumOf(On(sensors) * left, f) == SumOf(On(sensors), f)
      decreases |left|
    {
      var k :| k in left;
      ghost var was := left;
      left := left - {k};
      if sensors[k] {
        SumTakes(On(sensors) * was, f, k);
        assert On(sensors) * was - {k} == On(sensors) * left;
        total := total + f(k);
      } else {
        assert On(sensors) * was == On(sensors) * left;
      }
    }
    assert On(sensors) * left == {};
  }

  class Totals {
    const em: Model
    const sb: bool
    const state: array<MoteState>
    const total: array<Amounts>
    const prevCurrent: array<Amounts>
    const prevTime: array<int>
    var maxseen: nat
    ghost var trace: seq<Event>

    ghost predicate Shape()
      reads total, prevCurrent
    {
      && ValidModel(em) && total != prevCurrent
      && state.Length == total.Length == prevCurrent.Length == prevTime.Length > 0
      && (forall m, t: Component | 0 <= m < total.Length :: t in total[m] && t in prevCurrent[m])
    }

    /** What the script keeps is what it should be. */
    ghost predicate Valid()
      reads this, state, total, prevCurrent, prevTime
    {
      && Shape() && maxseen == MaxSeen(trace) < state.Length
      && (forall m | 0 <= m < state.Length :: state[m] == StateAfter(em, sb, trace, m))
      && (forall m, t: Component | 0 <= m < state.Length :: total[m][t] == Integral(em, sb, trace, m, t))
      && (forall m, t: Component | 0 <= m < state.Length :: prevCurrent[m][t] == Held(em, sb, trace, m, t))
      && (forall m | 0 <= m < state.Length && Covered(trace, m) :: prevTime[m] == LastTime(trace))
    }

    /** initstate. */
    constructor (em: Model, sb: bool, maxmotes: nat)
      requires ValidModel(em) && maxmotes > 0
      ensures Valid() && trace == [] && this.em == em && this.sb == sb && state.Length == maxmotes
    {
      this.em, this.sb := em, sb;
      state := new MoteState[maxmotes](_ => InitialState(em, sb));
      total := new Amounts[maxmotes](_ => NoAmounts());
      prevCurrent := new Amounts[maxmotes](_ => NoAmounts());
      prevTime := new int[maxmotes](_ => 0);
      maxseen, trace := 0, [];
    }

    /** The totals of one mote. */
    method UpdateMote(m: nat, time: int)
      requires Shape() && m < total.Length
      modifies total
      ensures Shape()
      ensures forall t: Component :: total[m][t] == old(total[m][t]) + Used(em, prevTime[m], time, prevCurrent[m][t])
      ensures forall k | 0 <= k < total.Length && k != m :: total[k] == old(total[k])
    {
      ghost var was := total[m];
      for i := 0 to |TOTALS|
        invariant Shape()
        invariant forall k | 0 <= k < total.Length && k != m :: total[k] == old(total[k])
        invariant forall j | 0 <= j < |TOTALS| ::
                    total[m][TOTALS[j]] ==
                      was[TOTALS[j]] + if j < i then Used(em, prevTime[m], time, prevCurrent[m][TOTALS[j]]) else 0.0
      {
        var t := TOTALS[i];
        var td := Seconds(em, prevTime[m], time);
        total[m] := total[m][t := total[m][t] + td * prevCurrent[m][t] * em.voltage];
      }
      forall t: Component ensures total[m][t] == was[t] + Used(em, prevTime[m], time, prevCurrent[m][t]) {
        InTotals(t);
      }
    }

    /** update_totals. */
    method UpdateTotals(time: int)
      requires Shape() && maxseen < total.Length
      modifies total
      ensures Shape()
      ensures forall m, t: Component | 0 <= m < total.Length ::
                total[m][t] ==
                  old(total[m][t]) + if m <= maxseen then Used(em, prevTime[m], time, prevCurrent[m][t]) else 0.0
    {
      for m := 0 to maxseen + 1
        invariant Shape()
        invariant forall k, t: Component | 0 <= k < total.Length ::
                    total[k][t] ==
                      old(total[k][t]) + if k < m then Used(em, prevTime[k], time, prevCurrent[k][t]) else 0.0
      {
        UpdateMote(m, time);
      }
    }

    /** update_currents. */
    method UpdateCurrents(time: int)
      requires Shape() && maxseen < total.Length
      modifies prevTime, prevCurrent
      ensures Shape()
      ensures forall m | 0 <= m <= maxseen :: prevTime[m] == time
      ensures forall m | maxseen < m < prevTime.Length :: prevTime[m] == old(prevTime[m])
      ensures forall m, t: Component | 0 <= m < total.Length ::
                prevCurrent[m][t] == if m <= maxseen then Current(em, state[m], t) else old(prevCurrent[m][t])
    {
      for m := 0 to maxseen + 1
        invariant Shape()
        invariant forall k | 0 <= k < prevTime.Length :: prevTime[k] == if k < m then time else old(prevTime[k])
        invariant forall k, t: Component | 0 <= k < total.Length ::
                    prevCurrent[k][t] == if k < m then Current(em, state[k], t) else old(prevCurrent[k][t])
      {
        prevTime[m] := time;
        UpdateCurrentsOf(m);
      }
    }

    method UpdateCurrentsOf(m: nat)
      requires Shape() && m < total.Length
      modifies prevCurrent
      ensures Shape()
      ensures forall t: Component :: prevCurrent[m][t] == Current(em, state[m], t)
      ensures forall k | 0 <= k < total.Length && k != m :: prevCurrent[k] == old(prevCurrent[k])
    {
      for i := 0 to |TOTALS|
        invariant Shape()
        invariant forall k | 0 <= k < total.Length && k != m :: prevCurrent[k] == old(prevCurrent[k])
        invariant forall j | 0 <= j < i :: prevCurrent[m][TOTALS[j]] == Current(em, state[m], TOTALS[j])
      {
        var c := CurrentOf(em, state[m], TOTALS[i]);
        prevCurrent[m] := prevCurrent[m][TOTALS[i] := c];
      }
      forall t: Component ensures prevCurrent[m][t] == Current(em, state[m], t) {
        InTotals(t);
      }
    }

    /** Totals up to the event, the event's handler, and the currents from then on. */
    method Account(e: Event)
      requires Shape() && maxseen < total.Length && e.mote < total.Length
      modifies state, total, prevCurrent, prevTime
      ensures Shape()
      ensures forall m | 0 <= m < state.Length ::
                state[m] == if m == e.mote then Handled(em, old(state[m]), e.change) else old(state[m])
      ensures forall m, t: Component | 0 <= m < total.Length ::
                total[m][t] == old(total[m][t]) +
                  if m <= maxseen then Used(em, old(prevTime[m]), e.time, old(prevCurrent[m][t])) else 0.0
      ensures forall m, t: Component | 0 <= m < total.Length ::
                prevCurrent[m][t] == if m <= maxseen then Current(em, state[m], t) else old(prevCurrent[m][t])
      ensures forall m | 0 <= m < prevTime.Length :: prevTime[m] == if m <= maxseen then e.time else old(prevTime[m])
    {
      hide Used, Current, Handled;
      UpdateTotals(e.time);
      state[e.mote] := Handled(em, state[e.mote], e.change);
      UpdateCurrents(e.time);
    }

    /** handle_event, for a line that is a power event of a mote below the maximum. */
    method HandleEvent(e: Event)
      requires Valid() && e.mote < state.Length
      modifies this`maxseen, this`trace, state, total, prevCurrent, prevTime
      ensures Valid() && trace == old(trace) + [e]
    {
      hide Integral, Held, StateAfter, Current, Used, Covered, LastTime, MaxSeen, Handled, Seconds;
      ghost var before, after := trace, trace + [e];
      if e.mote > maxseen {
        maxseen := e.mote;
      }
      if Known(e) {
        Account(e);
      }
      trace := after;
      CellSteps(em, sb, before, e, 0, Cpu);
      forall m | 0 <= m < state.Length
        ensures state[m] == StateAfter(em, sb, trace, m)
        ensures Covered(trace, m) ==> prevTime[m] == LastTime(trace)
      {
        CellSteps(em, sb, before, e, m, Cpu);
      }
      forall m, t: Component | 0 <= m < state.Length
        ensures total[m][t] == Integral(em, sb, trace, m, t) && prevCurrent[m][t] == Held(em, sb, trace, m, t)
      {
        CellSteps(em, sb, before, e, m, t);
      }
    }
  }

  /** What one event does to one total of one mote. */
  ghost predicate CellStep(em: Model, sb: bool, trace: seq<Event>, e: Event, m: nat, t: Component)
    requires ValidModel(em)
  {
    var after := trace + [e];
    var seen := m <= MaxSeen(after);
    && MaxSeen(after) == (if e.mote > MaxSeen(trace) then e.mote else MaxSeen(trace))
    && StateAfter(em, sb, after, m) ==
         (if e.mote == m && Known(e) then Handled(em, StateAfter(em, sb, trace, m), e.change)
          else StateAfter(em, sb, trace, m))
    && (Covered(trace, m) ==> seen)
    && if Known(e) then
         && Covered(after, m) == seen && LastTime(after) == e.time
         && Integral(em, sb, after, m, t) == Integral(em, sb, trace, m, t) +
              (if Covered(trace, m) then Used(em, LastTime(trace), e.time, Held(em, sb, trace, m, t)) else 0.0)
         && (!Covered(trace, m) ==> Held(em, sb, trace, m, t) == 0.0)
         && (forall from :: Used(em, from, e.time, 0.0) == 0.0)
         && Held(em, sb, after, m, t) == (if seen then Current(em, StateAfter(em, sb, after, m), t) else 0.0)
       else
         && Covered(after, m) == Covered(trace, m) && LastTime(after) == LastTime(trace)
         && Integral(em, sb, after, m, t) == Integral(em, sb, trace, m, t)
         && Held(em, sb, after, m, t) == Held(em, sb, trace, m, t)
  }

  lemma CellSteps(em: Model, sb: bool, trace: seq<Event>, e: Event, m: nat, t: Component)
    requires ValidModel(em)
    ensures CellStep(em, sb, trace, e, m, t)
  {
    hide Current, Drawn, Used, Handled, Seconds;
    var after := trace + [e];
    assert after[..|after| - 1] == trace;
    CoveredStays(trace, m);
    forall from ensures Used(em, from, e.time, 0.0) == 0.0 {
      UsedSplits(em, from, e.time, e.time, 0.0);
    }
    CurrentIsDrawn(em, sb, after, m, t);
    if !Known(e) { UnknownChangesNothing(em, sb, after, m, t); }
  }

  lemma InTotals(t: Component)
    ensures t in TOTALS && exists j :: 0 <= j < |TOTALS| && TOTALS[j] == t
  {
    match t {
      case Cpu => assert TOTALS[0] == t;
      case Radio => assert TOTALS[1] == t;
      case Adc => assert TOTALS[2] == t;
      case Leds => assert TOTALS[3] == t;
      case Sensor => assert TOTALS[4] == t;
      case Eeprom => assert TOTALS[5] == t;
    }
  }
}
