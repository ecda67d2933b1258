/** The energy that each part of each mote uses, computed from a trace of state changes. */
module Energy {
  import opened Wrappers

  // ---- the motes and their currents -------------------------------------------------------------

  datatype Component = Cpu | Radio | Adc | Leds | Sensor | Eeprom

  const TOTALS := [Cpu, Radio, Adc, Leds, Sensor, Eeprom]

  datatype RadioState = RadioState(on: bool, tx: bool, txPower: int)

  datatype MoteState = MoteState(
    radio: RadioState, cpu: string, cpuCycles: real, adc: bool, adcOn: bool, sensorBoard: bool,
    sensor: map<string, bool>, led: map<string, bool>, eepromRead: bool, eepromWrite: bool)

  /** The energy model: currents in milliampere, and the frequency of the time stamps. */
  datatype Model = Model(
    voltage: real, cpuFreq: real, cpu: string -> real, radioTx: int -> real, radioRx: real, radioDefaultPower: int,
    adc: real, led: real, sensorBoard: real, sensor: string -> real, eepromRead: real, eepromWrite: real)

  predicate ValidModel(em: Model) { em.cpuFreq > 0.0 }

  function InitialState(em: Model, sb: bool): MoteState {
    MoteState(RadioState(false, false, em.radioDefaultPower), "IDLE", 0.0, false, false, sb, map[], map[], false, false)
  }

  datatype Change =
    | CpuCycles(cycles: real)
    | CpuState(name: string)
    | AdcSample | AdcDataReady | AdcOn | AdcOff
    | RadioOn | RadioOff | RadioTx | RadioRx | SetRFPower(power: int)
    | SetLed(name: string, on: bool)
    | SetSensor(name: string, on: bool)
    | EepromRead(start: bool)
    | EepromWrite(start: bool)
    | Unknown

  datatype Event = Event(mote: nat, time: int, change: Change)

  /** The handlers: an event changes the state of its mote. */
  function Handled(em: Model, s: MoteState, c: Change): MoteState {
    match c
    case CpuCycles(cycles) => s.(cpuCycles := cycles)
    case CpuState(name) => s.(cpu := name)
    case AdcSample => s.(adc := true)
    case AdcDataReady => s.(adc := false)
    case AdcOn => s.(adcOn := true)
    case AdcOff => s.(adcOn := false)
    case RadioOn => s.(radio := RadioState(true, false, em.radioDefaultPower))
    case RadioOff => s.(radio := s.radio.(on := false))
    case SetRFPower(power) => s.(radio := s.radio.(txPower := power))
    case RadioTx => s.(radio := s.radio.(on := true, tx := true))
    case RadioRx => s.(radio := s.radio.(on := true, tx := false))
    case SetLed(name, on) => s.(led := s.led[name := on])
    case SetSensor(name, on) => s.(sensor := s.sensor[name := on])
    case EepromRead(start) => s.(eepromRead := start)
    case EepromWrite(start) => s.(eepromWrite := start)
    case Unknown => s
  }

  /** The names that are on. */
  function On(m: map<string, bool>): set<string> { set k | k in m && m[k] }

  ghost function SumOf(names: set<string>, f: string -> real): real {
    if names == {} then 0.0
    else
      var k :| k in names;
      f(k) + SumOf(names - {k}, f)
  }

  ghost function Current(em: Model, s: MoteState, t: Component): real {
    match t
    case Cpu => em.cpu(s.cpu)
    case Radio => if s.radio.on then if s.radio.tx then em.radioTx(s.radio.txPower) else em.radioRx else 0.0
    case Adc => if s.adcOn then em.adc else 0.0
    case Leds => |On(s.led)| as real * em.led
    case Sensor => (if s.sensorBoard then em.sensorBoard else 0.0) + SumOf(On(s.sensor), em.sensor)
    case Eeprom => if s.eepromRead then em.eepromRead else if s.eepromWrite then em.eepromWrite else 0.0
  }

  /** The sum does not depend on the order of the names. */
  lemma {:induction false} SumTakes(names: set<string>, f: string -> real, k: string)
    requires k in names
    ensures SumOf(names, f) == f(k) + SumOf(names - {k}, f)
    decreases |names|
  {
    var j :| j in names && SumOf(names, f) == f(j) + SumOf(names - {j}, f);
    if j != k {
      SumTakes(names - {j}, f, k);
      SumTakes(names - {k}, f, j);
      assert names - {j} - {k} == names - {k} - {j};
    }
  }

  // ---- what a trace tells ---------------------------------------------------------------------------

  /** What an event can tell of: each is settled by the last event that tells of it. */
  datatype Topic =
    | CpuName | AdcSwitch | RadioSwitch | RadioPower | LedOf(name: string) | SensorOf(name: string) | Reading | Writing

  predicate Tells(c: Change, topic: Topic) {
    match topic
    case CpuName => c.CpuState?
    case AdcSwitch => c.AdcOn? || c.AdcOff?
    case RadioSwitch => c.RadioOn? || c.RadioOff? || c.RadioTx? || c.RadioRx?
    case RadioPower => c.RadioOn? || c.SetRFPower?
    case LedOf(name) => c.SetLed? && c.name == name
    case SensorOf(name) => c.SetSensor? && c.name == name
    case Reading => c.EepromRead?
    case Writing => c.EepromWrite?
  }

  predicate About(e: Event, m: nat, topic: Topic) { e.mote == m && Tells(e.change, topic) }

  /** The last change of mote m that tells of the topic. */
  function Last(trace: seq<Event>, m: nat, topic: Topic): (r: Option<Change>)
    ensures match r
            case None => forall i | 0 <= i < |trace| :: !About(trace[i], m, topic)
            case Some(c) =>
              exists i | 0 <= i < |trace| ::
                && About(trace[i], m, topic) && trace[i].change == c
                && forall j | i < j < |trace| :: !About(trace[j], m, topic)
  {
    if trace == [] then None
    else if About(trace[|trace| - 1], m, topic) then Some(trace[|trace| - 1].change)
    else Last(trace[..|trace| - 1], m, topic)
  }

  /** The transmit power: the last that was set since the radio was switched on. */
  function PowerTold(em: Model, told: Option<Change>): int {
    match told
    case Some(SetRFPower(power)) => power
    case _ => em.radioDefaultPower
  }

  function CpuTold(told: Option<Change>): string {
    match told
    case Some(CpuState(name)) => name
    case _ => "IDLE"
  }

  predicate LedLit(trace: seq<Event>, m: nat, name: string) {
    Last(trace, m, LedOf(name)) == Some(SetLed(name, true))
  }

  predicate SensorLit(trace: seq<Event>, m: nat, name: string) {
    Last(trace, m, SensorOf(name)) == Some(SetSensor(name, true))
  }

  /** The names in the trace of LEDs, or of sensors, that were last switched on. */
  ghost function LitLeds(trace: seq<Event>, m: nat): (r: set<string>)
    ensures forall name :: name in r <==> LedLit(trace, m, name)
  {
    var r := set i | 0 <= i < |trace| && trace[i].change.SetLed? && LedLit(trace, m, trace[i].change.name)
             :: trace[i].change.name;
    assert forall name | LedLit(trace, m, name) :: name in r;
    r
  }

  ghost function LitSensors(trace: seq<Event>, m: nat): (r: set<string>)
    ensures forall name :: name in r <==> SensorLit(trace, m, name)
  {
    var r := set i | 0 <= i < |trace| && trace[i].change.SetSensor? && SensorLit(trace, m, trace[i].change.name)
             :: trace[i].change.name;
    assert forall name | SensorLit(trace, m, name) :: name in r;
    r
  }

  /** The current that a component of mote m draws after the trace, told by the trace alone. */
  ghost function Drawn(em: Model, sb: bool, trace: seq<Event>, m: nat, t: Component): real {
    match t
    case Cpu => em.cpu(CpuTold(Last(trace, m, CpuName)))
    case Radio =>
      (match Last(trace, m, RadioSwitch)
       case None => 0.0
       case Some(RadioOff) => 0.0
       case Some(RadioTx) => em.radioTx(PowerTold(em, Last(trace, m, RadioPower)))
       case Some(_) => em.radioRx)
    case Adc => if Last(trace, m, AdcSwitch) == Some(AdcOn) then em.adc else 0.0
    case Leds => |LitLeds(trace, m)| as real * em.led
    case Sensor => (if sb then em.sensorBoard else 0.0) + SumOf(LitSensors(trace, m), em.sensor)
    case Eeprom =>
      if Last(trace, m, Reading) == Some(EepromRead(true)) then em.eepromRead
      else if Last(trace, m, Writing) == Some(EepromWrite(true)) then em.eepromWrite
      else 0.0
  }

  /** The handlers' state, by what was last told. */
  predicate RadioTold(em: Model, s: MoteState, switch: Option<Change>, power: Option<Change>) {
    && s.radio.on == (switch.Some? && switch != Some(RadioOff))
    && (s.radio.on ==> s.radio.tx == (switch == Some(RadioTx)))
    && s.radio.txPower == PowerTold(em, power)
  }

  predicate RestTold(s: MoteState, cpu: Option<Change>, adc: Option<Change>, read: Option<Change>,
                     write: Option<Change>) {
    && s.cpu == CpuTold(cpu) && s.adcOn == (adc == Some(AdcOn))
    && s.eepromRead == (read == Some(EepromRead(true))) && s.eepromWrite == (write == Some(EepromWrite(true)))
  }

  predicate LedTold(s: MoteState, name: string, told: Option<Change>) {
    (name in s.led && s.led[name]) == (told == Some(SetLed(name, true)))
  }

  predicate SensorTold(s: MoteState, name: string, told: Option<Change>) {
    (name in s.sensor && s.sensor[name]) == (told == Some(SetSensor(name, true)))
  }

  function Tell(told: Option<Change>, c: Change, topic: Topic): Option<Change> {
    if Tells(c, topic) then Some(c) else told
  }

  lemma RadioTells(em: Model, s: MoteState, c: Change, switch: Option<Change>, power: Option<Change>)
    requires RadioTold(em, s, switch, power)
    ensures RadioTold(em, Handled(em, s, c), Tell(switch, c, RadioSwitch), Tell(power, c, RadioPower))
  {
  }

  lemma RestTells(em: Model, s: MoteState, c: Change, cpu: Option<Change>, adc: Option<Change>, read: Option<Change>,
                  write: Option<Change>)
    requires RestTold(s, cpu, adc, read, write)
    ensures RestTold(Handled(em, s, c), Tell(cpu, c, CpuName), Tell(adc, c, AdcSwitch), Tell(read, c, Reading),
                     Tell(write, c, Writing))
  {
  }

  lemma NameTells(em: Model, s: MoteState, c: Change, name: string, led: Option<Change>, sensor: Option<Change>)
    requires LedTold(s, name, led) && SensorTold(s, name, sensor)
    ensures LedTold(Handled(em, s, c), name, Tell(led, c, LedOf(name)))
    ensures SensorTold(Handled(em, s, c), name, Tell(sensor, c, SensorOf(name)))
  {
  }

  lemma BoardStays(em: Model, s: MoteState, c: Change)
    ensures Handled(em, s, c).sensorBoard == s.sensorBoard
  {
  }

  lemma LastMore(trace: seq<Event>, m: nat, topic: Topic)
    requires trace != []
    ensures var (front, e) := (trace[..|trace| - 1], trace[|trace| - 1]);
            Last(trace, m, topic) ==
              if e.mote == m then Tell(Last(front, m, topic), e.change, topic) else Last(front, m, topic)
  {
  }

  ghost predicate Told(em: Model, sb: bool, s: MoteState, trace: seq<Event>, m: nat, name: string) {
    && RadioTold(em, s, Last(trace, m, RadioSwitch), Last(trace, m, RadioPower))
    && RestTold(s, Last(trace, m, CpuName), Last(trace, m, AdcSwitch), Last(trace, m, Reading), Last(trace, m, Writing))
    && LedTold(s, name, Last(trace, m, LedOf(name))) && SensorTold(s, name, Last(trace, m, SensorOf(name)))
    && s.sensorBoard == sb
  }

  lemma LastsMore(trace: seq<Event>, m: nat)
    requires trace != []
    ensures var (front, e) := (trace[..|trace| - 1], trace[|trace| - 1]);
            forall topic :: Last(trace, m, topic) ==
              if e.mote == m then Tell(Last(front, m, topic), e.change, topic) else Last(front, m, topic)
  {
    forall topic { LastMore(trace, m, topic); }
  }

  lemma {:induction false} StateIsTold(em: Model, sb: bool, trace: seq<Event>, m: nat, name: string)
    ensures Told(em, sb, StateAfter(em, sb, trace, m), trace, m, name)
  {
    if trace != [] {
      var front, c := trace[..|trace| - 1], trace[|trace| - 1].change;
      var s := StateAfter(em, sb, front, m);
      StateIsTold(em, sb, front, m, name);
      LastsMore(trace, m);
      hide RadioTold, RestTold, LedTold, SensorTold, Handled, Tell, Last;
      RadioTells(em, s, c, Last(front, m, RadioSwitch), Last(front, m, RadioPower));
      RestTells(em, s, c, Last(front, m, CpuName), Last(front, m, AdcSwitch), Last(front, m, Reading),
                Last(front, m, Writing));
      NameTells(em, s, c, name, Last(front, m, LedOf(name)), Last(front, m, SensorOf(name)));
      BoardStays(em, s, c);
    }
  }

  /** What the script computes from the state its handlers keep is what the trace tells. */
  lemma CurrentIsDrawn(em: Model, sb: bool, trace: seq<Event>, m: nat, t: Component)
    ensures Current(em, StateAfter(em, sb, trace, m), t) == Drawn(em, sb, trace, m, t)
  {
    StateIsTold(em, sb, trace, m, "");
    NamesAreLit(em, sb, trace, m);
    hide StateAfter, Last, SumOf, LedLit, SensorLit, LitLeds, LitSensors, On;
  }

  lemma NamesAreLit(em: Model, sb: bool, trace: seq<Event>, m: nat)
    ensures On(StateAfter(em, sb, trace, m).led) == LitLeds(trace, m)
    ensures On(StateAfter(em, sb, trace, m).sensor) == LitSensors(trace, m)
  {
    hide StateAfter, Last, RadioTold, RestTold;
    var s := StateAfter(em, sb, trace, m);
    forall name
      ensures name in On(s.led) <==> LedLit(trace, m, name)
      ensures name in On(s.sensor) <==> SensorLit(trace, m, name)
    {
      StateIsTold(em, sb, trace, m, name);
    }
  }

  // ---- what the totals should be --------------------------------------------------------------------

  predicate Known(e: Event) { !e.change.Unknown? }

  function StateAfter(em: Model, sb: bool, trace: seq<Event>, m: nat): MoteState {
    if trace == [] then InitialState(em, sb)
    else
      var s, e := StateAfter(em, sb, trace[..|trace| - 1], m), trace[|trace| - 1];
      if e.mote == m then Handled(em, s, e.change) else s
  }

  /** Every event counts its mote as seen. */
  function MaxSeen(trace: seq<Event>): nat {
    if trace == [] then 0
    else
      var n, e := MaxSeen(trace[..|trace| - 1]), trace[|trace| - 1];
      if e.mote > n then e.mote else n
  }

  /** The time of the last known event. */
  function LastTime(trace: seq<Event>): int {
    if trace == [] then 0
    else
      var e := trace[|trace| - 1];
      if Known(e) then e.time else LastTime(trace[..|trace| - 1])
  }

  /** Mote m had been seen at the last known event. */
  predicate Covered(trace: seq<Event>, m: nat) {
    trace != [] &&
    var e := trace[|trace| - 1];
    if Known(e) then m <= MaxSeen(trace) else Covered(trace[..|trace| - 1], m)
  }

  function Seconds(em: Model, from: int, to: int): real
    requires ValidModel(em)
  {
    (to as real - from as real) / em.cpuFreq
  }

  /** What is used between two times at one current. */
  function Used(em: Model, from: int, to: int, current: real): real
    requires ValidModel(em)
  {
    Seconds(em, from, to) * current * em.voltage
  }

  /** Voltage times the sum, over the gaps between known events since the mote was first
      covered, of the gap and the current held during it. */
  ghost function Integral(em: Model, sb: bool, trace: seq<Event>, m: nat, t: Component): real
    requires ValidModel(em)
  {
    if trace == [] then 0.0
    else
      var front, e := trace[..|trace| - 1], trace[|trace| - 1];
      Integral(em, sb, front, m, t) +
      if Known(e) && Covered(front, m)
      then Used(em, LastTime(front), e.time, Drawn(em, sb, front, m, t))
      else 0.0
  }

  lemma {:induction false} LastTimeIs(trace: seq<Event>, i: nat)
    requires forall j | i < j < |trace| :: !Known(trace[j])
    requires i < |trace| && Known(trace[i])
    ensures LastTime(trace) == trace[i].time
  {
    if i < |trace| - 1 { LastTimeIs(trace[..|trace| - 1], i); }
  }

  /** The charge that a component takes, in milliampere and ticks: the current held over each gap. */
  ghost function Charge(em: Model, sb: bool, trace: seq<Event>, m: nat, t: Component): real {
    if trace == [] then 0.0
    else
      var front, e := trace[..|trace| - 1], trace[|trace| - 1];
      var gap := if Known(e) && Covered(front, m) then e.time - LastTime(front) else 0;
      Charge(em, sb, front, m, t) + gap as real * Drawn(em, sb, front, m, t)
  }

  lemma UsedIs(em: Model, from: int, to: int, current: real)
    requires ValidModel(em)
    ensures Used(em, from, to, current) == (to - from) as real * current * (em.voltage / em.cpuFreq)
  {
    var (d, f) := ((to - from) as real, em.cpuFreq);
    assert d == to as real - from as real;
    assert d / f * f == d;
    var (q, r) := (d / f, em.voltage / f);
    assert q * f == d && r * f == em.voltage;
    assert d * current * r == q * f * current * r == q * current * (r * f);
  }

  lemma Distributes(a: real, b: real, c: real)
    ensures (a + b) * c == a * c + b * c
  {
  }

  lemma ZeroTimes(a: real, b: real)
    ensures 0 as real * a == 0.0 && 0 as real * a * b == 0.0
  {
  }

  lemma {:induction false} IntegralIsCharge(em: Model, sb: bool, trace: seq<Event>, m: nat, t: Component)
    requires ValidModel(em)
    ensures Integral(em, sb, trace, m, t) == Charge(em, sb, trace, m, t) * (em.voltage / em.cpuFreq)
  {
    hide Drawn, Used, Covered, LastTime;
    if trace != [] {
      var front, e := trace[..|trace| - 1], trace[|trace| - 1];
      IntegralIsCharge(em, sb, front, m, t);
      var (current, rate) := (Drawn(em, sb, front, m, t), em.voltage / em.cpuFreq);
      UsedIs(em, LastTime(front), e.time, current);
      var gap := if Known(e) && Covered(front, m) then e.time - LastTime(front) else 0;
      Distributes(Charge(em, sb, front, m, t), gap as real * current, rate);
      ZeroTimes(current, rate);
    }
  }

  predicate Ordered(trace: seq<Event>) {
    && (forall i | 0 <= i < |trace| :: trace[i].time >= 0)
    && (forall i, j | 0 <= i < j < |trace| :: trace[i].time <= trace[j].time)
  }

  // ---- the lazy scheme -------------------------------------------------------------------------------

  /** What the script's comment proposes: a total is added to only when its current changes,
      and remembers the time and the current since then. */
  datatype Lazy = Lazy(total: real, time: int, current: real)

  ghost function LazyAfter(em: Model, sb: bool, trace: seq<Event>, m: nat, t: Component): Lazy
    requires ValidModel(em)
  {
    if trace == [] then Lazy(0.0, 0, 0.0)
    else
      var e, l := trace[|trace| - 1], LazyAfter(em, sb, trace[..|trace| - 1], m, t);
      var now := Drawn(em, sb, trace, m, t);
      if !Known(e) || m > MaxSeen(trace) || now == l.current then l
      else Lazy(l.total + Used(em, l.time, e.time, l.current), e.time, now)
  }

  /** The current that is being held: none before the mote is covered. */
  ghost function Held(em: Model, sb: bool, trace: seq<Event>, m: nat, t: Component): real {
    if Covered(trace, m) then Drawn(em, sb, trace, m, t) else 0.0
  }

  lemma {:induction false} CoveredStays(trace: seq<Event>, m: nat)
    ensures Covered(trace, m) ==> m <= MaxSeen(trace)
  {
    if trace != [] { CoveredStays(trace[..|trace| - 1], m); }
  }

  lemma UnknownKeepsState(em: Model, sb: bool, trace: seq<Event>, m: nat)
    requires trace != [] && !Known(trace[|trace| - 1])
    ensures StateAfter(em, sb, trace, m) == StateAfter(em, sb, trace[..|trace| - 1], m)
  {
  }

  /** An event that the script knows nothing of changes no current. */
  lemma UnknownChangesNothing(em: Model, sb: bool, trace: seq<Event>, m: nat, t: Component)
    requires trace != [] && !Known(trace[|trace| - 1])
    ensures Drawn(em, sb, trace, m, t) == Drawn(em, sb, trace[..|trace| - 1], m, t)
    ensures StateAfter(em, sb, trace, m) == StateAfter(em, sb, trace[..|trace| - 1], m)
  {
    hide *;
    UnknownKeepsState(em, sb, trace, m);
    CurrentIsDrawn(em, sb, trace, m, t);
    CurrentIsDrawn(em, sb, trace[..|trace| - 1], m, t);
  }

  lemma {:induction false} LazyHolds(em: Model, sb: bool, trace: seq<Event>, m: nat, t: Component)
    requires ValidModel(em)
    ensures LazyAfter(em, sb, trace, m, t).current == Held(em, sb, trace, m, t)
  {
    if trace != [] {
      var front, e := trace[..|trace| - 1], trace[|trace| - 1];
      LazyHolds(em, sb, front, m, t);
      CoveredStays(front, m);
      hide Drawn;
      if !Known(e) { UnknownChangesNothing(em, sb, trace, m, t); }
    }
  }

  lemma UsedSplits(em: Model, a: int, b: int, c: int, current: real)
    requires ValidModel(em)
    ensures Used(em, a, c, current) == Used(em, a, b, current) + Used(em, b, c, current)
    ensures Used(em, a, a, current) == 0.0 && Used(em, a, b, 0.0) == 0.0
  {
    assert Seconds(em, a, c) == Seconds(em, a, b) + Seconds(em, b, c);
    assert Seconds(em, a, a) == 0.0;
  }

  /** The lazy total, and what is pending at the last event, are the integral. */
  lemma {:induction false} LazyIsEager(em: Model, sb: bool, trace: seq<Event>, m: nat, t: Component)
    requires ValidModel(em)
    ensures var l := LazyAfter(em, sb, trace, m, t);
            Integral(em, sb, trace, m, t) == l.total + Used(em, l.time, LastTime(trace), l.current)
  {
    hide Used, Drawn, Covered;
    UsedSplits(em, 0, 0, 0, 0.0);
    if trace != [] {
      var front, e := trace[..|trace| - 1], trace[|trace| - 1];
      LazyIsEager(em, sb, front, m, t);
      LazyHolds(em, sb, front, m, t);
      LazyHolds(em, sb, trace, m, t);
      NotYetCovered(trace, m);
      var l := LazyAfter(em, sb, front, m, t);
      UsedSplits(em, l.time, LastTime(front), e.time, l.current);
      UsedSplits(em, l.time, e.time, e.time, l.current);
      UsedSplits(em, e.time, e.time, e.time, Drawn(em, sb, trace, m, t));
      UsedSplits(em, l.time, e.time, e.time, 0.0);
      UsedSplits(em, LastTime(front), e.time, e.time, 0.0);
    }
  }

  lemma NotYetCovered(trace: seq<Event>, m: nat)
    requires trace != []
    ensures var front, e := trace[..|trace| - 1], trace[|trace| - 1];
            && (Covered(front, m) ==> m <= MaxSeen(trace))
            && (Known(e) ==> (Covered(trace, m) <==> m <= MaxSeen(trace)))
  {
    CoveredStays(trace[..|trace| - 1], m);
  }

  /** No current of the model is negative. */
  ghost predicate NonNegative(em: Model) {
    && em.radioRx >= 0.0 && em.adc >= 0.0 && em.led >= 0.0 && em.sensorBoard >= 0.0
    && em.eepromRead >= 0.0 && em.eepromWrite >= 0.0
    && (forall name :: em.cpu(name) >= 0.0) && (forall name :: em.sensor(name) >= 0.0)
    && (forall power :: em.radioTx(power) >= 0.0)
  }

  lemma {:induction false} SumNonNegative(names: set<string>, f: string -> real)
    requires forall name :: f(name) >= 0.0
    ensures SumOf(names, f) >= 0.0
    decreases |names|
  {
    if names != {} {
      var k :| k in names && SumOf(names, f) == f(k) + SumOf(names - {k}, f);
      SumNonNegative(names - {k}, f);
    }
  }

  lemma DrawnNonNegative(em: Model, sb: bool, trace: seq<Event>, m: nat, t: Component)
    requires NonNegative(em)
    ensures Drawn(em, sb, trace, m, t) >= 0.0
  {
    hide Last, SumOf;
    SumNonNegative(LitSensors(trace, m), em.sensor);
    assert |LitLeds(trace, m)| as real * em.led >= 0.0;
  }

  /** Totals do not fall, if time does not go back and no current of the model is negative. */
  lemma {:induction false} TotalsGrow(em: Model, sb: bool, trace: seq<Event>, m: nat, t: Component)
    requires ValidModel(em) && Ordered(trace) && em.voltage >= 0.0 && trace != [] && NonNegative(em)
    ensures Integral(em, sb, trace, m, t) >= Integral(em, sb, trace[..|trace| - 1], m, t)
  {
    var front, e := trace[..|trace| - 1], trace[|trace| - 1];
    LastTimeBound(front, e.time);
    hide Used, Seconds, Drawn;
    DrawnNonNegative(em, sb, front, m, t);
    UsedNonNegative(em, LastTime(front), e.time, Drawn(em, sb, front, m, t));
  }

  lemma UsedNonNegative(em: Model, from: int, to: int, current: real)
    requires ValidModel(em) && em.voltage >= 0.0 && current >= 0.0 && from <= to
    ensures Used(em, from, to, current) >= 0.0
  {
    var seconds := Seconds(em, from, to);
    assert seconds >= 0.0;
    hide Seconds;
    assert seconds * current >= 0.0;
  }

  lemma {:induction false} LastTimeBound(trace: seq<Event>, bound: int)
    requires bound >= 0 && forall i | 0 <= i < |trace| :: trace[i].time <= bound
    ensures LastTime(trace) <= bound
  {
    if trace != [] { LastTimeBound(trace[..|trace| - 1], bound); }
  }

  /** While a current is held its component uses that current for the time that passes. */
  lemma {:induction false} SteadyUse(em: Model, sb: bool, trace: seq<Event>, i: nat, m: nat, t: Component, c: real)
    requires ValidModel(em) && i <= |trace| && Covered(trace[..i], m)
    requires forall k | i <= k < |trace| :: Drawn(em, sb, trace[..k], m, t) == c
    ensures Covered(trace, m)
    ensures Integral(em, sb, trace, m, t) ==
              Integral(em, sb, trace[..i], m, t) + Used(em, LastTime(trace[..i]), LastTime(trace), c)
  {
    hide Used, Drawn;
    UsedSplits(em, LastTime(trace[..i]), 0, 0, c);
    if i == |trace| {
      assert trace[..i] == trace;
    } else {
      var front, e := trace[..|trace| - 1], trace[|trace| - 1];
      assert front[..i] == trace[..i];
      forall k | i <= k < |front| ensures Drawn(em, sb, front[..k], m, t) == c { assert front[..k] == trace[..k]; }
      SteadyUse(em, sb, front, i, m, t, c);
      CoveredStays(front, m);
      UsedSplits(em, LastTime(trace[..i]), LastTime(front), e.time, c);
    }
  }

  /** Mote m, or a later one, occurs up to event i; mote 0 counts as seen from the beginning. */
  ghost predicate SeenBy(trace: seq<Event>, m: nat, i: int) {
    m == 0 || exists j | 0 <= j <= i && j < |trace| :: m <= trace[j].mote
  }

  lemma {:induction false} SeenIff(trace: seq<Event>, m: nat)
    ensures m <= MaxSeen(trace) <==> SeenBy(trace, m, |trace| - 1)
  {
    if trace != [] {
      var front := trace[..|trace| - 1];
      SeenIff(front, m);
      if m != 0 && SeenBy(front, m, |front| - 1) {
        var j :| 0 <= j < |front| && m <= front[j].mote;
        assert m <= trace[j].mote;
      }
    }
  }

  lemma SeenFront(trace: seq<Event>, m: nat, i: nat)
    requires i < |trace| - 1
    ensures SeenBy(trace[..|trace| - 1], m, i) <==> SeenBy(trace, m, i)
    ensures SeenBy(trace, m, i) ==> SeenBy(trace, m, |trace| - 1)
  {
    var front := trace[..|trace| - 1];
    if m != 0 && SeenBy(trace, m, i) {
      var j :| 0 <= j <= i && m <= trace[j].mote;
      assert front[j] == trace[j];
    }
    if m != 0 && SeenBy(front, m, i) {
      var j :| 0 <= j <= i && m <= front[j].mote;
      assert front[j] == trace[j];
    }
  }

  ghost predicate KnownSince(trace: seq<Event>, m: nat) {
    exists i | 0 <= i < |trace| :: Known(trace[i]) && SeenBy(trace, m, i)
  }

  lemma KnownMore(trace: seq<Event>, m: nat)
    requires trace != []
    ensures var (front, last) := (trace[..|trace| - 1], |trace| - 1);
            KnownSince(trace, m) <==> if Known(trace[last]) then SeenBy(trace, m, last) else KnownSince(front, m)
  {
    var front, last := trace[..|trace| - 1], |trace| - 1;
    hide SeenBy;
    if i: nat :| i < last && Known(trace[i]) && SeenBy(trace, m, i) {
      SeenFront(trace, m, i);
      assert Known(front[i]);
    }
    if i: nat :| i < last && Known(front[i]) && SeenBy(front, m, i) {
      SeenFront(trace, m, i);
      assert Known(trace[i]);
    }
  }

  /** A total runs from the first known event by which its mote had been seen. */
  lemma {:induction false} CoveredIff(trace: seq<Event>, m: nat)
    ensures Covered(trace, m) <==> exists i | 0 <= i < |trace| :: Known(trace[i]) && SeenBy(trace, m, i)
  {
    hide SeenBy;
    if trace != [] {
      CoveredIff(trace[..|trace| - 1], m);
      SeenIff(trace, m);
      KnownMore(trace, m);
    }
  }
}
