/** The sensor scheduler of src/sensor_manager.rs: a state machine ticked once per pass of
    the control loop. The slow one-wire conversion is waited for by re-checking a clock the
    caller supplies, never by sleeping. The stored values are the source's f32 fields,
    modelled as exact reals: the temperature in degrees C, the pH in pH units. */
module Sensors {
  import opened Wrappers
  import OneWire
  import Ph

  datatype SensorState =
    | Idle
    | TemperatureConverting(startTime: nat)
    | TemperatureReady
    | PHReading
    | PHReady

  datatype SensorValues = SensorValues(temperature: real, ph: real)

  /** What the scheduler can store: a whole number of tenths of a degree in the DS18B20's
      decodable range, and a whole number of hundredths of pH in the calibrated band. */
  predicate Plausible(v: SensorValues) {
    var t, p := v.temperature * 10.0, v.ph * 100.0;
    && t == t.Floor as real && -2048.0 <= t <= 2047.0
    && p == p.Floor as real && Ph.PH_MIN as real <= p <= Ph.PH_MAX as real
  }

  /** The state after one tick of update. */
  function Next(s: SensorState, now: nat, showingTemperature: bool): SensorState {
    match s
    case Idle => if showingTemperature then PHReading else TemperatureConverting(now)
    case TemperatureConverting(start) =>
      if now >= start + OneWire.TEMP_CONVERSION_TIME_MS then TemperatureReady else s
    case TemperatureReady => Idle
    case PHReading => PHReady
    case PHReady => Idle
  }

  /** Storing a decoded temperature or a converted pH keeps the values plausible. */
  lemma StorePlausible(v: SensorValues, t: int, p: int)
    requires Plausible(v)
    ensures -2048 <= t <= 2047 ==> Plausible(v.(temperature := t as real / 10.0))
    ensures Ph.PH_MIN <= p <= Ph.PH_MAX ==> Plausible(v.(ph := p as real / 100.0))
  {
    assert (t as real / 10.0) * 10.0 == t as real;
    assert (p as real / 100.0) * 100.0 == p as real;
  }

  class SensorManager {
    var state: SensorState
    var values: SensorValues

    ghost predicate Valid()
      reads this
    {
      Plausible(values)
    }

    /** new: idle, 25.0 degrees C and pH 7.00. */
    constructor ()
      ensures Valid()
      ensures state == Idle
      ensures values == SensorValues(25.0, 7.0)
    {
      state := Idle;
      values := SensorValues(25.0, 7.0);
    }

    /** start_initial_temperature_reading: starts a conversion and waits as if it had
        started at time 0. */
    method StartInitialTemperatureReading(presence: bool) returns (wire: seq<OneWire.Slot>)
      requires Valid()
      modifies this
      ensures Valid()
      ensures state == TemperatureConverting(0)
      ensures values == old(values)
      ensures wire == OneWire.ConversionWire(presence)
    {
      wire := OneWire.StartTemperatureConversion(presence);
      state := TemperatureConverting(0);
    }

    /** start_initial_temperature_reading as evidently intended: the conversion is recorded
        as started at the clock reading `now` when it is issued, as update does from Idle,
        so ReadWaitsFromInitialStart bounds the first read from the real start. */
    method StartInitialTemperatureReadingAt(now: nat, presence: bool) returns (wire: seq<OneWire.Slot>)
      requires Valid()
      modifies this
      ensures Valid()
      ensures state == TemperatureConverting(now)
      ensures values == old(values)
      ensures wire == OneWire.ConversionWire(presence)
    {
      wire := OneWire.StartTemperatureConversion(presence);
      state := TemperatureConverting(now);
    }

    /** update. The bus and the ADC are inputs: `presence` is what a reset on this tick
        samples, `scratchpad` the sixteen levels a scratchpad read would sample, `phRaw`
        the ADC result; `wire` is what the tick drives onto the one-wire bus. */
    method Update(now: nat, showingTemperature: bool, presence: bool, scratchpad: seq<bool>, phRaw: int)
      returns (wire: seq<OneWire.Slot>)
      requires Valid()
      requires |scratchpad| == 16 && 0 <= phRaw < 0x1_0000
      modifies this
      ensures Valid()
      ensures state == Next(old(state), now, showingTemperature)
      ensures old(state) == Idle && showingTemperature ==>
                state == PHReading && wire == [] && values == old(values)
      ensures old(state) == Idle && !showingTemperature ==>
                state == TemperatureConverting(now) && values == old(values)
                && wire == OneWire.ConversionWire(presence)
      ensures old(state).TemperatureConverting? ==>
                && wire == [] && values == old(values)
                && (now < old(state).startTime + OneWire.TEMP_CONVERSION_TIME_MS ==> state == old(state))
                && (now >= old(state).startTime + OneWire.TEMP_CONVERSION_TIME_MS ==> state == TemperatureReady)
      ensures old(state) == TemperatureReady ==>
                && state == Idle
                && wire == OneWire.ReadoutWire(presence)
                && values.ph == old(values).ph
                && values.temperature == match OneWire.Readout(presence, scratchpad)
                                         case Some(t) => t as real / 10.0
                                         case None => old(values).temperature
      ensures old(state) == PHReading ==>
                state == PHReady && wire == [] && values == old(values).(ph := Ph.AdcToPh(phRaw) as real / 100.0)
      ensures old(state) == PHReady ==> state == Idle && wire == [] && values == old(values)
    {
      wire := [];
      match state
      case Idle =>
        if showingTemperature {
          state := PHReading;
        } else {
          wire := OneWire.StartTemperatureConversion(presence);
          state := TemperatureConverting(now);
        }
      case TemperatureConverting(startTime) =>
        if now >= startTime + OneWire.TEMP_CONVERSION_TIME_MS {
          state := TemperatureReady;
        }
      case TemperatureReady =>
        var temp;
        temp, wire := OneWire.ReadTemperatureAfterConversion(presence, scratchpad);
        if temp.Some? {
          StorePlausible(values, temp.value, 0);
          values := values.(temperature := temp.value as real / 10.0);
        }
        state := Idle;
      case PHReading =>
        var phValue := Ph.AdcToPh(phRaw);
        StorePlausible(values, 0, phValue);
        values := values.(ph := phValue as real / 100.0);
        state := PHReady;
      case PHReady =>
        state := Idle;
    }
  }

  /** One pass of the control loop as the scheduler sees it. */
  datatype Tick = Tick(now: nat, showingTemperature: bool)

  /** The states before each tick of a run, and after the last. */
  function States(s: SensorState, ticks: seq<Tick>): (r: seq<SensorState>)
    ensures |r| == |ticks| + 1 && r[0] == s
    decreases |ticks|
  {
    if ticks == [] then [s]
    else [s] + States(Next(s, ticks[0].now, ticks[0].showingTemperature), ticks[1..])
  }

  ghost predicate Monotone(ticks: seq<Tick>) {
    forall i, j :: 0 <= i <= j < |ticks| ==> ticks[i].now <= ticks[j].now
  }

  lemma {:induction false} StatesStep(s: SensorState, ticks: seq<Tick>, i: nat)
    requires i < |ticks|
    decreases i
    ensures States(s, ticks)[i + 1] == Next(States(s, ticks)[i], ticks[i].now, ticks[i].showingTemperature)
  {
    if i > 0 {
      StatesStep(Next(s, ticks[0].now, ticks[0].showingTemperature), ticks[1..], i - 1);
    }
  }

  /** A run that is converting at step i, having started that conversion at time t0,
      either started it at some earlier step j, from Idle with temperature off-screen, at
      time t0 (j >= 0), or was already converting since t0 when the run began (j == -1, the
      state start_initial_temperature_reading leaves); either way it has been converting
      ever since. */
  lemma {:induction false} ConversionStarted(s: SensorState, ticks: seq<Tick>, i: nat, t0: nat) returns (j: int)
    requires i <= |ticks|
    requires States(s, ticks)[i] == TemperatureConverting(t0)
    ensures -1 <= j < i
    ensures j == -1 ==> s == TemperatureConverting(t0)
    ensures j >= 0 ==> States(s, ticks)[j] == Idle && !ticks[j].showingTemperature && ticks[j].now == t0
    ensures forall m :: j < m <= i ==> States(s, ticks)[m] == TemperatureConverting(t0)
  {
    var r := States(s, ticks);
    if i == 0 {
      j := -1;
    } else {
      StatesStep(s, ticks, i - 1);
      if r[i - 1] == TemperatureConverting(t0) {
        j := ConversionStarted(s, ticks, i - 1, t0);
      } else {
        j := i - 1;
      }
    }
  }

  /** The non-blocking wait is safe: on a run from Idle with a clock that never goes back,
      the scratchpad is read (state TemperatureReady) only at least 750 ms after the one
      conversion it collects was started, and no other conversion started in between. */
  lemma ReadWaitsForConversion(ticks: seq<Tick>, k: nat) returns (j: nat)
    requires Monotone(ticks)
    requires k < |ticks|
    requires States(Idle, ticks)[k] == TemperatureReady
    ensures j < k
    ensures States(Idle, ticks)[j] == Idle && !ticks[j].showingTemperature
    ensures ticks[j].now + OneWire.TEMP_CONVERSION_TIME_MS <= ticks[k].now
    ensures forall m :: j < m < k ==> States(Idle, ticks)[m].TemperatureConverting?
  {
    var r := States(Idle, ticks);
    assert k > 0;
    StatesStep(Idle, ticks, k - 1);
    var t0 := r[k - 1].startTime;
    var start := ConversionStarted(Idle, ticks, k - 1, t0);
    j := start;
  }

  /** The same for the run start_initial_temperature_reading begins, converting since t0
      without passing through Idle: a read collects either that first conversion, at least
      750 ms after t0 with the run converting until then (j == -1), or a conversion
      started later from Idle, at least 750 ms before, as on a run from Idle. */
  lemma ReadWaitsFromInitialStart(t0: nat, ticks: seq<Tick>, k: nat) returns (j: int)
    requires Monotone(ticks)
    requires k < |ticks|
    requires States(TemperatureConverting(t0), ticks)[k] == TemperatureReady
    ensures -1 <= j < k
    ensures j == -1 ==> t0 + OneWire.TEMP_CONVERSION_TIME_MS <= ticks[k].now
    ensures j >= 0 ==>
              && States(TemperatureConverting(t0), ticks)[j] == Idle && !ticks[j].showingTemperature
              && ticks[j].now + OneWire.TEMP_CONVERSION_TIME_MS <= ticks[k].now
    ensures forall m :: j < m < k ==> States(TemperatureConverting(t0), ticks)[m].TemperatureConverting?
  {
    var s := TemperatureConverting(t0);
    var r := States(s, ticks);
    assert k > 0;
    StatesStep(s, ticks, k - 1);
    var t1 := r[k - 1].startTime;
    j := ConversionStarted(s, ticks, k - 1, t1);
  }

  /** As written, start_initial_temperature_reading records the start time 0 whatever the
      clock reads. A conversion issued when the clock reads `started` >= 750 ms is then
      marked ready on the first tick and its scratchpad read on the second, before it has
      run for 750 ms: started at 800 ms, it is read at 801 ms. */
  lemma InitialStartReadEarly(started: nat, now: nat, showingTemperature: bool)
    requires OneWire.TEMP_CONVERSION_TIME_MS <= started <= now < started + OneWire.TEMP_CONVERSION_TIME_MS
    ensures States(TemperatureConverting(0), [Tick(now, showingTemperature)])
         == [TemperatureConverting(0), TemperatureReady]
    ensures States(TemperatureConverting(0), [Tick(800, false), Tick(801, false)])
         == [TemperatureConverting(0), TemperatureReady, Idle]
  {
  }

  /** The scheduler sequence: a conversion started at t = 0 is still pending at 700 ms,
      ready at 760 ms, and collected on the next tick whatever the display shows. */
  lemma ConversionSchedule()
    ensures States(Idle, [Tick(0, false), Tick(700, false), Tick(760, false), Tick(770, true)])
         == [Idle, TemperatureConverting(0), TemperatureConverting(0), TemperatureReady, Idle]
  {
  }
}
