/** The display mode controller of src/display_controller.rs: a dwell timer that alternates
    the display between the temperature and the pH, and the choice of which stored value
    a refresh formats. */
module Controller {
  import Display
  import Sensors

  datatype DisplayMode = PH | Temperature

  /** The mode check_mode_switch switches to. */
  function Toggled(m: DisplayMode): (r: DisplayMode)
    ensures r != m
  {
    match m
    case Temperature => PH
    case PH => Temperature
  }

  /** Two switches restore the mode. */
  lemma ToggleTwice(m: DisplayMode)
    ensures Toggled(Toggled(m)) == m
  {
  }

  /** The value update_display hands to display(). */
  function Selected(mode: DisplayMode, values: Sensors.SensorValues): (x: real)
    ensures mode == Temperature ==> x == values.temperature
    ensures mode == PH ==> x == values.ph
  {
    match mode
    case Temperature => values.temperature
    case PH => values.ph
  }

  /** The dwell timer as a value: the mode shown and when it was last switched. */
  datatype Timer = Timer(mode: DisplayMode, since: nat)

  /** One check_mode_switch at time now. */
  function Check(t: Timer, dwell: nat, now: nat): Timer {
    if now >= t.since + dwell then Timer(Toggled(t.mode), now) else t
  }

  /** The timer after checking at each of the given times in turn. */
  function Run(t: Timer, dwell: nat, times: seq<nat>): Timer
    decreases |times|
  {
    if times == [] then t else Run(Check(t, dwell, times[0]), dwell, times[1..])
  }

  /** With a positive dwell a second check at the same time never switches again: at
      most one switch per dwell boundary. */
  lemma CheckSettles(t: Timer, dwell: nat, now: nat)
    requires dwell > 0
    ensures Check(Check(t, dwell, now), dwell, now) == Check(t, dwell, now)
  {
  }

  /** The times at which those checks switched. */
  function Switches(t: Timer, dwell: nat, times: seq<nat>): (sw: seq<nat>)
    ensures forall i :: 0 <= i < |sw| ==> sw[i] in times
    decreases |times|
  {
    if times == [] then []
    else
      var rest := Switches(Check(t, dwell, times[0]), dwell, times[1..]);
      assert forall i :: 0 <= i < |rest| ==> rest[i] in times by {
        forall i | 0 <= i < |rest| ensures rest[i] in times {
          assert rest[i] in times[1..];
        }
      }
      if times[0] >= t.since + dwell then [times[0]] + rest else rest
  }

  /** Over any run of checks the mode has switched once per recorded switch: it is the
      starting mode after an even number of them and the other mode after an odd number,
      and the last switch time is the timer's new start. */
  lemma {:induction false} RunAlternates(t: Timer, dwell: nat, times: seq<nat>)
    ensures var sw := Switches(t, dwell, times);
            && Run(t, dwell, times).mode == (if |sw| % 2 == 0 then t.mode else Toggled(t.mode))
            && Run(t, dwell, times).since == (if sw == [] then t.since else sw[|sw| - 1])
    decreases |times|
  {
    if times != [] {
      var t' := Check(t, dwell, times[0]);
      RunAlternates(t', dwell, times[1..]);
      ToggleTwice(t.mode);
    }
  }

  /** A clock that never goes back sees every switch at least a dwell after the previous
      one (and after the initial start time). */
  lemma {:induction false} SwitchesSpaced(t: Timer, dwell: nat, times: seq<nat>)
    requires forall i, j :: 0 <= i <= j < |times| ==> times[i] <= times[j]
    ensures var sw := Switches(t, dwell, times);
            && (sw != [] ==> t.since + dwell <= sw[0])
            && forall i :: 0 <= i < |sw| - 1 ==> sw[i] + dwell <= sw[i + 1]
    decreases |times|
  {
    if times != [] {
      var t' := Check(t, dwell, times[0]);
      var tail := times[1..];
      assert forall i, j :: 0 <= i <= j < |tail| ==> tail[i] <= tail[j] by {
        forall i, j | 0 <= i <= j < |tail| ensures tail[i] <= tail[j] {
          assert tail[i] == times[i + 1] && tail[j] == times[j + 1];
        }
      }
      SwitchesSpaced(t', dwell, tail);
      var rest := Switches(t', dwell, tail);
      if rest != [] {
        assert rest[0] in tail;
        if times[0] < t.since + dwell {
          assert t' == t;
        } else {
          assert t'.since == times[0];
        }
      }
    }
  }

  class DisplayController {
    var mode: DisplayMode
    var modeSwitchTime: nat
    const dwell: nat   // display_time_per_reading_ms

    /** new: temperature first, switch timer at 0. */
    constructor (dwell: nat)
      ensures mode == Temperature && modeSwitchTime == 0 && this.dwell == dwell
    {
      mode := Temperature;
      modeSwitchTime := 0;
      this.dwell := dwell;
    }

    function State(): Timer
      reads this
    {
      Timer(mode, modeSwitchTime)
    }

    /** initialize: the display's buffer initialisation, with auto refresh left off. */
    method Initialize(m: Display.Multiplexer)
      requires m.Valid()
      modifies m, m.digits, m.points
      ensures m.Valid() && m.digits == old(m.digits) && m.points == old(m.points)
      ensures m.digits[..] == [8, 8, 8, 8] && m.points[..] == [false, false, false, false]
      ensures m.current == 0 && !m.autoUpdate
    {
      m.Initialize();
      m.SetAutoUpdate(false);
    }

    /** check_mode_switch: switches exactly when a dwell has passed since the last switch,
        restarting the dwell at now. */
    method CheckModeSwitch(now: nat) returns (switched: bool)
      modifies this`mode, this`modeSwitchTime
      ensures switched <==> now >= old(modeSwitchTime) + dwell
      ensures switched ==> mode == Toggled(old(mode)) && modeSwitchTime == now
      ensures !switched ==> mode == old(mode) && modeSwitchTime == old(modeSwitchTime)
      ensures State() == Check(old(State()), dwell, now)
      ensures dwell > 0 ==> now < modeSwitchTime + dwell
    {
      switched := false;
      if now >= modeSwitchTime + dwell {
        mode := Toggled(mode);
        modeSwitchTime := now;
        switched := true;
      }
    }

    /** is_showing_temperature: the flag the sensor scheduler is ticked with. */
    function IsShowingTemperature(): (r: bool)
      reads this
      ensures r <==> mode == Temperature
      ensures !r <==> mode == PH
    {
      mode == Temperature
    }

    /** update_display: formats the value of the current mode, then refreshes one digit
        unless the timer interrupt does the refreshing. */
    method UpdateDisplay(values: Sensors.SensorValues, m: Display.Multiplexer)
      returns (events: seq<Display.PinEvent>)
      requires m.Valid()
      modifies m.digits, m.points, m`current
      ensures m.Valid()
      ensures m.digits[..] == Display.Render(Selected(mode, values)).digits
      ensures m.points[..] == Display.Render(Selected(mode, values)).points
      ensures m.autoUpdate ==> m.current == old(m.current) && events == []
      ensures !m.autoUpdate ==>
                && m.current == (old(m.current) + 1) % 4
                && events == Display.RefreshEvents(m.digits[old(m.current)],
                                                   m.points[old(m.current)], old(m.current))
    {
      ShowSelected(values, m);
      events := m.Update();
    }

    /** The formatting half of update_display: the value of the current mode goes to
        display(). */
    method ShowSelected(values: Sensors.SensorValues, m: Display.Multiplexer)
      requires m.Valid()
      modifies m.digits, m.points
      ensures m.Valid()
      ensures m.digits[..] == Display.Render(Selected(mode, values)).digits
      ensures m.points[..] == Display.Render(Selected(mode, values)).points
    {
      match mode {
        case Temperature => m.Display(values.temperature);
        case PH => m.Display(values.ph);
      }
    }
  }

  /** Every value the scheduler can store is shown rounded without the carry loss of
      display(): whichever mode is selected, display() agrees with RenderRounded. */
  lemma ShownWithoutCarryLoss(mode: DisplayMode, values: Sensors.SensorValues)
    requires Sensors.Plausible(values)
    ensures Display.Render(Selected(mode, values)) == Display.RenderRounded(Selected(mode, values))
  {
    var t := (values.temperature * 10.0).Floor;
    var p := (values.ph * 100.0).Floor;
    assert values.temperature == t as real / 10.0;
    assert values.ph == p as real / 100.0;
    Display.TemperatureShownRounded(t);
    Display.PhShownRounded(p);
  }
}
