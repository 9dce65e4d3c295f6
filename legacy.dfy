/** The older, blocking firmware of src/main.rs: one pass of its loop reads the DS18B20
    with up to three attempts, scales the pH ADC reading with its own formula, and reports
    both over the serial line. The bus outcome of each attempt and the ADC result are
    inputs; the delays between the steps are not modelled. */
module Legacy {
  import opened Wrappers
  import OneWire
  import Uart

  const RETRY_COUNT: nat := 3

  /** The sentinel stored after a pass that found no sensor. */
  const NOT_FOUND: int := -9990

  /** What the bus gives one attempt: the presence pulse of the reset before the
      conversion, that of the reset before the read, and the two scratchpad bytes the
      read returns (used only when both resets saw the sensor). */
  datatype Attempt = Attempt(convertPresence: bool, readPresence: bool, low: bv8, high: bv8)

  /** The attempt's reading, when it reached the scratchpad and the bytes are not a
      sentinel. */
  function Reading(a: Attempt): (t: Option<int>)
    ensures t.Some? <==> a.convertPresence && a.readPresence
                         && OneWire.Combine(a.low, a.high) != 0 && OneWire.Combine(a.low, a.high) != 0xFFFF
    ensures t.Some? ==> -2048 <= t.value <= 2047
  {
    if a.convertPresence && a.readPresence then OneWire.DecodeScratchpad(OneWire.Combine(a.low, a.high))
    else None
  }

  /** The variables the retry loop keeps: whether a sensor answered, the temperature, the
      last raw bytes, and how many attempts have been made. */
  datatype Readings = Readings(found: bool, temperature: int, low: bv8, high: bv8, made: nat)

  /** The effect of one attempt, before the break check. */
  function Try(r: Readings, a: Attempt): Readings {
    var found := r.found || a.convertPresence;
    var read := a.convertPresence && a.readPresence;
    Readings(found,
             match Reading(a) case Some(t) => t case None => r.temperature,
             if read then a.low else r.low,
             if read then a.high else r.high,
             r.made + 1)
  }

  /** The retry loop: attempts in order until the first valid reading. */
  function Retry(attempts: seq<Attempt>, r: Readings): (out: Readings)
    ensures -0x8000 <= r.temperature < 0x8000 ==> -0x8000 <= out.temperature < 0x8000
    decreases |attempts|
  {
    if attempts == [] then r
    else
      var r' := Try(r, attempts[0]);
      if Reading(attempts[0]).Some? then r' else Retry(attempts[1..], r')
  }

  /** The loop's guarantees: it makes at most one attempt per outcome supplied, stops right
      after the first valid reading, reports a sensor exactly when some attempt made so far
      saw one at its first reset, and changes the temperature only for that first valid
      reading. */
  lemma {:induction false} RetryOutcome(attempts: seq<Attempt>, r: Readings)
    ensures var out := Retry(attempts, r);
            && r.made <= out.made <= r.made + |attempts|
            && (attempts != [] ==> out.made > r.made)
            && (forall k :: 0 <= k < out.made - r.made - 1 ==> Reading(attempts[k]).None?)
            && (out.made < r.made + |attempts| ==> Reading(attempts[out.made - r.made - 1]).Some?)
            && (out.found <==> r.found || exists k :: 0 <= k < out.made - r.made && attempts[k].convertPresence)
            && out.temperature == (if out.made > r.made && Reading(attempts[out.made - r.made - 1]).Some?
                                   then Reading(attempts[out.made - r.made - 1]).value
                                   else r.temperature)
    decreases |attempts|
  {
    if attempts != [] {
      var r' := Try(r, attempts[0]);
      if Reading(attempts[0]).None? {
        var tail := attempts[1..];
        RetryOutcome(tail, r');
        var out := Retry(tail, r');
        assert Retry(attempts, r) == out;
        forall k | 0 <= k < out.made - r.made - 1 ensures Reading(attempts[k]).None? {
          if k > 0 {
            assert attempts[k] == tail[k - 1];
          }
        }
        if out.made < r.made + |attempts| {
          assert attempts[out.made - r.made - 1] == tail[out.made - r'.made - 1];
        }
        if out.found {
          if !r.found && !attempts[0].convertPresence {
            var k :| 0 <= k < out.made - r'.made && tail[k].convertPresence;
            assert attempts[k + 1] == tail[k];
          }
        } else {
          forall k | 0 <= k < out.made - r.made ensures !attempts[k].convertPresence {
            if k > 0 {
              assert attempts[k] == tail[k - 1];
            }
          }
        }
        if out.made > r'.made {
          assert attempts[out.made - r.made - 1] == tail[out.made - r'.made - 1];
        }
      }
    }
  }

  /** Unrolling the retry loop at attempt k. */
  lemma RetryStep(attempts: seq<Attempt>, k: nat, r: Readings)
    requires k < |attempts|
    ensures Retry(attempts[k..], r)
         == if Reading(attempts[k]).Some? then Try(r, attempts[k]) else Retry(attempts[k + 1..], Try(r, attempts[k]))
  {
    assert attempts[k..][0] == attempts[k] && attempts[k..][1..] == attempts[k + 1..];
  }

  /** The pH scaling of the older loop, raw * 1400 / 1023 computed in u32 (no overflow for
      a u16 input) and truncated to u16. */
  function LegacyPh(raw: nat): (ph: nat)
    requires raw < 0x1_0000
    ensures ph < 0x1_0000
    ensures raw <= 47888 ==> ph == raw * 1400 / 1023
  {
    (raw * 1400 / 1023) % 0x1_0000
  }

  /** For a 10-bit ADC result the scaled pH is at most 14.00. */
  lemma LegacyPhBound(raw: nat)
    requires raw <= 1023
    ensures LegacyPh(raw) <= 1400
    ensures raw == 1023 ==> LegacyPh(raw) == 1400
  {
  }

  /** The scaling never decreases while the u16 truncation does not bite (raw up to 47888,
      which includes every 10-bit ADC result). */
  lemma LegacyPhMonotone(a: nat, b: nat)
    requires a <= b <= 47888
    ensures LegacyPh(a) <= LegacyPh(b)
  {
    assert a * 1400 <= b * 1400;
  }

  /** uart_send_temperature: "Error" for the sentinel, otherwise the value in tenths with a
      sign for negative values. */
  function TemperatureText(value: int): string
    requires -0x8000 <= value < 0x8000
  {
    if value == NOT_FOUND then "Error"
    else if value < 0 then "-" + Uart.DecimalText(-value, 1)
    else Uart.DecimalText(value, 1)
  }

  method SendTemperature(value: int) returns (out: string)
    requires -0x8000 <= value < 0x8000
    ensures out == TemperatureText(value)
  {
    if value == NOT_FOUND {
      out := Uart.SendString("Error");
      return;
    }
    if value < 0 {
      // -value as u16: the i16 negation of -32768 wraps back to -32768, whose u16 image
      // is 32768, which is -value again
      out := Uart.SendDecimal(-value, 1);
      out := "-" + out;
    } else {
      out := Uart.SendDecimal(value, 1);
    }
  }

  /** A text of whole digits, a point and one digit that reads back as m tenths. */
  predicate Tenths(text: string, m: int) {
    var n := |text|;
    && n >= 3 && text[n - 2] == '.' && '0' <= text[n - 1] <= '9'
    && Uart.Value(text[..n - 2], 10) * 10 + Uart.Value(text[n - 1..], 10) == m
  }

  /** The unsigned temperature text reads back as the magnitude. */
  lemma MagnitudeTenths(v: nat)
    requires v < 0x1_0000
    ensures Tenths(Uart.DecimalText(v, 1), v)
    ensures '0' <= Uart.DecimalText(v, 1)[0] <= '9'
  {
    Uart.DecimalTextRoundTrip(v, 1);
    assert Uart.Pow10(1) == 10;
  }

  /** Parsing the temperature text: apart from the sentinel it is a sign for negative
      values, whole degrees, a point and one digit, and it reads back as the value in
      tenths. */
  lemma TemperatureTextRoundTrip(value: int)
    requires -0x8000 <= value < 0x8000 && value != NOT_FOUND
    ensures |TemperatureText(value)| >= 1
    ensures TemperatureText(value)[0] == '-' <==> value < 0
    ensures value < 0 ==> Tenths(TemperatureText(value)[1..], -value)
    ensures value >= 0 ==> Tenths(TemperatureText(value), value)
  {
    if value < 0 {
      MagnitudeTenths(-value);
      var d := Uart.DecimalText(-value, 1);
      assert TemperatureText(value) == "-" + d;
      assert ("-" + d)[1..] == d;
    } else {
      MagnitudeTenths(value);
    }
  }

  /** uart_send_ph: hundredths with two places. */
  method SendPh(value: nat) returns (out: string)
    requires value < 0x1_0000
    ensures out == Uart.DecimalText(value, 2)
  {
    out := Uart.SendDecimal(value, 2);
  }

  /** The report line of one pass. */
  function ReadingsLine(found: bool, temperature: int, ph: nat): string
    requires -0x8000 <= temperature < 0x8000 && ph < 0x1_0000
  {
    "DS18B20: "
    + (if found then "Found - T:" + TemperatureText(temperature) else "Not found")
    + " pH:" + Uart.DecimalText(ph, 2) + "\r\n"
  }

  /** The raw-values line of one pass: the scratchpad bytes in hexadecimal, the ADC result
      in decimal. */
  function RawLine(found: bool, low: bv8, high: bv8, phRaw: nat): string
    requires phRaw < 0x1_0000
  {
    "Raw values - T: 0x"
    + (if found then Uart.IntegerText(low as nat, 16) + " 0x" + Uart.IntegerText(high as nat, 16) else "?? ??")
    + " pH: " + Uart.IntegerText(phRaw, 10) + "\r\n"
  }

  /** Cutting a three-part text back into its parts. */
  lemma Parts(a: string, b: string, c: string)
    ensures (a + b + c)[..|a|] == a
    ensures (a + b + c)[|a|..|a| + |b|] == b
    ensures (a + b + c)[|a| + |b|..] == c
  {
    assert (a + b + c)[..|a|] == a;
    assert (a + b + c)[|a|..|a| + |b|] == b;
    assert (a + b + c)[|a| + |b|..] == c;
  }

  /** The report line names the sensor and then says "Not found" exactly when no sensor
      answered, the pH caption following at once with no temperature; otherwise the
      temperature text follows "Found - T:". The line ends with CR LF. */
  lemma ReadingsLineReports(found: bool, temperature: int, ph: nat)
    requires -0x8000 <= temperature < 0x8000 && ph < 0x1_0000
    ensures var line := ReadingsLine(found, temperature, ph);
            && |line| >= 22
            && line[..9] == "DS18B20: "
            && (line[9..18] == "Not found" <==> !found)
            && (!found ==> line[18..22] == " pH:")
            && (found ==> 19 + |TemperatureText(temperature)| <= |line|
                          && line[9..19] == "Found - T:"
                          && line[19..19 + |TemperatureText(temperature)|] == TemperatureText(temperature))
            && line[|line| - 2..] == "\r\n"
  {
    ReportShape(found, TemperatureText(temperature), Uart.DecimalText(ph, 2));
  }

  /** ReadingsLineReports for any temperature and pH texts. */
  lemma ReportShape(found: bool, text: string, phText: string)
    ensures var line := "DS18B20: " + (if found then "Found - T:" + text else "Not found")
                        + " pH:" + phText + "\r\n";
            && |line| >= 22
            && line[..9] == "DS18B20: "
            && (line[9..18] == "Not found" <==> !found)
            && (!found ==> line[18..22] == " pH:")
            && (found ==> 19 + |text| <= |line| && line[9..19] == "Found - T:" && line[19..19 + |text|] == text)
            && line[|line| - 2..] == "\r\n"
  {
    var head: string := "DS18B20: ";
    var mid: string := if found then "Found - T:" + text else "Not found";
    var rest: string := " pH:" + phText + "\r\n";
    var line := head + mid + " pH:" + phText + "\r\n";
    assert line == head + mid + rest;
    Parts(head, mid, rest);
    Parts(" pH:", phText, "\r\n");
    assert line[|line| - 2..] == rest[|rest| - 2..];
    if found {
      Parts("Found - T:", text, "");
      assert line[9..19] == mid[..10];
      assert line[19..19 + |text|] == mid[10..];
      assert line[9] == 'F' != "Not found"[0];
    } else {
      assert line[18..22] == rest[..4];
    }
  }

  /** The raw-values line shows "?? ??" when no sensor answered, and otherwise starts the
      bytes with a digit or letter, so the two cases cannot be confused; the ADC reading
      in decimal ends the line before CR LF. */
  lemma RawLineReports(found: bool, low: bv8, high: bv8, phRaw: nat)
    requires phRaw < 0x1_0000
    ensures var line := RawLine(found, low, high, phRaw);
            var phText := Uart.IntegerText(phRaw, 10);
            && |line| >= 21 + |phText|
            && line[..18] == "Raw values - T: 0x"
            && (!found ==> line[18..23] == "?? ??" && line[23..28] == " pH: ")
            && (found ==> ('0' <= line[18] <= '9' || 'A' <= line[18] <= 'Z'))
            && line[|line| - 2 - |phText|..] == phText + "\r\n"
  {
    var lowText := Uart.IntegerText(low as nat, 16);
    LeadingDigit(low);
    RawShape(found, lowText, Uart.IntegerText(high as nat, 16), Uart.IntegerText(phRaw, 10));
  }

  /** A byte in hexadecimal starts with a digit or a letter. */
  lemma LeadingDigit(b: bv8)
    ensures var text := Uart.IntegerText(b as nat, 16);
            '0' <= text[0] <= '9' || 'A' <= text[0] <= 'Z'
  {
    if b != 0 {
      Uart.IntegerTextRoundTrip(b as nat, 16);
    }
  }

  /** RawLineReports for any byte and reading texts. */
  lemma RawShape(found: bool, lowText: string, highText: string, phText: string)
    requires |lowText| >= 1 && ('0' <= lowText[0] <= '9' || 'A' <= lowText[0] <= 'Z')
    ensures var line := "Raw values - T: 0x" + (if found then lowText + " 0x" + highText else "?? ??")
                        + " pH: " + phText + "\r\n";
            && |line| >= 21 + |phText|
            && line[..18] == "Raw values - T: 0x"
            && (!found ==> line[18..23] == "?? ??" && line[23..28] == " pH: ")
            && (found ==> ('0' <= line[18] <= '9' || 'A' <= line[18] <= 'Z'))
            && line[|line| - 2 - |phText|..] == phText + "\r\n"
  {
    var head: string := "Raw values - T: 0x";
    var mid: string := if found then lowText + " 0x" + highText else "?? ??";
    var tail: string := phText + "\r\n";
    var rest: string := " pH: " + tail;
    var line := head + mid + " pH: " + phText + "\r\n";
    assert line == head + mid + rest;
    Parts(head, mid, rest);
    Parts(" pH: ", tail, "");
    assert line[|line| - |tail|..] == tail;
    if found {
      assert line[18] == mid[0] == lowText[0];
    } else {
      assert line[18..23] == mid;
      assert line[23..28] == rest[..5];
    }
  }

  method SendReadingsLine(found: bool, temperature: int, ph: nat) returns (out: string)
    requires -0x8000 <= temperature < 0x8000 && ph < 0x1_0000
    ensures out == ReadingsLine(found, temperature, ph)
  {
    var start := Uart.SendString("DS18B20: ");
    var middle: string;
    if found {
      var caption := Uart.SendString("Found - T:");
      var value := SendTemperature(temperature);
      middle := caption + value;
    } else {
      middle := Uart.SendString("Not found");
    }
    var caption := Uart.SendString(" pH:");
    var value := SendPh(ph);
    var end := Uart.SendString("\r\n");
    out := start + middle + caption + value + end;
  }

  method SendRawLine(found: bool, low: bv8, high: bv8, phRaw: nat) returns (out: string)
    requires phRaw < 0x1_0000
    ensures out == RawLine(found, low, high, phRaw)
  {
    var start := Uart.SendString("Raw values - T: 0x");
    var middle: string;
    if found {
      var lowText := Uart.SendInteger(low as nat, 16);
      var separator := Uart.SendString(" 0x");
      var highText := Uart.SendInteger(high as nat, 16);
      middle := lowText + separator + highText;
    } else {
      middle := Uart.SendString("?? ??");
    }
    var caption := Uart.SendString(" pH: ");
    var value := Uart.SendInteger(phRaw, 10);
    var end := Uart.SendString("\r\n");
    out := start + middle + caption + value + end;
  }

  /** The state main keeps from one pass to the next. */
  class Monitor {
    var temperature: int
    var rawLow: bv8
    var rawHigh: bv8

    ghost predicate Valid()
      reads this
    {
      -0x8000 <= temperature < 0x8000
    }

    constructor ()
      ensures Valid() && temperature == 0 && rawLow == 0 && rawHigh == 0
    {
      temperature := 0;
      rawLow, rawHigh := 0, 0;
    }

    /** The retry loop of one pass: outcome k of `attempts` is what attempt k would see. */
    method ReadTemperature(attempts: seq<Attempt>) returns (found: bool, made: nat)
      requires Valid() && |attempts| == RETRY_COUNT
      modifies this
      ensures Valid()
      ensures var out := Retry(attempts, Readings(false, old(temperature), old(rawLow), old(rawHigh), 0));
              found == out.found && made == out.made
              && temperature == out.temperature && rawLow == out.low && rawHigh == out.high
    {
      found := false;
      made := 0;
      ghost var start := Readings(false, temperature, rawLow, rawHigh, 0);
      for k := 0 to RETRY_COUNT
        invariant Valid() && made == k
        invariant Retry(attempts, start) == Retry(attempts[k..], Readings(found, temperature, rawLow, rawHigh, made))
      {
        ghost var before := Readings(found, temperature, rawLow, rawHigh, made);
        RetryStep(attempts, k, before);
        var valid;
        found, made, valid := TryAttempt(attempts[k], found, made);
        if valid {
          break;
        }
      }
    }

    /** One attempt of the retry loop: a sensor was found when the conversion reset saw a
        presence pulse; the raw bytes are kept when the readout reset saw one too, and the
        temperature only when they are not a sentinel. */
    method TryAttempt(a: Attempt, found: bool, made: nat) returns (found': bool, made': nat, valid: bool)
      requires Valid()
      modifies this
      ensures Valid()
      ensures Readings(found', temperature, rawLow, rawHigh, made')
           == Try(Readings(found, old(temperature), old(rawLow), old(rawHigh), made), a)
      ensures valid == Reading(a).Some?
    {
      found', made', valid := found, made + 1, false;
      if a.convertPresence {
        found' := true;
        if a.readPresence {
          rawLow, rawHigh := a.low, a.high;
          var raw := OneWire.Combine(rawLow, rawHigh);
          if raw != 0 && raw != 0xFFFF {
            temperature := OneWire.TruncDiv(OneWire.Wrap16(OneWire.AsI16(raw) * 10), 16);
            valid := true;
          }
        }
      }
    }

    /** One pass of the loop: the retries, the pH conversion, the report, and the sentinel
        stored when no sensor answered. */
    method Cycle(attempts: seq<Attempt>, phRaw: nat) returns (out: string)
      requires Valid() && |attempts| == RETRY_COUNT && phRaw < 0x1_0000
      modifies this
      ensures Valid()
      ensures var r := Retry(attempts, Readings(false, old(temperature), old(rawLow), old(rawHigh), 0));
              && out == ReadingsLine(r.found, r.temperature, LegacyPh(phRaw))
                        + RawLine(r.found, r.low, r.high, phRaw)
              && temperature == (if r.found then r.temperature else NOT_FOUND)
              && rawLow == r.low && rawHigh == r.high
    {
      var found, made := ReadTemperature(attempts);
      var ph := LegacyPh(phRaw);
      out := SendReadingsLine(found, temperature, ph);
      if !found {
        temperature := NOT_FOUND;
      }
      var raw := SendRawLine(found, rawLow, rawHigh, phRaw);
      out := out + raw;
    }
  }

  /** A pass whose third attempt is the first to read a valid scratchpad: three attempts,
      and the decoded 25.0 degrees C stored. */
  lemma RetryExample()
    ensures var bad := Attempt(true, false, 0, 0);
            var good := Attempt(true, true, 0x91, 0x01);
            Retry([bad, bad, good], Readings(false, 0, 0, 0, 0)) == Readings(true, 250, 0x91, 0x01, 3)
  {
    var bad := Attempt(true, false, 0, 0);
    var good := Attempt(true, true, 0x91, 0x01);
    OneWire.DecodeExamples();
    assert OneWire.Combine(0x91, 0x01) == 0x0191;
    assert Reading(bad) == None;
    assert Reading(good) == Some(250);
    var r1 := Try(Readings(false, 0, 0, 0, 0), bad);
    assert r1 == Readings(true, 0, 0, 0, 1);
    var r2 := Try(r1, bad);
    assert r2 == Readings(true, 0, 0, 0, 2);
    assert Try(r2, good) == Readings(true, 250, 0x91, 0x01, 3);
    assert [bad, bad, good][1..] == [bad, good];
    assert [bad, good][1..] == [good];
    assert Retry([good], r2) == Readings(true, 250, 0x91, 0x01, 3);
    assert Retry([bad, good], r1) == Retry([good], r2);
  }
}
