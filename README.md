# algae-medium-monitor in Dafny

This is a model of the logic in the algae-medium-monitor firmware, which runs on an ATmega328P. The firmware:

- reads a DS18B20 temperature sensor over a one-wire bus;
- reads a pH probe through the ADC;
- alternates the two values on a multiplexed four-digit seven-segment display;
- prints diagnostics on the serial line.

The hardware is not modelled; its values are explicit inputs and outputs:

- **One-wire bus.** The master drives a trace of time slots (`OneWire.Slot`): reset, write-0, write-1, read. What it samples is an input: the presence pulse after a reset and the level in each read slot.
- **Display.** Writes to the display pins form a trace of `Display.PinEvent`s:
  - digit-select lines;
  - the 74HC595 latch;
  - the data line and the clock pulse.
- **Serial line.** Output is the text sent, as a `string`. The busy-wait on the UART data register is left out.
- **Clock and ADC.** The millisecond clock and the ADC result are parameters.

The firmware's `f32` sensor values (`SensorValues.temperature`, `SensorValues.ph`) are modelled as exact reals. The range guard, the rounding (`roundf`) and the `as u16` casts of `display()` are written out on those reals. Every integer width in the source is modelled where it matters:

| computation | modelled as |
|---|---|
| `(raw as i16 * 10) / 16` | i16 wrap, then truncating division (not Dafny's Euclidean `/`) |
| byte layer | `bv8` |
| UART digit characters | u8 wrap |
| `send_decimal`'s divisor | u16 wrap |
| u32 interpolation in `adc_to_ph` | unbounded; a lemma shows it always fits |

The modules follow the source files:

| module | file | source |
|---|---|---|
| `OneWire` | onewire.dfy | `src/temperature.rs`; the `ds18b20_*` copies in `src/main.rs` are the same code |
| `Ph` | ph.dfy | `src/ph.rs` |
| `Sensors` | sensor_manager.dfy | `src/sensor_manager.rs`, a class for `SensorManager` |
| `Display` | display.dfy | `src/display.rs`; a `Multiplexer` class holds the statics `DISPLAY_BUFFER`, `DP_BUFFER`, `CURRENT_DIGIT` and `AUTO_UPDATE_ENABLED` |
| `Controller` | display_controller.dfy | `src/display_controller.rs` |
| `Uart` | uart.dfy | `src/uart.rs`; `uart_send_integer` and `uart_send_decimal` in `src/main.rs` are the same code |
| `Legacy` | legacy.dfy | the older blocking loop of `src/main.rs` and its own pH formula |
| `Bits`, `Wrappers` | bits.dfy, wrappers.dfy | helpers: bit access on `bv8` and `Option` |

The main results:

- **One-wire bytes.**
  - Bytes go out least significant bit first.
  - A device reading the write slots decodes exactly the bytes written (`LoopbackByte`, `DecodeTransmit`).
  - The readout sends SKIP_ROM and READ_SCRATCHPAD, then reads exactly 16 bits, low byte first.
  - The decode rejects the 0x0000 and 0xFFFF sentinels and truncates toward zero.
- **Sensor scheduler.**
  - `Sensors.SensorManager.Update` states every transition of the five-state machine.
  - Over any run from Idle with a clock that never goes back, the scratchpad is only read at least 750 ms after the conversion it collects was started (`ReadWaitsForConversion`). For the run that `start_initial_temperature_reading` begins in the converting state (`ReadWaitsFromInitialStart`), the bound is relative to the start time recorded. The source records time 0 whatever the clock reads, so a start made late reads the scratchpad early (see Findings).
- **pH.** The calibration is clamped to 2.00–14.00, lies on the calibration line, and never increases with the ADC reading.
- **Display.**
  - `shift_out` sends the bits most significant first, so the shift register latches exactly the byte sent.
  - The decimal point is bit 7 and never collides with a segment pattern.
  - The refresh advances the cursor modulo 4.
  - `display()` puts the point after the units digit.
  - Its four digits read back as the rounded value, except when rounding carries into a fifth digit (see Findings).
- **Mode controller.**
  - The mode switches exactly when a dwell has passed.
  - Switches over a run alternate the mode and are at least a dwell apart.
- **Serial text.**
  - `send_integer` output parses back to its value in bases 2–36, with no leading zero.
  - In base 1 it emits sixteen `0`s.
  - `send_decimal` output parses back as the whole part, a point and a zero-padded fraction, for up to four places.
  - The temperature text adds a sign.
- **Legacy loop.** The retry loop stops at the first valid reading, after at most three attempts. It reports a sensor exactly when some attempt saw a presence pulse. Otherwise it stores the −9990 sentinel.

Two places where the code does something other than its comments say. The model follows the code:

- The two positions the comments label "r" in the "Err" pattern hold value 16, which is the blank pattern 0x00.
- The range bound `9999.9999` has no `f32` representation, so the comparison is against 10000.0.

## Model

| member | source | states |
|---|---|---|
| OneWire.ByteSlots | src/temperature.rs:43-64 | the eight write slots of a byte: slot k carries bit k (least significant first), a 1-bit as the short-low slot |
| OneWire.Transmit | src/temperature.rs:43-64 | several bytes written in a row take eight slots each |
| OneWire.WriteByte | src/temperature.rs:43-65 | write_byte's loop (test bit 0, shift right) emits exactly ByteSlots(b): slot k is WriteOne iff bit k of b is set |
| OneWire.ByteOfLevelsBits | src/temperature.rs:68-91 | the byte assembled from sampled levels has bit i equal to level i and nothing above the levels read |
| OneWire.ReadByte | src/temperature.rs:68-92 | read_byte emits eight read slots and returns the byte whose bit i is the level sampled in slot i |
| OneWire.LoopbackByte | src/temperature.rs:43-92 | a device sampling the slots write_byte(b) emits reads back b |
| OneWire.DecodeTransmit | src/temperature.rs:43-65 | decoding the slots of any byte sequence, eight at a time, yields that sequence |
| OneWire.Reset | src/temperature.rs:22-40 | reset emits one reset slot and reports presence iff the sampled line is low |
| OneWire.WriteCommand | src/temperature.rs:97-98 | two write_byte calls emit the slots of the two bytes in order |
| OneWire.StartTemperatureConversion | src/temperature.rs:95-100 | a reset, then exactly the bytes [0xCC, 0x44] when a device answered and no byte otherwise |
| OneWire.ReadoutWireShape | src/temperature.rs:103-111 | without presence only the reset slot; with presence reset, 0xCC and 0xBE, then exactly sixteen read slots (33 in all) |
| OneWire.ReadTemperatureAfterConversion | src/temperature.rs:103-125 | drives ReadoutWire(presence) and returns Readout(presence, levels) |
| OneWire.ReadoutValue | src/temperature.rs:103-125 | None without presence; otherwise the decode of high * 256 + low, the low byte assembled from the first eight sampled levels and the high byte from the next eight |
| OneWire.Combine | src/temperature.rs:113 | `(high as u16) << 8 \| low` is high * 256 + low |
| OneWire.AsI16 | src/temperature.rs:118 | the u16-to-i16 cast is the i16 congruent modulo 2^16 |
| OneWire.Wrap16 | src/temperature.rs:119 | the i16 product wraps modulo 2^16 and is exact inside the i16 range |
| OneWire.TruncDiv | src/temperature.rs:119 | Rust's `/`: the magnitude of the quotient is floor(\|a\| / d) and its sign follows a |
| OneWire.DecodeScratchpad | src/temperature.rs:113-121 | None exactly for raw 0x0000 and 0xFFFF; otherwise a value within the i16 range divided by 16 (-2048..2047) |
| OneWire.DecodeWithoutWrap | src/temperature.rs:116-120 | wherever the i16 product fits (\|raw\| <= 3276) it does not wrap: the result is raw * 10 / 16 truncated toward zero, \|t\| * 16 <= \|raw * 10\| < (\|t\| + 1) * 16 |
| OneWire.DecodeInSensorRange | src/temperature.rs:116-120 | over the sensor's -55..125 degree range the decode is the unwrapped truncated quotient and lies within -550..1250 tenths |
| OneWire.DecodeExamples | src/temperature.rs:116-120 | 0x0191 decodes to 250, 0xFFF8 to -5, and 0xFFFE to -1, where Euclidean division would give -2 |
| Ph.AdcToPh | src/ph.rs:20-36 | the result is within 200..1400; 200 at or above reading 1020, 1400 at or below 650, strictly inside otherwise |
| Ph.OnCalibrationLine | src/ph.rs:28-34 | inside the band the result is the line through (1020, 200) and (650, 1400), rounded down |
| Ph.InterpolationFits | src/ph.rs:30-34 | the u32 product is at most 442800 and the quotient at most 1196, so neither the u32 arithmetic nor the u16 cast truncates |
| Ph.AdcToPhMonotone | src/ph.rs:20-36 | a higher reading never gives a higher pH |
| Sensors.StorePlausible | src/sensor_manager.rs:79-97 | storing a decoded temperature or a calibrated pH keeps the stored values within their decodable and calibrated ranges |
| Sensors.SensorManager.constructor | src/sensor_manager.rs:28-40 | new: state Idle, 25.0 degrees, pH 7.0 |
| Sensors.SensorManager.StartInitialTemperatureReading | src/sensor_manager.rs:49-52 | starts a conversion (the conversion wire) and sets TemperatureConverting(0); values unchanged |
| Sensors.SensorManager.StartInitialTemperatureReadingAt | src/sensor_manager.rs:49-52 | the corrected start: the conversion wire, and TemperatureConverting(now) with the clock reading at the start; values unchanged |
| Sensors.SensorManager.Update | src/sensor_manager.rs:55-104 | every transition: Idle goes to PHReading (no bus traffic) or starts a conversion; converting waits until 750 ms have passed; TemperatureReady reads and stores t / 10 on Some, keeps the temperature on None, then goes Idle; PHReading stores adc_to_ph / 100; PHReady goes Idle; nothing else changes |
| Sensors.States | src/sensor_manager.rs:55-104 | the states of a run of ticks start at the given state, one per tick plus the last |
| Sensors.StatesStep | src/sensor_manager.rs:55-104 | each state of a run is one update step from the previous one |
| Sensors.ConversionStarted | src/sensor_manager.rs:49-77 | a run converting since t0 either started that conversion at an earlier step, from Idle with temperature not shown, at time t0, or began in TemperatureConverting(t0); it has been converting since |
| Sensors.ReadWaitsForConversion | src/sensor_manager.rs:64-87 | on a run from Idle with a clock that never goes back, the scratchpad is read only at least 750 ms after the one conversion it collects was started, with no other start in between |
| Sensors.ReadWaitsFromInitialStart | src/sensor_manager.rs:49-87 | on the run start_initial_temperature_reading begins (TemperatureConverting(t0)), a read collects either that conversion, with every earlier state converting and at least 750 ms after t0, or a later conversion started from Idle at least 750 ms before; t0 is the start time recorded, 0 as written |
| Sensors.InitialStartReadEarly | src/sensor_manager.rs:49-77 | as written, a start at clock reading 750 or later recorded as time 0 turns ready on the first tick, less than 750 ms after the start; started at 800, the scratchpad is read at 801 |
| Sensors.ConversionSchedule | src/sensor_manager.rs:55-87 | a worked run: still converting at 700 ms, ready at 760 ms, collected and Idle on the next tick |
| Display.BitsFrom | src/display.rs:133-149 | two events (data level, clock) per bit from 7 down to i |
| Display.BitsFromAt | src/display.rs:133-149 | the k-th pair is the level of bit 7 - k followed by a clock pulse |
| Display.ShiftOut | src/display.rs:127-155 | shift_out's loop over bits 7 down to 0 emits ShiftOutEvents(data) |
| Display.ShiftOutTrace | src/display.rs:127-155 | 18 events: latch low, then for k = 0..7 the level of bit 7 - k and a clock pulse, then latch high |
| Display.ShiftedInAll | src/display.rs:133-149 | shifting in eight bits of data leaves exactly data, whatever the register held |
| Display.ReceiveBits | src/display.rs:127-149 | a 74HC595 fed the shift-out events holds the bits shifted in so far |
| Display.ShiftOutLatches | src/display.rs:127-155 | after shift_out(data) the shift register latches exactly data |
| Display.PatternsFreeDpBit | src/display.rs:25-43 | no entry of the 17-entry segment table uses bit 7 |
| Display.SegmentByte | src/display.rs:163-168 | the byte sent has bit 7 set iff the point is shown and its low seven bits are the table entry |
| Display.DisplayDigit | src/display.rs:158-171 | nothing is shifted for a value above 16; otherwise the segment byte is shifted out |
| Display.RoundF | src/display.rs:253 | roundf: within half of x, with halves away from zero |
| Display.ToU16 | src/display.rs:255-258 | the f32-to-u16 cast is 0 below 0, 65535 from 65535 up, and truncates inside |
| Display.Render | src/display.rs:239-303 | "Err" ([14,16,16,16], no point) for num < 0 or num > 10000.0; otherwise four digits 0..9 with the point after digit 0, 1 or 2 for num below 10, 100 or 1000 and no point from 1000 on |
| Display.RenderExamples | src/display.rs:239-303 | 0.0 shows 0.000, 12.345 shows 12.35, 10050 shows Err |
| Display.DecimalDigitsValue | src/display.rs:255-297 | the four digits extracted read back as the value modulo 10000 and are each 0..9 |
| Display.DigitsReadBack | src/display.rs:255-297 | for a rounded value up to 10000, the digits read back as it iff it is below 10000 |
| Display.Scaled | src/display.rs:253-292 | scaling a non-negative value by 10^s never decreases it |
| Display.Decimals | src/display.rs:251-292 | the decimals kept are chosen from the magnitude before rounding, 3 down to 0 |
| Display.TruncQuotient | src/display.rs:255-297 | the u16 cast of a scaled rounded value is the integer quotient |
| Display.RenderDigits | src/display.rs:251-303 | every in-range frame shows the four low decimal digits of num rounded to the chosen decimals, which is at most 10000 |
| Display.RenderReadsBack | src/display.rs:251-303 | the frame reads back as the rounded value iff rounding does not carry into a fifth digit |
| Display.RenderCarryLost | src/display.rs:251-263 | as written, 9.9996 shows 0.000 |
| Display.FitDecimals | src/display.rs:230-238 | the most decimals whose rounding still fits four digits: those it keeps fit, and every larger precision does not |
| Display.RenderRounded | src/display.rs:230-238 | the documented format, with the precision chosen after rounding: always four digits and four points |
| Display.RenderRoundedShows | src/display.rs:230-238 | "Err" out of range or when not even the integer fits; otherwise digits 0..9 reading back as num rounded to FitDecimals, with the point exactly after digit 3 - s |
| Display.RenderAgreesWithoutCarry | src/display.rs:251-303 | where rounding does not carry, display() as written shows RenderRounded |
| Display.TemperatureShownRounded | src/display.rs:251-303 | any value in whole tenths below 9999.5 is shown correctly rounded |
| Display.PhShownRounded | src/display.rs:251-303 | any value in whole hundredths below 999.95 is shown correctly rounded |
| Display.CursorCycle | src/display.rs:203 | four cursor advances visit every position once and return to the start |
| Display.Multiplexer.constructor | src/display.rs:13-18 | the statics as declared: zeros, no points, cursor 0, auto refresh off |
| Display.Multiplexer.Initialize | src/display.rs:72-87 | buffer [8,8,8,8], no points, cursor 0, auto refresh off |
| Display.Multiplexer.SetDigit | src/display.rs:221-228 | writes slot p with the value and the point iff p < 4 and value <= 16; otherwise nothing changes; other slots never change |
| Display.Multiplexer.Show | src/display.rs:260-263 | the four set_digit calls leave exactly the given digits and points |
| Display.Multiplexer.Display | src/display.rs:239-303 | display(num) leaves the frame Render(num) in the buffers |
| Display.Multiplexer.UpdateDisplayInternal | src/display.rs:182-205 | all digits off, the slot under the cursor shifted out, only that digit selected, cursor advanced modulo 4 |
| Display.Multiplexer.Update | src/display.rs:209-213 | refreshes only when auto refresh is off, otherwise changes nothing |
| Display.Multiplexer.TimerOverflow | src/display.rs:175-179 | refreshes only when auto refresh is on, otherwise changes nothing |
| Display.Multiplexer.SetAutoUpdate | src/display.rs:216-218 | stores the flag |
| Controller.Toggled | src/display_controller.rs:52-55 | the mode after a switch differs from the mode before |
| Controller.ToggleTwice | src/display_controller.rs:52-55 | two switches restore the mode |
| Controller.Selected | src/display_controller.rs:35-42 | Temperature selects the temperature, PH the pH |
| Controller.CheckSettles | src/display_controller.rs:50-58 | with a positive dwell a second check at the same time changes nothing |
| Controller.Switches | src/display_controller.rs:47-63 | every recorded switch time is one of the check times |
| Controller.RunAlternates | src/display_controller.rs:47-63 | after any run of checks the mode is the start mode after an even number of switches and the other after an odd number, and the timer restarted at the last switch |
| Controller.SwitchesSpaced | src/display_controller.rs:47-63 | with a clock that never goes back, switches are at least a dwell apart and the first a dwell after the start |
| Controller.DisplayController.constructor | src/display_controller.rs:19-25 | mode Temperature, switch time 0 |
| Controller.DisplayController.Initialize | src/display_controller.rs:28-31 | the display buffers initialised and auto refresh left off |
| Controller.DisplayController.CheckModeSwitch | src/display_controller.rs:47-63 | returns true iff a dwell has passed since the last switch; then the mode flips and the timer restarts at now, otherwise nothing changes |
| Controller.DisplayController.IsShowingTemperature | src/display_controller.rs:66-68 | true exactly when the mode is Temperature, false exactly when it is PH |
| Controller.DisplayController.ShowSelected | src/display_controller.rs:35-42 | the value of the current mode is rendered into the buffers |
| Controller.DisplayController.UpdateDisplay | src/display_controller.rs:34-44 | the buffers hold Render of the selected value, then one refresh happens iff auto refresh is off |
| Controller.ShownWithoutCarryLoss | src/display_controller.rs:34-44 | for every value the scheduler can store, in either mode, the frame shown equals RenderRounded |
| Uart.UbrrValue | src/uart.rs:4-6 | the baud divisor is 103 |
| Uart.SendString | src/uart.rs:87-91 | sends every byte of the string in order |
| Uart.DigitChar | src/uart.rs:133-138 | remainders below 10 become '0'..'9' and those from 10 to 35 become 'A'..'Z'; the u8 holds the byte |
| Uart.BufferedDigits | src/uart.rs:131-140 | the loop fills no more than the room left in the buffer |
| Uart.IntegerText | src/uart.rs:119-146 | one to sixteen characters |
| Uart.SendInteger | src/uart.rs:119-146 | the reverse-filled 16-byte buffer sends exactly IntegerText(value, base), "0" for zero in any base, base 0 included |
| Uart.BaseOneFillsBuffer | src/uart.rs:131-140 | in base 1 the value never shrinks and the buffer fills with sixteen '0's |
| Uart.BufferedIsDigits | src/uart.rs:131-140 | with room for as many digits as binary digits of v nothing is cut off: the buffer holds the base-b digits of v |
| Uart.IntegerTextIsDigits | src/uart.rs:119-146 | for bases 2..36 a u16 never overflows the buffer |
| Uart.DigitCharValue | src/uart.rs:133-138 | a digit character reads back as its digit, and only 0 gives '0' |
| Uart.DigitsRoundTrip | src/uart.rs:131-145 | the digits of v read back as v, with no leading zero, and only decimal digits for bases up to 10 |
| Uart.IntegerTextRoundTrip | src/uart.rs:119-146 | for 0 < v and bases 2..36 the output parses back to v, with no leading zero |
| Uart.Divisor | src/uart.rs:95-98 | the divisor, multiplied up by 10 in u16 arithmetic, always fits in a u16 |
| Uart.DivisorVanishes | src/uart.rs:95-98 | the u16 divisor is 0 exactly from 16 places on, where the division panics |
| Uart.FractionTextDigits | src/uart.rs:110-115 | the fraction is written in decimal digits only |
| Uart.SendDecimal | src/uart.rs:94-116 | sends exactly DecimalText(value, places) |
| Uart.IntegerTextValue | src/uart.rs:119-146 | the decimal whole part reads back, zero included, in decimal digits |
| Uart.FractionTextValue | src/uart.rs:95-115 | up to four places the divisor does not wrap, and the fraction is written as exactly `places` digits reading back as its value, leading zeros kept |
| Uart.DecimalTextRoundTrip | src/uart.rs:94-116 | up to four places the output is digits, '.', and exactly `places` digits, with whole * 10^places + fraction == value |
| Uart.DecimalTextParts | src/uart.rs:99-115 | the output is the decimal whole part, a point and the fraction digits |
| Legacy.Reading | src/main.rs:183-213 | an attempt yields a reading iff both resets saw the sensor and the raw value is not a sentinel; the reading is in -2048..2047 |
| Legacy.Retry | src/main.rs:180-219 | the retry loop keeps the temperature in the i16 range |
| Legacy.RetryOutcome | src/main.rs:180-219 | at most one attempt per outcome, at least one; stops right after the first valid reading; found iff some attempt so far saw a presence pulse; temperature changed only by that reading |
| Legacy.RetryStep | src/main.rs:182-219 | unrolling the loop at attempt k: stop after a valid reading, else continue |
| Legacy.RetryExample | src/main.rs:182-219 | two failed reads then 0x0191: three attempts and 250 stored |
| Legacy.LegacyPh | src/main.rs:227 | raw * 1400 / 1023 in u32, cast to u16 |
| Legacy.LegacyPhBound | src/main.rs:222-227 | for a 10-bit reading the pH is at most 14.00, reached at 1023 |
| Legacy.LegacyPhMonotone | src/main.rs:227 | a higher reading never gives a lower pH while the cast does not truncate |
| Legacy.SendTemperature | src/main.rs:371-385 | sends TemperatureText(value) |
| Legacy.MagnitudeTenths | src/main.rs:381-383 | the unsigned text reads back as the magnitude in tenths |
| Legacy.TemperatureTextRoundTrip | src/main.rs:371-415 | apart from the sentinel the text starts with '-' iff the value is negative, and the rest is whole digits, '.', and one digit reading back as the magnitude in tenths |
| Legacy.SendPh | src/main.rs:388-390 | hundredths with two places |
| Legacy.SendReadingsLine | src/main.rs:233-244 | the report line, with "Not found" and no temperature when no sensor answered |
| Legacy.SendRawLine | src/main.rs:247-257 | the raw line: both bytes in hexadecimal, or "?? ??", then the ADC reading |
| Legacy.ReadingsLineReports | src/main.rs:233-244 | the line starts "DS18B20: ", holds "Not found" exactly when no sensor answered, with " pH:" right after it and no temperature, and otherwise "Found - T:" followed by the temperature text; it ends with CR LF |
| Legacy.RawLineReports | src/main.rs:247-257 | the line starts "Raw values - T: 0x"; without a sensor "?? ??" and " pH: " follow, and with one the low byte starts with a digit or letter, so the two cases cannot be confused; it ends with the decimal ADC reading and CR LF |
| Legacy.Monitor.constructor | src/main.rs:163-169 | temperature and raw bytes start at 0 |
| Legacy.Monitor.TryAttempt | src/main.rs:183-213 | one attempt updates found, the raw bytes and the temperature as Try does, and reports whether it read a valid value |
| Legacy.Monitor.ReadTemperature | src/main.rs:180-219 | the loop leaves exactly the outcome of Retry over the three attempts |
| Legacy.Monitor.Cycle | src/main.rs:175-261 | one pass: the lines for the retry outcome and LegacyPh, then the −9990 sentinel stored iff no sensor answered |

The members listed here are the ones whose contracts state something about the source. The other members are proof steps: bit, division and digit arithmetic, and sequence unrolling.

## Left out

- src/adc.rs and src/air.rs are not part of this model. The ADC result is an input, and the air pump is not modelled.
- Delays (`delay_us`, `delay_ms`), the 100 ms pause between retries and the 2 s reading interval are not modelled. The slot comments in `OneWire.Slot` record the one-wire timing.
- Pin direction and pull-up setup (`initialize` in temperature.rs, pin setup in display.rs) are left out. Only the display's buffer initialisation is modelled.
- Timer0 setup, `sei` and interrupt concurrency are left out. `TimerOverflow` is modelled as a call that runs between other steps; a refresh interleaved with `display()` is not modelled.
- The ordering semantics of `AtomicBool` are left out.
- `test_all_segments` in display.rs is left out. It is a power-on lamp test with no effect on the buffers.
- UART register writes in `initialize`, and the busy-wait in `send_byte`, are left out. The output is the text sent.
- Floating point: the `f32` values, products and quotients are exact reals. Rounding error in `num * 1000.0` and the other scalings is not modelled.
- `Uart.IntegerTextRoundTrip`: stated only for bases 2 to 36. Base 0 divides by zero and is excluded; base 1 is covered separately by `Uart.BaseOneFillsBuffer`.
- `Uart.DecimalTextRoundTrip`: stated only for up to four places. From five places the u16 divisor wraps, and `Uart.DecimalText` still models that output.
- `Uart.SendDecimal`: requires fewer than 16 places, because from 16 on the divisor is 0 and the division panics (`Uart.DivisorVanishes`).
- `Legacy.LegacyPhMonotone`: stated only up to 47888, where the u16 cast starts to truncate. An ADC reading is at most 1023.
- `Sensors.SensorManager.Update`: the scratchpad levels are an input of exactly sixteen samples. How the DS18B20 produces them is not modelled.
- `Uart.SendString`: one character is sent per byte. `s.bytes()` sends the UTF-8 encoding, which differs for characters above 127. The model does not cover non-ASCII text; every caller sends ASCII.
- `OneWire.Wrap16`, `Uart.Divisor`, `Uart.DigitChar`: integer overflow wraps, as in a release build. A build with overflow checks would panic instead; that is not modelled. No call site in the source reaches an overflow.
- The conversions `temp as f32 / 10.0` and `ph as f32 / 100.0` are exact divisions on reals. Their binary rounding is not modelled.

## Findings

| source | as written | input that shows it | evidently intended | confidence | as-written member | corrected member |
|---|---|---|---|---|---|---|
| src/display.rs:251-303 | `display()` chooses the format branch from the magnitude before rounding, so a value that rounds up into the next decade loses its leading digit | 9.9996 shows 0.000 (also 99.996 shows 00.00, 999.96 shows 000.0, and 9999.5 to 10000 show 0000) | round first, then choose the precision that fits (10.00 for 9.9996), as the doc comment at src/display.rs:230-238 describes | not executed | Display.RenderCarryLost | Display.RenderRoundedShows |
| src/sensor_manager.rs:49-52 | `start_initial_temperature_reading` records the conversion as started at time 0, not at the clock reading when it is issued | when the clock reads 800 at the start, update at 800 moves to TemperatureReady and update at 801 reads the scratchpad, 1 ms after the conversion began; whether this happens depends on what the caller's clock reads at start-up | record the current time, as update does from Idle, so the read comes at least 750 ms after the start | not executed | Sensors.InitialStartReadEarly | Sensors.ReadWaitsFromInitialStart |

`Sensors.SensorManager.StartInitialTemperatureReading` models the start as written. `Sensors.SensorManager.StartInitialTemperatureReadingAt` records the clock reading instead, and with that recorded time `Sensors.ReadWaitsFromInitialStart` bounds the first read from the real start.

`Display.Render` and `Display.Multiplexer.Display` model `display()` as written, and `Display.RenderReadsBack` states when it goes wrong. `Display.RenderRounded` is the intended format, and `Display.RenderAgreesWithoutCarry` proves the two agree whenever rounding does not carry. The controller model relies on this: `Controller.ShownWithoutCarryLoss` proves that every value the scheduler stores is shown as `RenderRounded` would show it. Those values are pH in whole hundredths from 2.00 to 14.00, and temperatures in whole tenths from −204.8 to 204.7. So in this firmware the defect cannot reach the display through the sensor path.
