/** The multiplexed 4-digit 7-segment display of src/display.rs: a digit buffer, a
    decimal-point buffer, the cursor the refresh routine advances, and the flag choosing
    between refresh from the timer interrupt and refresh by the caller. Segment bytes go
    out through a 74HC595 shift register; the pins are modelled as a trace of events. */
module Display {
  import opened Bits

  /** Segments a-g in bits 0-6 for 0-9, A, b, C, d, E, F and blank. */
  const DIGIT_PATTERNS: seq<bv8> :=
    [0x3F, 0x06, 0x5B, 0x4F, 0x66, 0x6D, 0x7D, 0x07, 0x7F, 0x6F,
     0x77, 0x7C, 0x39, 0x5E, 0x79, 0x71, 0x00]

  /** Bit 7 of a segment byte drives the decimal point. */
  const DP_BIT: bv8 := 0x80

  /** What the display code does to its pins. */
  datatype PinEvent =
    | DigitsOff                  // all four digit-select lines high (inactive)
    | SelectDigit(position: nat) // that one digit-select line low
    | LatchLow
    | LatchHigh
    | Data(high: bool)           // the serial data line
    | ClockPulse                 // the shift clock driven high, then low

  /** Data and clock events for bits 7 down to i, most significant first. */
  function BitsFrom(data: bv8, i: nat): (s: seq<PinEvent>)
    requires i <= 8
    ensures |s| == 2 * (8 - i)
    decreases 8 - i
  {
    if i == 8 then [] else BitsFrom(data, i + 1) + [Data(Bit(data, i)), ClockPulse]
  }

  lemma {:induction false} BitsFromAt(data: bv8, i: nat, k: nat)
    requires i <= 8 && k < 8 - i
    ensures BitsFrom(data, i)[2 * k] == Data(Bit(data, 7 - k))
    ensures BitsFrom(data, i)[2 * k + 1] == ClockPulse
    decreases 8 - i
  {
    if k < 7 - i {
      BitsFromAt(data, i + 1, k);
    }
  }

  /** The events of shift_out(data). */
  function ShiftOutEvents(data: bv8): seq<PinEvent> {
    [LatchLow] + BitsFrom(data, 0) + [LatchHigh]
  }

  /** shift_out: latch low, then for bit 7 down to bit 0 the data level and one clock
      pulse, then latch high. */
  method ShiftOut(data: bv8) returns (events: seq<PinEvent>)
    ensures events == ShiftOutEvents(data)
  {
    events := [LatchLow];
    for i := 8 downto 0
      invariant events == [LatchLow] + BitsFrom(data, i)
    {
      var level := data & (1 << i) != 0;
      MaskBit(data, i);
      events := events + [Data(level), ClockPulse];
    }
    events := events + [LatchHigh];
  }

  /** The shift-out trace: latch low, bit 7 down to bit 0 each as a data level and a
      clock pulse, latch high. */
  lemma ShiftOutTrace(data: bv8)
    ensures var events := ShiftOutEvents(data);
            && |events| == 18 && events[0] == LatchLow && events[17] == LatchHigh
            && forall k :: 0 <= k < 8 ==>
                 events[1 + 2 * k] == Data(Bit(data, 7 - k)) && events[2 + 2 * k] == ClockPulse
  {
    var events := ShiftOutEvents(data);
    forall k | 0 <= k < 8
      ensures events[1 + 2 * k] == Data(Bit(data, 7 - k)) && events[2 + 2 * k] == ClockPulse
    {
      BitsFromAt(data, 0, k);
    }
  }

  /** A 74HC595 as the display wires it: the data level is shifted in at bit 0 on each
      clock pulse, older bits moving up; the latch shows the register. */
  datatype ShiftRegister = ShiftRegister(register: bv8, level: bool)

  function Clock(sr: ShiftRegister, e: PinEvent): ShiftRegister {
    match e
    case Data(high) => sr.(level := high)
    case ClockPulse => sr.(register := (sr.register << 1) | (if sr.level then 1 else 0))
    case _ => sr
  }

  /** The register after a sequence of events. */
  function Receive(sr: ShiftRegister, events: seq<PinEvent>): ShiftRegister
    decreases |events|
  {
    if events == [] then sr else Clock(Receive(sr, events[..|events| - 1]), events[|events| - 1])
  }

  /** The register after bits 7 down to i of data were shifted in on top of `held`. */
  function ShiftedIn(held: bv8, data: bv8, i: nat): bv8
    requires i <= 8
    decreases 8 - i
  {
    if i == 8 then held else (ShiftedIn(held, data, i + 1) << 1) | (if Bit(data, i) then 1 else 0)
  }

  /** Eight shifts push out whatever was held and leave exactly data. */
  lemma ShiftedInAll(held: bv8, data: bv8)
    ensures ShiftedIn(held, data, 0) == data
  {
  }

  lemma ReceiveTwoMore(sr: ShiftRegister, before: seq<PinEvent>, a: PinEvent, b: PinEvent)
    ensures Receive(sr, before + [a, b]) == Clock(Clock(Receive(sr, before), a), b)
  {
    var mid := before + [a];
    assert (before + [a, b])[..|before| + 1] == mid;
    assert mid[..|before|] == before;
  }

  lemma {:induction false} ReceiveBits(sr: ShiftRegister, data: bv8, i: nat)
    requires i <= 8
    ensures Receive(sr, [LatchLow] + BitsFrom(data, i)).register == ShiftedIn(sr.register, data, i)
    decreases 8 - i
  {
    if i == 8 {
      assert ([LatchLow] + BitsFrom(data, i))[..0] == [];
    } else {
      var before := [LatchLow] + BitsFrom(data, i + 1);
      assert [LatchLow] + BitsFrom(data, i) == before + [Data(Bit(data, i)), ClockPulse];
      ReceiveBits(sr, data, i + 1);
      ReceiveTwoMore(sr, before, Data(Bit(data, i)), ClockPulse);
    }
  }

  /** Whatever the shift register held, after shift_out(data) it latches exactly data. */
  lemma ShiftOutLatches(sr: ShiftRegister, data: bv8)
    ensures Receive(sr, ShiftOutEvents(data)).register == data
  {
    ReceiveBits(sr, data, 0);
    var events := ShiftOutEvents(data);
    assert events[..|events| - 1] == [LatchLow] + BitsFrom(data, 0);
    ShiftedInAll(sr.register, data);
  }

  /** No table entry uses bit 7, which is left for the decimal point. */
  lemma PatternsFreeDpBit()
    ensures forall i :: 0 <= i < |DIGIT_PATTERNS| ==> DIGIT_PATTERNS[i] & DP_BIT == 0
  {
    var t := DIGIT_PATTERNS;
    assert t[0] & DP_BIT == 0 && t[1] & DP_BIT == 0 && t[2] & DP_BIT == 0 && t[3] & DP_BIT == 0;
    assert t[4] & DP_BIT == 0 && t[5] & DP_BIT == 0 && t[6] & DP_BIT == 0 && t[7] & DP_BIT == 0;
    assert t[8] & DP_BIT == 0 && t[9] & DP_BIT == 0 && t[10] & DP_BIT == 0 && t[11] & DP_BIT == 0;
    assert t[12] & DP_BIT == 0 && t[13] & DP_BIT == 0 && t[14] & DP_BIT == 0 && t[15] & DP_BIT == 0;
    assert t[16] & DP_BIT == 0;
  }

  /** The segment byte display_digit sends: the table entry, with bit 7 for the point. */
  function SegmentByte(digit: int, showDp: bool): (p: bv8)
    requires 0 <= digit <= 16
    ensures (p & DP_BIT != 0) == showDp
    ensures p & 0x7F == DIGIT_PATTERNS[digit]
  {
    PatternsFreeDpBit();
    var pattern := DIGIT_PATTERNS[digit];
    assert pattern & DP_BIT == 0;
    if showDp then pattern | DP_BIT else pattern
  }

  /** The events of display_digit. */
  function DigitEvents(digit: int, showDp: bool): seq<PinEvent> {
    if 0 <= digit <= 16 then ShiftOutEvents(SegmentByte(digit, showDp)) else []
  }

  /** display_digit: nothing for a value above 16, else the segment byte shifted out. */
  method DisplayDigit(digit: int, showDp: bool) returns (events: seq<PinEvent>)
    requires 0 <= digit < 0x100
    ensures digit > 16 ==> events == []
    ensures digit <= 16 ==> events == ShiftOutEvents(SegmentByte(digit, showDp))
  {
    if digit > 16 {
      return [];
    }
    var pattern := DIGIT_PATTERNS[digit];
    if showDp {
      pattern := pattern | DP_BIT;
    }
    events := ShiftOut(pattern);
  }

  /** The events of one refresh showing the given buffer slot at position c. */
  function RefreshEvents(digit: int, showDp: bool, c: int): seq<PinEvent> {
    [DigitsOff] + DigitEvents(digit, showDp) + (if 0 <= c < 4 then [SelectDigit(c)] else [])
  }

  /** What display() writes to the buffers. */
  datatype Frame = Frame(digits: seq<int>, points: seq<bool>)

  /** "Err": E, then two slots of value 16 (the blank pattern, though the source's
      comments call them "r"), then blank; no decimal point. */
  const ERR_FRAME := Frame([14, 16, 16, 16], [false, false, false, false])

  /** The upper bound display() accepts: the literal 9999.9999 has no f32 representation
      and rounds to 10000.0, so `num > 9999.9999` compares against 10000.0. */
  const ERR_LIMIT: real := 10000.0

  /** roundf: the nearest integer, halves rounded away from zero (its integral result
      is returned as an int and converted back where the source keeps it as a float). */
  function RoundF(x: real): (r: int)
    ensures x >= 0.0 ==> x - 0.5 < r as real <= x + 0.5
    ensures x < 0.0 ==> x - 0.5 <= r as real < x + 0.5
  {
    if x >= 0.0 then (x + 0.5).Floor else -((0.5 - x).Floor)
  }

  /** An f32 `as u16` cast: truncation toward zero, saturating at 0 and 65535. */
  function ToU16(x: real): (r: int)
    ensures 0 <= r < 0x1_0000
    ensures 0.0 <= x < 65536.0 ==> r == x.Floor
    ensures x < 0.0 ==> r == 0
    ensures x >= 65535.0 ==> r == 65535
  {
    if x < 0.0 then 0 else if x >= 65535.0 then 65535 else x.Floor
  }

  /** display(num) as written: out of range gives "Err"; otherwise the branch is chosen by
      the magnitude of num, the value is rounded to 3, 2, 1 or 0 decimals, and each digit
      is a scaled, truncated copy taken modulo 10. */
  function Render(num: real): (f: Frame)
    ensures |f.digits| == 4 && |f.points| == 4
    ensures num < 0.0 || num > ERR_LIMIT ==> f == ERR_FRAME
    ensures 0.0 <= num <= ERR_LIMIT ==> forall k :: 0 <= k < 4 ==> 0 <= f.digits[k] <= 9
    // the point follows the units digit: after digit k when num has k + 1 integer digits,
    // and nowhere when it has four
    ensures 0.0 <= num <= ERR_LIMIT ==>
              && (f.points[0] <==> num < 10.0)
              && (f.points[1] <==> 10.0 <= num < 100.0)
              && (f.points[2] <==> 100.0 <= num < 1000.0)
              && !f.points[3]
  {
    if num < 0.0 || num > ERR_LIMIT then ERR_FRAME
    else if num < 10.0 then
      var n := RoundF(num * 1000.0) as real / 1000.0;
      Frame([ToU16(n) % 10, ToU16(n * 10.0) % 10, ToU16(n * 100.0) % 10, ToU16(n * 1000.0) % 10],
            [true, false, false, false])
    else if num < 100.0 then
      var n := RoundF(num * 100.0) as real / 100.0;
      Frame([ToU16(n / 10.0) % 10, ToU16(n) % 10, ToU16(n * 10.0) % 10, ToU16(n * 100.0) % 10],
            [false, true, false, false])
    else if num < 1000.0 then
      var n := RoundF(num * 10.0) as real / 10.0;
      Frame([ToU16(n / 100.0) % 10, ToU16(n / 10.0) % 10, ToU16(n) % 10, ToU16(n * 10.0) % 10],
            [false, false, true, false])
    else
      var n := RoundF(num) as real;
      Frame([ToU16(n / 1000.0) % 10, ToU16(n / 100.0) % 10, ToU16(n / 10.0) % 10, ToU16(n) % 10],
            [false, false, false, false])
  }

  /** The worked values: 0.0 shows 0.000, 12.345 rounds to 12.35, 10050.0 is "Err". */
  lemma RenderExamples()
    ensures Render(0.0) == Frame([0, 0, 0, 0], [true, false, false, false])
    ensures Render(12.345) == Frame([1, 2, 3, 5], [false, true, false, false])
    ensures Render(10050.0) == ERR_FRAME
  {
  }

  /** The four decimal digits of R modulo 10000, most significant first. */
  function DecimalDigits(R: int): seq<int>
  {
    [R / 1000 % 10, R / 100 % 10, R / 10 % 10, R % 10]
  }

  /** The number four digits spell. */
  function DigitsValue(d: seq<int>): int
    requires |d| == 4
  {
    d[0] * 1000 + d[1] * 100 + d[2] * 10 + d[3]
  }

  lemma DecimalDigitsValue(R: int)
    requires 0 <= R
    ensures DigitsValue(DecimalDigits(R)) == R % 10000
    ensures forall k :: 0 <= k < 4 ==> 0 <= DecimalDigits(R)[k] <= 9
  {
    var r1, r2, r3 := R / 10, R / 100, R / 1000;
    assert r2 == r1 / 10;
    assert r3 == r2 / 10;
    assert R == 10 * r1 + R % 10;
    assert r1 == 10 * r2 + r1 % 10;
    assert r2 == 10 * r3 + r2 % 10;
    assert r3 == 10 * (R / 10000) + r3 % 10;
    assert R % 10000 == R - 10000 * (R / 10000);
  }

  /** Four digits of R read back as R unless R is 10000, whose carry they drop. */
  lemma DigitsReadBack(R: int)
    requires 0 <= R <= 10000
    ensures DigitsValue(DecimalDigits(R)) == R <==> R < 10000
  {
    DecimalDigitsValue(R);
  }

  /** num times 10 to the power s, for the four precisions the display offers. */
  function Scaled(num: real, s: nat): (x: real)
    requires s <= 3
    ensures 0.0 <= num ==> num <= x
  {
    if s == 3 then num * 1000.0 else if s == 2 then num * 100.0 else if s == 1 then num * 10.0 else num
  }

  /** The decimals display() keeps, chosen from the magnitude of num before rounding. */
  function Decimals(num: real): (s: nat)
    ensures s <= 3
  {
    if num < 10.0 then 3 else if num < 100.0 then 2 else if num < 1000.0 then 1 else 0
  }

  /** A truncated real quotient is the integer quotient. */
  lemma FloorOfQuotient(R: int, d: int)
    requires 0 <= R && d in {1, 10, 100, 1000}
    ensures 0.0 <= R as real / d as real
    ensures (R as real / d as real).Floor == R / d
  {
    var q, m := R / d, R % d;
    assert R == q * d + m;
    assert R as real / d as real == q as real + m as real / d as real;
  }

  /** The u16 cast of a quotient of a displayable integer is the integer quotient. */
  lemma TruncQuotient(R: int, d: int, x: real)
    requires 0 <= R <= 10000 && d in {1, 10, 100, 1000} && x == R as real / d as real
    ensures ToU16(x) == R / d
  {
    FloorOfQuotient(R, d);
  }

  /** The digit extraction of each branch: with n the rounded value R / 10^s, scaling n by
      10^k and truncating leaves R / 10^(s-k). */
  lemma BranchDigits3(R: int)
    requires 0 <= R <= 10000
    ensures var n := R as real / 1000.0;
            [ToU16(n) % 10, ToU16(n * 10.0) % 10, ToU16(n * 100.0) % 10, ToU16(n * 1000.0) % 10]
            == DecimalDigits(R)
  {
    var n := R as real / 1000.0;
    TruncQuotient(R, 1000, n);
    TruncQuotient(R, 100, n * 10.0);
    TruncQuotient(R, 10, n * 100.0);
    TruncQuotient(R, 1, n * 1000.0);
  }

  lemma BranchDigits2(R: int)
    requires 0 <= R <= 10000
    ensures var n := R as real / 100.0;
            [ToU16(n / 10.0) % 10, ToU16(n) % 10, ToU16(n * 10.0) % 10, ToU16(n * 100.0) % 10]
            == DecimalDigits(R)
  {
    var n := R as real / 100.0;
    TruncQuotient(R, 1000, n / 10.0);
    TruncQuotient(R, 100, n);
    TruncQuotient(R, 10, n * 10.0);
    TruncQuotient(R, 1, n * 100.0);
  }

  lemma BranchDigits1(R: int)
    requires 0 <= R <= 10000
    ensures var n := R as real / 10.0;
            [ToU16(n / 100.0) % 10, ToU16(n / 10.0) % 10, ToU16(n) % 10, ToU16(n * 10.0) % 10]
            == DecimalDigits(R)
  {
    var n := R as real / 10.0;
    TruncQuotient(R, 1000, n / 100.0);
    TruncQuotient(R, 100, n / 10.0);
    TruncQuotient(R, 10, n);
    TruncQuotient(R, 1, n * 10.0);
  }

  lemma BranchDigits0(R: int)
    requires 0 <= R <= 10000
    ensures var n := R as real / 1.0;
            [ToU16(n / 1000.0) % 10, ToU16(n / 100.0) % 10, ToU16(n / 10.0) % 10, ToU16(n) % 10]
            == DecimalDigits(R)
  {
    var n := R as real / 1.0;
    TruncQuotient(R, 1000, n / 1000.0);
    TruncQuotient(R, 100, n / 100.0);
    TruncQuotient(R, 10, n / 10.0);
    TruncQuotient(R, 1, n);
  }

  /** Every in-range frame shows the four low decimal digits of num rounded to the chosen
      number of decimals. */
  lemma RenderDigits(num: real)
    requires 0.0 <= num <= ERR_LIMIT
    ensures 0 <= RoundF(Scaled(num, Decimals(num))) <= 10000
    ensures Render(num).digits == DecimalDigits(RoundF(Scaled(num, Decimals(num))))
  {
    if num < 10.0 {
      var R := RoundF(num * 1000.0);
      BranchDigits3(R);
    } else if num < 100.0 {
      var R := RoundF(num * 100.0);
      BranchDigits2(R);
    } else if num < 1000.0 {
      var R := RoundF(num * 10.0);
      BranchDigits1(R);
    } else {
      var R := RoundF(num);
      BranchDigits0(R);
    }
  }

  /** So the frame reads back as the rounded value exactly when rounding does not carry
      into a fifth digit. */
  lemma RenderReadsBack(num: real)
    requires 0.0 <= num <= ERR_LIMIT
    ensures var R := RoundF(Scaled(num, Decimals(num)));
            DigitsValue(Render(num).digits) == R <==> R < 10000
  {
    var R := RoundF(Scaled(num, Decimals(num)));
    assert Render(num).digits == DecimalDigits(R) && 0 <= R <= 10000 by { RenderDigits(num); }
    DigitsReadBack(R);
  }

  /** 9.9996 rounds to 10.000 in the #.### branch and the carry is lost: the display
      shows 0.000. */
  lemma RenderCarryLost()
    ensures Render(9.9996) == Frame([0, 0, 0, 0], [true, false, false, false])
  {
    RenderDigits(9.9996);
    assert RoundF(9.9996 * 1000.0) == 10000;
  }

  /** The most decimals (3 down to 0) whose rounding of num still fits four digits, or -1
      when not even the integer fits. */
  function FitDecimals(num: real): (s: int)
    ensures -1 <= s <= 3
    ensures s >= 0 ==> RoundF(Scaled(num, s)) < 10000
    ensures s < 3 ==> RoundF(Scaled(num, 3)) >= 10000
    ensures s < 2 ==> RoundF(Scaled(num, 2)) >= 10000
    ensures s < 1 ==> RoundF(Scaled(num, 1)) >= 10000
  {
    if RoundF(num * 1000.0) < 10000 then 3
    else if RoundF(num * 100.0) < 10000 then 2
    else if RoundF(num * 10.0) < 10000 then 1
    else if RoundF(num) < 10000 then 0
    else -1
  }

  /** display() with the precision chosen after rounding: the digits spell num rounded to
      the most decimals that fit, with the point before those decimals, and a value that
      rounds to 10000 or more shows "Err". */
  function RenderRounded(num: real): (f: Frame)
    ensures |f.digits| == 4 && |f.points| == 4
  {
    if num < 0.0 || num > ERR_LIMIT || FitDecimals(num) < 0 then ERR_FRAME
    else
      var s := FitDecimals(num);
      Frame(DecimalDigits(RoundF(Scaled(num, s))), [s == 3, s == 2, s == 1, false])
  }

  /** What RenderRounded shows: "Err" out of range or when not even the integer fits;
      otherwise four decimal digits reading back as num rounded to the most decimals that
      fit, and the point after digit 3 - s when s decimals are kept. */
  lemma RenderRoundedShows(num: real)
    ensures num < 0.0 || num > ERR_LIMIT || FitDecimals(num) < 0 ==> RenderRounded(num) == ERR_FRAME
    ensures 0.0 <= num <= ERR_LIMIT && FitDecimals(num) >= 0 ==>
              var f := RenderRounded(num);
              && DigitsValue(f.digits) == RoundF(Scaled(num, FitDecimals(num)))
              && (forall k :: 0 <= k < 4 ==> 0 <= f.digits[k] <= 9)
              && (forall k :: 0 <= k < 4 ==> (f.points[k] <==> k == 3 - FitDecimals(num) < 3))
  {
    if 0.0 <= num <= ERR_LIMIT && FitDecimals(num) >= 0 {
      var s := FitDecimals(num);
      var R := RoundF(Scaled(num, s));
      assert 0 <= R < 10000 by {
        assert Scaled(num, s) >= 0.0;
      }
      var f := RenderRounded(num);
      assert f == Frame(DecimalDigits(R), [s == 3, s == 2, s == 1, false]);
      DecimalDigitsValue(R);
    }
  }

  /** Where rounding does not carry, display() as written already shows RenderRounded. */
  lemma RenderAgreesWithoutCarry(num: real)
    requires 0.0 <= num <= ERR_LIMIT
    requires RoundF(Scaled(num, Decimals(num))) < 10000
    ensures Render(num) == RenderRounded(num)
  {
    var s := Decimals(num);
    assert FitDecimals(num) == s by {
      if s < 3 { assert RoundF(num * 1000.0) >= 10000; }
      if s < 2 { assert RoundF(num * 100.0) >= 10000; }
      if s < 1 { assert RoundF(num * 10.0) >= 10000; }
    }
    RenderDigits(num);
    var f, g := Render(num), RenderRounded(num);
    assert f.points == g.points by {
      assert f.points == [f.points[0], f.points[1], f.points[2], f.points[3]];
      assert g.points == [g.points[0], g.points[1], g.points[2], g.points[3]];
    }
  }

  /** Rounding an integral value changes nothing. */
  lemma RoundIntegral(k: int)
    ensures RoundF(k as real) == k
  {
  }

  /** A temperature t tenths of a degree below 9999.5 degrees is shown without a lost
      carry; the readings a DS18B20 can report (-204.8 to 204.7) all qualify. */
  lemma TemperatureShownRounded(t: int)
    requires t < 99995
    ensures Render(t as real / 10.0) == RenderRounded(t as real / 10.0)
  {
    var num := t as real / 10.0;
    if 0.0 <= num {
      var s := Decimals(num);
      if s == 3 { RoundIntegral(100 * t); assert num * 1000.0 == (100 * t) as real; }
      else if s == 2 { RoundIntegral(10 * t); assert num * 100.0 == (10 * t) as real; }
      else if s == 1 { RoundIntegral(t); assert num * 10.0 == t as real; }
      RenderAgreesWithoutCarry(num);
    }
  }

  /** Likewise a pH of p hundredths below 999.95, which covers the 2.00 to 14.00 band. */
  lemma PhShownRounded(p: int)
    requires p < 99995
    ensures Render(p as real / 100.0) == RenderRounded(p as real / 100.0)
  {
    var num := p as real / 100.0;
    if 0.0 <= num {
      var s := Decimals(num);
      if s == 3 { RoundIntegral(10 * p); assert num * 1000.0 == (10 * p) as real; }
      else if s == 2 { RoundIntegral(p); assert num * 100.0 == p as real; }
      RenderAgreesWithoutCarry(num);
    }
  }

  /** The cursor that update_display_internal advances visits every position once in
      four refreshes and is back where it started. */
  lemma CursorCycle(c: int)
    requires 0 <= c < 4
    ensures var c1 := (c + 1) % 4; var c2 := (c1 + 1) % 4; var c3 := (c2 + 1) % 4;
            && (c3 + 1) % 4 == c
            && {c, c1, c2, c3} == {0, 1, 2, 3}
  {
  }

  class Multiplexer {
    var digits: array<int>   // DISPLAY_BUFFER (u8 values)
    var points: array<bool>  // DP_BUFFER
    var current: int         // CURRENT_DIGIT
    var autoUpdate: bool     // AUTO_UPDATE_ENABLED

    ghost predicate Valid()
      reads this, digits
    {
      && digits.Length == 4 && points.Length == 4
      && 0 <= current < 4
      && forall k :: 0 <= k < 4 ==> 0 <= digits[k] <= 16
    }

    /** The statics as declared: zeros, no points, cursor 0, refresh left to the caller. */
    constructor ()
      ensures Valid() && fresh(digits) && fresh(points)
      ensures digits[..] == [0, 0, 0, 0] && points[..] == [false, false, false, false]
      ensures current == 0 && !autoUpdate
    {
      var d := new int[4](_ => 0);
      var p := new bool[4](_ => false);
      assert d[..] == [d[0], d[1], d[2], d[3]];
      assert p[..] == [p[0], p[1], p[2], p[3]];
      digits, points := d, p;
      current := 0;
      autoUpdate := false;
    }

    /** The buffer part of initialize: all 8s, no points, cursor 0, auto refresh off. */
    method Initialize()
      requires Valid()
      modifies this, digits, points
      ensures Valid() && digits == old(digits) && points == old(points)
      ensures digits[..] == [8, 8, 8, 8] && points[..] == [false, false, false, false]
      ensures current == 0 && !autoUpdate
    {
      digits[0], digits[1], digits[2], digits[3] := 8, 8, 8, 8;
      points[0], points[1], points[2], points[3] := false, false, false, false;
      current := 0;
      autoUpdate := false;
      assert digits[..] == [digits[0], digits[1], digits[2], digits[3]];
      assert points[..] == [points[0], points[1], points[2], points[3]];
    }

    /** set_digit: writes slot `position` only when position < 4 and value <= 16. */
    method SetDigit(position: int, value: int, decimalPoint: bool)
      requires Valid()
      requires 0 <= position < 0x100 && 0 <= value < 0x100
      modifies digits, points
      ensures Valid()
      ensures position < 4 && value <= 16 ==>
                digits[..] == old(digits[..])[position := value]
                && points[..] == old(points[..])[position := decimalPoint]
      ensures !(position < 4 && value <= 16) ==>
                digits[..] == old(digits[..]) && points[..] == old(points[..])
    {
      if position < 4 && value <= 16 {
        digits[position] := value;
        points[position] := decimalPoint;
      }
    }

    /** The four set_digit calls that end every branch of display(). */
    method Show(d: seq<int>, p: seq<bool>)
      requires Valid()
      requires |d| == 4 && |p| == 4 && forall k :: 0 <= k < 4 ==> 0 <= d[k] <= 16
      modifies digits, points
      ensures Valid()
      ensures digits[..] == d && points[..] == p
    {
      SetDigit(0, d[0], p[0]);
      SetDigit(1, d[1], p[1]);
      SetDigit(2, d[2], p[2]);
      SetDigit(3, d[3], p[3]);
      assert digits[..] == [d[0], d[1], d[2], d[3]];
      assert points[..] == [p[0], p[1], p[2], p[3]];
    }

    /** display(num): the digits of each branch written by four set_digit calls, leaving the frame Render(num) in the
        buffers. */
    method Display(num: real)
      requires Valid()
      modifies digits, points
      ensures Valid()
      ensures digits[..] == Render(num).digits && points[..] == Render(num).points
    {
      if num < 0.0 || num > ERR_LIMIT {
        Show([14, 16, 16, 16], [false, false, false, false]);
      } else if num < 10.0 {
        var n := RoundF(num * 1000.0) as real / 1000.0;
        var d1, d2, d3, d4 := ToU16(n) % 10, ToU16(n * 10.0) % 10, ToU16(n * 100.0) % 10, ToU16(n * 1000.0) % 10;
        Show([d1, d2, d3, d4], [true, false, false, false]);
      } else if num < 100.0 {
        var n := RoundF(num * 100.0) as real / 100.0;
        var d1, d2, d3, d4 := ToU16(n / 10.0) % 10, ToU16(n) % 10, ToU16(n * 10.0) % 10, ToU16(n * 100.0) % 10;
        Show([d1, d2, d3, d4], [false, true, false, false]);
      } else if num < 1000.0 {
        var n := RoundF(num * 10.0) as real / 10.0;
        var d1, d2, d3, d4 := ToU16(n / 100.0) % 10, ToU16(n / 10.0) % 10, ToU16(n) % 10, ToU16(n * 10.0) % 10;
        Show([d1, d2, d3, d4], [false, false, true, false]);
      } else {
        var n := RoundF(num) as real;
        var d1, d2, d3, d4 := ToU16(n / 1000.0) % 10, ToU16(n / 100.0) % 10, ToU16(n / 10.0) % 10, ToU16(n) % 10;
        Show([d1, d2, d3, d4], [false, false, false, false]);
      }
    }

    /** update_display_internal: all digits off, the slot under the cursor shifted out, only
        that digit selected, and the cursor moved on modulo 4. */
    method UpdateDisplayInternal() returns (events: seq<PinEvent>)
      requires Valid()
      modifies this`current
      ensures Valid()
      ensures current == (old(current) + 1) % 4
      ensures events == RefreshEvents(digits[old(current)], points[old(current)], old(current))
    {
      var digitEvents := DisplayDigit(digits[current], points[current]);
      events := [DigitsOff] + digitEvents + [SelectDigit(current)];
      current := (current + 1) % 4;
    }

    /** update: refreshes only when the interrupt is not doing it. */
    method Update() returns (events: seq<PinEvent>)
      requires Valid()
      modifies this`current
      ensures Valid()
      ensures autoUpdate ==> current == old(current) && events == []
      ensures !autoUpdate ==>
                current == (old(current) + 1) % 4
                && events == RefreshEvents(digits[old(current)], points[old(current)], old(current))
    {
      events := [];
      if !autoUpdate {
        events := UpdateDisplayInternal();
      }
    }

    /** __vector_16, the Timer0 overflow handler: refreshes only when auto refresh is on. */
    method TimerOverflow() returns (events: seq<PinEvent>)
      requires Valid()
      modifies this`current
      ensures Valid()
      ensures !autoUpdate ==> current == old(current) && events == []
      ensures autoUpdate ==>
                current == (old(current) + 1) % 4
                && events == RefreshEvents(digits[old(current)], points[old(current)], old(current))
    {
      events := [];
      if autoUpdate {
        events := UpdateDisplayInternal();
      }
    }

    /** set_auto_update. */
    method SetAutoUpdate(enabled: bool)
      modifies this`autoUpdate
      ensures autoUpdate == enabled
    {
      autoUpdate := enabled;
    }
  }
}
