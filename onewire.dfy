/** The DS18B20 one-wire driver of src/temperature.rs (its twin, the ds18b20_* functions of
    src/main.rs, is the same code). The data pin is not modelled: what the master drives
    is a trace of time slots, and what it samples -- the presence pulse after a reset and
    the level in each read slot -- is an input. */
module OneWire {
  import opened Wrappers
  import opened Bits

  const SKIP_ROM: bv8 := 0xCC
  const CONVERT_T: bv8 := 0x44
  const READ_SCRATCHPAD: bv8 := 0xBE

  /** Worst-case conversion time at 12-bit resolution, in milliseconds. */
  const TEMP_CONVERSION_TIME_MS: nat := 750

  /** One time slot as the master drives it; the comments give the source's delays. */
  datatype Slot =
    | ResetPulse  // low 500 us, release, sample the presence pulse after 70 us, wait 410 us
    | WriteZero   // low 70 us, then high 5 us
    | WriteOne    // low 10 us, then high 55 us
    | ReadSlot    // low 5 us, release, sample after 10 us, wait 45 us

  function WriteSlot(bit: bool): Slot {
    if bit then WriteOne else WriteZero
  }

  /** The eight write slots of a byte, least significant bit first. */
  function ByteSlots(b: bv8): (s: seq<Slot>)
    ensures |s| == 8
    ensures forall k :: 0 <= k < 8 ==> s[k] == WriteSlot(Bit(b, k))
  {
    seq(8, k requires 0 <= k < 8 => WriteSlot(Bit(b, k)))
  }

  /** The slots of several bytes written one after the other. */
  function Transmit(bytes: seq<bv8>): (s: seq<Slot>)
    ensures |s| == 8 * |bytes|
  {
    if bytes == [] then [] else ByteSlots(bytes[0]) + Transmit(bytes[1..])
  }

  function ReadSlots(n: nat): (s: seq<Slot>)
    ensures |s| == n && forall i :: 0 <= i < n ==> s[i] == ReadSlot
  {
    seq(n, _ => ReadSlot)
  }

  /** The byte whose bit i is levels[i]: levels are sampled least significant bit first. */
  function ByteOfLevels(levels: seq<bool>): bv8
    requires |levels| <= 8
  {
    if levels == [] then 0
    else (ByteOfLevels(levels[1..]) << 1) | (if levels[0] then 1 else 0)
  }

  lemma {:induction false} ByteOfLevelsBits(levels: seq<bool>)
    requires |levels| <= 8
    ensures forall i :: 0 <= i < |levels| ==> Bit(ByteOfLevels(levels), i) == levels[i]
    ensures ByteOfLevels(levels) >> |levels| == 0
  {
    if levels != [] {
      var rest := levels[1..];
      ByteOfLevelsBits(rest);
      var r := ByteOfLevels(rest);
      var b := ByteOfLevels(levels);
      assert b == (r << 1) | (if levels[0] then 1 else 0);
      forall i | 0 <= i < |levels|
        ensures Bit(b, i) == levels[i]
      {
        if i > 0 {
          assert Bit(r, i - 1) == rest[i - 1];
          assert (b >> i) & 1 == (r >> (i - 1)) & 1;
        }
      }
      assert r >> |rest| == 0;
    }
  }

  /** write_byte: eight slots, slot k carrying bit k of b; a 0-bit is the long-low slot,
      a 1-bit the short-low slot. */
  method WriteByte(b: bv8) returns (slots: seq<Slot>)
    ensures |slots| == 8
    ensures forall k :: 0 <= k < 8 ==> slots[k] == (if Bit(b, k) then WriteOne else WriteZero)
    ensures slots == ByteSlots(b)
  {
    var byte := b;
    slots := [];
    for k := 0 to 8
      invariant byte == b >> k
      invariant |slots| == k
      invariant forall j :: 0 <= j < k ==> slots[j] == WriteSlot(Bit(b, j))
    {
      var bit := byte & 0x01;
      ShiftBit(b, k);
      byte := byte >> 1;
      slots := slots + [if bit == 0 then WriteZero else WriteOne];
    }
  }

  /** read_byte: eight read slots; the level sampled in slot i becomes bit i of the result. */
  method ReadByte(levels: seq<bool>) returns (b: bv8, slots: seq<Slot>)
    requires |levels| == 8
    ensures forall i :: 0 <= i < 8 ==> Bit(b, i) == levels[i]
    ensures b == ByteOfLevels(levels)
    ensures slots == ReadSlots(8)
  {
    b := 0;
    slots := [];
    for i := 0 to 8
      invariant forall j :: 0 <= j < i ==> Bit(b, j) == levels[j]
      invariant b >> i == 0
      invariant slots == ReadSlots(i)
    {
      var bit: bv8 := if levels[i] then 1 else 0;
      SetBit(b, bit, i);
      b := b | (bit << i);
      slots := slots + [ReadSlot];
    }
    ByteOfLevelsBits(levels);
    BitsDetermineByte(b, ByteOfLevels(levels));
  }

  /** Bit k of b is the low bit of b >> k, and one more shift gives b >> (k + 1). */
  lemma ShiftBit(b: bv8, k: nat)
    requires k < 8
    ensures ((b >> k) & 0x01 != 0) == Bit(b, k)
    ensures (b >> k) >> 1 == b >> (k + 1)
  {
    if k == 0 {
    } else if k == 1 {
    } else if k == 2 {
    } else if k == 3 {
    } else if k == 4 {
    } else if k == 5 {
    } else if k == 6 {
    } else {
    }
  }

  /** Or-ing level bit into the clear bit i keeps the lower bits and sets bit i to it. */
  lemma SetBit(b: bv8, bit: bv8, i: nat)
    requires i < 8 && b >> i == 0 && (bit == 0 || bit == 1)
    ensures forall j :: 0 <= j < i ==> Bit(b | (bit << i), j) == Bit(b, j)
    ensures Bit(b | (bit << i), i) == (bit == 1)
    ensures (b | (bit << i)) >> (i + 1) == 0
  {
    if i == 0 {
    } else if i == 1 {
    } else if i == 2 {
    } else if i == 3 {
    } else if i == 4 {
    } else if i == 5 {
    } else if i == 6 {
    } else {
    }
  }

  /** The level a listening device samples in a write slot (15 us in, the short-low
      slot has already released the line); the loopback fixture of a bus. */
  function Levels(slots: seq<Slot>): (levels: seq<bool>)
    ensures |levels| == |slots|
    ensures forall i :: 0 <= i < |slots| ==> levels[i] == (slots[i] == WriteOne)
  {
    seq(|slots|, i requires 0 <= i < |slots| => slots[i] == WriteOne)
  }

  /** Reading back the slots that write_byte emits yields the byte written. */
  lemma LoopbackByte(b: bv8)
    ensures ByteOfLevels(Levels(ByteSlots(b))) == b
  {
    var levels := Levels(ByteSlots(b));
    ByteOfLevelsBits(levels);
    BitsDetermineByte(ByteOfLevels(levels), b);
  }

  /** The bytes a device decodes from a run of write slots, eight slots a byte. */
  function DecodeWrites(slots: seq<Slot>): seq<bv8>
    decreases |slots|
  {
    if |slots| < 8 then [] else [ByteOfLevels(Levels(slots[..8]))] + DecodeWrites(slots[8..])
  }

  lemma {:induction false} DecodeTransmit(bytes: seq<bv8>)
    ensures DecodeWrites(Transmit(bytes)) == bytes
  {
    if bytes != [] {
      var s := Transmit(bytes);
      assert s[..8] == ByteSlots(bytes[0]);
      assert s[8..] == Transmit(bytes[1..]);
      LoopbackByte(bytes[0]);
      DecodeTransmit(bytes[1..]);
    }
  }

  /** Combining the two scratchpad bytes as `(high as u16) << 8 | low`. */
  function Combine(low: bv8, high: bv8): (raw: int)
    ensures raw == high as int * 256 + low as int
  {
    (((high as bv16) << 8) | (low as bv16)) as int
  }

  /** A u16 reinterpreted as i16 (`as i16`): the i16 congruent to it modulo 2^16. */
  function AsI16(raw: int): (s: int)
    requires 0 <= raw < 0x1_0000
    ensures -0x8000 <= s < 0x8000
    ensures (raw - s) % 0x1_0000 == 0
  {
    if raw < 0x8000 then raw else raw - 0x1_0000
  }

  /** An i16 product: the release build wraps to the i16 congruent modulo 2^16. */
  function Wrap16(x: int): (r: int)
    ensures -0x8000 <= r < 0x8000
    ensures (x - r) % 0x1_0000 == 0
    ensures -0x8000 <= x < 0x8000 ==> r == x
  {
    (x + 0x8000) % 0x1_0000 - 0x8000
  }

  function Abs(x: int): nat {
    if x < 0 then -x else x
  }

  /** Rust's integer `/`: the quotient is truncated toward zero. */
  function TruncDiv(a: int, d: int): (q: int)
    requires d > 0
    ensures Abs(q) * d <= Abs(a) < (Abs(q) + 1) * d
    ensures a >= 0 ==> q >= 0
    ensures a <= 0 ==> q <= 0
  {
    if a >= 0 then a / d else -((-a) / d)
  }

  /** The decode of read_temperature_after_conversion: decidegrees from the raw scratchpad
      word, or None for the sentinels 0x0000 and 0xFFFF. */
  function DecodeScratchpad(raw: int): (t: Option<int>)
    requires 0 <= raw < 0x1_0000
    ensures t.None? <==> raw == 0 || raw == 0xFFFF
    ensures t.Some? ==> -2048 <= t.value <= 2047
  {
    if raw != 0 && raw != 0xFFFF then Some(TruncDiv(Wrap16(AsI16(raw) * 10), 16)) else None
  }

  /** Wherever the i16 product raw * 10 fits (|raw| up to 3276) it does not wrap, and the
      result is the reading in tenths of a degree, truncated toward zero. */
  lemma DecodeWithoutWrap(raw: int)
    requires 0 <= raw < 0x1_0000 && raw != 0 && raw != 0xFFFF
    requires -3276 <= AsI16(raw) <= 3276
    ensures DecodeScratchpad(raw) == Some(TruncDiv(AsI16(raw) * 10, 16))
    ensures var t := DecodeScratchpad(raw).value;
      Abs(t) * 16 <= Abs(AsI16(raw) * 10) < (Abs(t) + 1) * 16
  {
  }

  /** The sensor's own range, -55 to 125 degrees C (raw -880 to 2000 in 1/16 degree), lies
      inside it, so every genuine reading decodes to -550..1250 tenths. */
  lemma DecodeInSensorRange(raw: int)
    requires 0 <= raw < 0x1_0000 && raw != 0 && raw != 0xFFFF
    requires -880 <= AsI16(raw) <= 2000
    ensures DecodeScratchpad(raw) == Some(TruncDiv(AsI16(raw) * 10, 16))
    ensures -550 <= DecodeScratchpad(raw).value <= 1250
  {
    DecodeWithoutWrap(raw);
  }

  /** Worked values: 0x0191 is 25.0 degrees, 0xFFF8 is -0.5 degrees, and 0xFFFE (-0.125
      degrees) gives -1 where a floor division would give -2. */
  lemma DecodeExamples()
    ensures DecodeScratchpad(0x0191) == Some(250)
    ensures DecodeScratchpad(0xFFF8) == Some(-5)
    ensures DecodeScratchpad(0xFFFE) == Some(-1) && (AsI16(0xFFFE) * 10) / 16 == -2
  {
  }

  /** The slots emitted by start_temperature_conversion. */
  function ConversionWire(presence: bool): seq<Slot> {
    [ResetPulse] + (if presence then Transmit([SKIP_ROM, CONVERT_T]) else [])
  }

  /** The slots emitted by read_temperature_after_conversion. */
  function ReadoutWire(presence: bool): seq<Slot> {
    [ResetPulse] + (if presence then Transmit([SKIP_ROM, READ_SCRATCHPAD]) + ReadSlots(16) else [])
  }

  /** The value read_temperature_after_conversion returns, given the presence pulse and the
      sixteen levels the sensor drives in the read slots. */
  function Readout(presence: bool, levels: seq<bool>): Option<int>
    requires |levels| == 16
  {
    if presence then DecodeScratchpad(Combine(ByteOfLevels(levels[..8]), ByteOfLevels(levels[8..])))
    else None
  }

  /** Two write_byte calls in a row: the slots of a ROM command and a function command. */
  method WriteCommand(first: bv8, second: bv8) returns (slots: seq<Slot>)
    ensures slots == Transmit([first, second])
  {
    var a := WriteByte(first);
    var b := WriteByte(second);
    slots := a + b;
    assert Transmit([second]) == b;
  }

  lemma ReadSlotsAppend(m: nat, n: nat)
    ensures ReadSlots(m) + ReadSlots(n) == ReadSlots(m + n)
  {
  }

  /** reset: the presence pulse is the sampled level, active low. */
  method Reset(lineHigh: bool) returns (present: bool, slots: seq<Slot>)
    ensures present == !lineHigh
    ensures slots == [ResetPulse]
  {
    present := !lineHigh;
    slots := [ResetPulse];
  }

  /** start_temperature_conversion: reset, then SKIP_ROM and CONVERT_T when a device answered;
      it returns at once and never waits for the conversion. */
  method StartTemperatureConversion(presence: bool) returns (wire: seq<Slot>)
    ensures wire == ConversionWire(presence)
    ensures wire[0] == ResetPulse
    ensures DecodeWrites(wire[1..]) == if presence then [SKIP_ROM, CONVERT_T] else []
    ensures !presence ==> wire == [ResetPulse]
  {
    var present, reset := Reset(!presence);
    wire := reset;
    if present {
      var command := WriteCommand(SKIP_ROM, CONVERT_T);
      wire := wire + command;
    }
    assert wire[1..] == if presence then Transmit([SKIP_ROM, CONVERT_T]) else [];
    DecodeTransmit(if presence then [SKIP_ROM, CONVERT_T] else []);
  }

  lemma ReadoutWireShape(presence: bool)
    ensures !presence ==> ReadoutWire(presence) == [ResetPulse]
    ensures presence ==> |ReadoutWire(presence)| == 33
    ensures presence ==> DecodeWrites(ReadoutWire(presence)[1..17]) == [SKIP_ROM, READ_SCRATCHPAD]
    ensures presence ==> ReadoutWire(presence)[17..] == ReadSlots(16)
  {
    if presence {
      var w := ReadoutWire(presence);
      assert w[1..17] == Transmit([SKIP_ROM, READ_SCRATCHPAD]);
      assert w[17..] == ReadSlots(16);
      DecodeTransmit([SKIP_ROM, READ_SCRATCHPAD]);
    }
  }

  /** read_temperature_after_conversion: with no presence pulse it returns None having
      written and read nothing; otherwise it writes SKIP_ROM and READ_SCRATCHPAD, reads the
      low byte then the high byte, and decodes high * 256 + low. */
  method ReadTemperatureAfterConversion(presence: bool, levels: seq<bool>)
    returns (t: Option<int>, wire: seq<Slot>)
    requires |levels| == 16
    ensures wire == ReadoutWire(presence)
    ensures t == Readout(presence, levels)
  {
    var present, reset := Reset(!presence);
    wire := reset;
    t := None;
    if present {
      var command := WriteCommand(SKIP_ROM, READ_SCRATCHPAD);
      var low, lowSlots := ReadByte(levels[..8]);
      var high, highSlots := ReadByte(levels[8..]);
      ReadSlotsAppend(8, 8);
      wire := wire + (command + (lowSlots + highSlots));
      var raw := Combine(low, high);
      if raw != 0 && raw != 0xFFFF {
        var rawTemp := AsI16(raw);
        var tempValue := TruncDiv(Wrap16(rawTemp * 10), 16);
        t := Some(tempValue);
      }
      assert t == DecodeScratchpad(raw);
    }
  }

  /** What the readout returns: None without a presence pulse, otherwise the decoded
      high * 256 + low of the two bytes sampled. */
  lemma ReadoutValue(presence: bool, levels: seq<bool>)
    requires |levels| == 16
    ensures !presence ==> Readout(presence, levels) == None
    ensures presence ==>
              Readout(presence, levels)
              == DecodeScratchpad(ByteOfLevels(levels[8..]) as int * 256 + ByteOfLevels(levels[..8]) as int)
  {
  }
}
