/** The text side of the serial diagnostics in src/uart.rs (and its copies in src/main.rs):
    strings, unsigned integers in any base, and fixed-point decimals, each written one byte
    at a time. The output is the sequence of bytes sent, one character per byte, which
    holds for the ASCII text every caller sends; the transmitter registers and the wait for an empty data register are not modelled. */
module Uart {
  const BAUD_RATE: nat := 9600
  const CPU_FREQUENCY: nat := 16_000_000

  /** The baud-rate divisor, truncated to u16 as the source's cast does. */
  const UBRR_VALUE: nat := (CPU_FREQUENCY / (16 * BAUD_RATE) - 1) % 0x1_0000

  lemma UbrrValue()
    ensures UBRR_VALUE == 103
  {
  }

  /** send_string: every byte of s, in order. */
  method SendString(s: string) returns (out: string)
    ensures out == s
  {
    out := [];
    for k := 0 to |s|
      invariant out == s[..k]
    {
      out := out + [s[k]];
    }
  }

  // ---------------------------------------------------------------------------------------
  // send_integer

  /** The byte stored for a digit: the remainder is truncated to u8, digits below 10 become
      '0'.., others 'A'.. with the u8 sum wrapping. */
  function DigitChar(remainder: nat): (c: char)
    ensures remainder < 10 ==> c == ('0' as int + remainder) as char
    ensures 10 <= remainder < 36 ==> c == ('A' as int + remainder - 10) as char
    ensures (c as int) < 256
  {
    var d := remainder % 256;
    if d < 10 then (48 + d) as char else ((65 + (d - 10)) % 256) as char
  }

  /** Euclidean division of naturals, as the u16 `/` and `%` compute it. */
  lemma DivMod(v: nat, b: nat)
    requires b >= 1
    ensures 0 <= v / b <= v && 0 <= v % b < b && v % b <= v
    ensures v == (v / b) * b + v % b
    ensures v >= b ==> v / b >= 1
    ensures b >= 2 && v > 0 ==> v / b < v
  {
  }

  /** The characters the conversion loop leaves in the buffer: one per division while the
      value is non-zero and room is left, the last division's digit first. */
  function BufferedDigits(v: nat, base: nat, room: nat): (s: string)
    requires base >= 1
    ensures |s| <= room
    decreases room
  {
    if v == 0 || room == 0 then [] else BufferedDigits(v / base, base, room - 1) + [DigitChar(v % base)]
  }

  const BUFFER_SIZE: nat := 16

  /** What send_integer(v, base) sends. */
  function IntegerText(v: nat, base: nat): (s: string)
    requires v == 0 || base >= 1
    ensures 1 <= |s| <= BUFFER_SIZE
  {
    if v == 0 then "0" else BufferedDigits(v, base, BUFFER_SIZE)
  }

  /** send_integer: zero is sent as "0"; otherwise the digits are produced least significant
      first into a 16-byte buffer filled from its end, and the filled part is sent. Base 0
      divides by zero unless the value is zero, which is answered before any division. */
  method SendInteger(value: nat, base: nat) returns (out: string)
    requires value < 0x1_0000 && base < 0x1_0000 && (value == 0 || 1 <= base)
    ensures out == IntegerText(value, base)
  {
    if value == 0 {
      out := "0";
      return;
    }
    var buffer := new char[BUFFER_SIZE](_ => 0 as char);
    var i := BUFFER_SIZE;
    var v: nat := value;
    while v > 0 && i > 0
      invariant 0 <= i <= BUFFER_SIZE
      invariant BufferedDigits(value, base, BUFFER_SIZE) == BufferedDigits(v, base, i) + buffer[i..]
      decreases i
    {
      ghost var filled := buffer[i..];
      BufferedStep(v, base, i);
      DivBounds(v, base);
      i := i - 1;
      buffer[i] := DigitChar(v % base);
      assert buffer[i..] == [DigitChar(v % base)] + filled;
      v := v / base;
    }
    assert BufferedDigits(v, base, i) == [];
    assert IntegerText(value, base) == buffer[i..];
    out := [];
    for j := i to BUFFER_SIZE
      invariant out == buffer[i..j]
    {
      out := out + [buffer[j]];
    }
  }

  /** The bounds of a u16 `/` and `%`, without the product. */
  lemma DivBounds(v: nat, b: nat)
    requires b >= 1
    ensures 0 <= v / b <= v && 0 <= v % b < b
  {
    DivMod(v, b);
  }

  /** Dividing by a larger number. */
  lemma DivSmall(v: nat, b: nat)
    requires v < b
    ensures v / b == 0 && v % b == v
  {
    DivMod(v, b);
    MulAtLeast(v / b, b);
  }

  lemma MulAtLeast(q: int, b: nat)
    ensures q >= 1 ==> q * b >= b
  {
  }

  /** One turn of the conversion loop: the digit v % base goes in front of what the
      later turns leave. */
  lemma BufferedStep(v: nat, base: nat, room: nat)
    requires v > 0 && room > 0 && base >= 1
    ensures BufferedDigits(v, base, room) == BufferedDigits(v / base, base, room - 1) + [DigitChar(v % base)]
  {
  }

  /** Base 1 never shrinks the value, so the buffer fills with sixteen '0's. */
  lemma {:induction false} BaseOneFillsBuffer(v: nat, room: nat)
    requires v > 0
    ensures BufferedDigits(v, 1, room) == seq(room, _ => '0')
  {
    if room > 0 {
      BaseOneFillsBuffer(v, room - 1);
    }
  }

  /** The digits of v > 0 in base 2..36, most significant first, with no bound on length. */
  function Digits(v: nat, base: nat): (s: string)
    requires 2 <= base <= 36 && v > 0
    decreases v
  {
    if v < base then [DigitChar(v)] else Digits(v / base, base) + [DigitChar(v % base)]
  }

  /** The value of a digit character ('0'..'9', 'A'..'Z'). */
  function CharValue(c: char): (n: int)
    ensures '0' <= c <= '9' ==> n == c as int - '0' as int
  {
    if '0' <= c <= '9' then c as int - '0' as int else c as int - 'A' as int + 10
  }

  /** Reading a digit string back in base `base`. */
  function Value(s: string, base: nat): int
    decreases |s|
  {
    if s == [] then 0 else Value(s[..|s| - 1], base) * base + CharValue(s[|s| - 1])
  }

  function Pow2(n: nat): (p: nat)
    ensures p >= 1
  {
    if n == 0 then 1 else 2 * Pow2(n - 1)
  }

  lemma DivideByBase(v: nat, base: nat)
    requires 2 <= base
    ensures v / base <= v / 2
  {
    var q := v / base;
    assert q * base <= v;
    assert q * 2 <= q * base;
  }

  /** With room for as many digits as binary digits of v, nothing is cut off. */
  lemma {:induction false} BufferedIsDigits(v: nat, base: nat, room: nat)
    requires 2 <= base <= 36 && 0 < v < Pow2(room)
    ensures BufferedDigits(v, base, room) == Digits(v, base)
    decreases room
  {
    assert room > 0;
    BufferedStep(v, base, room);
    if v < base {
      DivSmall(v, base);
      assert BufferedDigits(0, base, room - 1) == [];
    } else {
      var q := v / base;
      assert 0 < q < Pow2(room - 1) by {
        DivMod(v, base);
        DivideByBase(v, base);
        assert Pow2(room) == 2 * Pow2(room - 1);
      }
      BufferedIsDigits(q, base, room - 1);
    }
  }

  lemma Pow2Sixteen()
    ensures Pow2(16) == 0x1_0000
  {
    assert Pow2(8) == 256;
  }

  /** For bases 2 to 36 a u16 never overflows the 16-byte buffer: send_integer sends
      exactly the base-N digits of v. */
  lemma IntegerTextIsDigits(v: nat, base: nat)
    requires 0 < v < 0x1_0000 && 2 <= base <= 36
    ensures IntegerText(v, base) == Digits(v, base)
  {
    Pow2Sixteen();
    BufferedIsDigits(v, base, BUFFER_SIZE);
  }

  /** A digit character reads back as its digit. */
  lemma DigitCharValue(d: nat)
    requires d < 36
    ensures CharValue(DigitChar(d)) == d
    ensures '0' <= DigitChar(d) <= '9' || 'A' <= DigitChar(d) <= 'Z'
    ensures DigitChar(d) == '0' <==> d == 0
    ensures d < 10 ==> '0' <= DigitChar(d) <= '9'
  {
  }

  /** The digits read back as v, and none of them is a leading zero. */
  lemma {:induction false} DigitsRoundTrip(v: nat, base: nat)
    requires 2 <= base <= 36 && v > 0
    ensures Value(Digits(v, base), base) == v
    ensures Digits(v, base)[0] != '0'
    ensures forall k :: 0 <= k < |Digits(v, base)| ==>
              ('0' <= Digits(v, base)[k] <= '9' || 'A' <= Digits(v, base)[k] <= 'Z')
    ensures base <= 10 ==> forall k :: 0 <= k < |Digits(v, base)| ==> '0' <= Digits(v, base)[k] <= '9'
    decreases v
  {
    var s := Digits(v, base);
    if v < base {
      DigitCharValue(v);
      assert s == [DigitChar(v)];
      assert s[..0] == [];
    } else {
      DivMod(v, base);
      var r := Digits(v / base, base);
      DigitsRoundTrip(v / base, base);
      DigitCharValue(v % base);
      assert s == r + [DigitChar(v % base)];
      assert s[..|s| - 1] == r;
      assert s[0] == r[0];
      assert v == (v / base) * base + v % base;
    }
  }

  /** So, for v > 0 and a base from 2 to 36, send_integer's output parses back to v, starts
      with a non-zero digit, and uses only '0'..'9' and 'A'..'Z'. */
  lemma IntegerTextRoundTrip(v: nat, base: nat)
    requires 0 < v < 0x1_0000 && 2 <= base <= 36
    ensures Value(IntegerText(v, base), base) == v
    ensures IntegerText(v, base)[0] != '0'
    ensures forall k :: 0 <= k < |IntegerText(v, base)| ==>
              ('0' <= IntegerText(v, base)[k] <= '9' || 'A' <= IntegerText(v, base)[k] <= 'Z')
    ensures base <= 10 ==>
              forall k :: 0 <= k < |IntegerText(v, base)| ==> '0' <= IntegerText(v, base)[k] <= '9'
  {
    IntegerTextIsDigits(v, base);
    DigitsRoundTrip(v, base);
  }

  // ---------------------------------------------------------------------------------------
  // send_decimal

  /** The divisor send_decimal builds: 10 to the power `places`, multiplied up in u16
      arithmetic, so it wraps from five places on. */
  function Divisor(places: nat): (d: nat)
    ensures d < 0x1_0000
  {
    if places == 0 then 1 else (Divisor(places - 1) * 10) % 0x1_0000
  }

  /** The fraction digits: for each power fd of the step fd, fd / 10, ... down to 1, the
      digit (fraction / fd) % 10. */
  function FractionText(fraction: nat, fd: nat): string
    decreases fd
  {
    if fd == 0 then [] else [FractionChar(fraction / fd)] + FractionText(fraction, fd / 10)
  }

  /** The fraction is written with decimal digits only. */
  lemma {:induction false} FractionTextDigits(fraction: nat, fd: nat)
    ensures forall k :: 0 <= k < |FractionText(fraction, fd)| ==> '0' <= FractionText(fraction, fd)[k] <= '9'
    decreases fd
  {
    if fd > 0 {
      FractionTextDigits(fraction, fd / 10);
      var s := FractionText(fraction, fd);
      var t := FractionText(fraction, fd / 10);
      assert s == [s[0]] + t;
      forall k | 0 < k < |s| ensures '0' <= s[k] <= '9' {
        assert s[k] == t[k - 1];
      }
    }
  }

  /** What send_decimal(v, places) sends. */
  function DecimalText(v: nat, places: nat): string
    requires places < 16
  {
    DivisorVanishes(places);
    var d := Divisor(places);
    DivBounds(v, d);
    DivBounds(d, 10);
    IntegerText(v / d, 10) + "." + FractionText(v % d, d / 10)
  }

  /** From sixteen places on the u16 divisor is 0 (10^16 is a multiple of 2^16) and
      send_decimal divides by zero. */
  lemma {:induction false} DivisorVanishes(places: nat)
    ensures Divisor(places) == 0 <==> places >= 16
  {
    if places > 16 {
      DivisorVanishes(places - 1);
    } else {
      assert Divisor(0) == 1;
      assert Divisor(1) == 10;
      assert Divisor(2) == 100;
      assert Divisor(3) == 1000;
      assert Divisor(4) == 10000;
      assert Divisor(5) == 34464;
      assert Divisor(6) == 16960;
      assert Divisor(7) == 38528;
      assert Divisor(8) == 57600;
      assert Divisor(9) == 51712;
      assert Divisor(10) == 58368;
      assert Divisor(11) == 59392;
      assert Divisor(12) == 4096;
      assert Divisor(13) == 40960;
      assert Divisor(14) == 16384;
      assert Divisor(15) == 32768;
      assert Divisor(16) == 0;
    }
  }

  /** send_decimal: the whole part in decimal, a point, then the fraction digits, one per
      step of the fraction divisor from divisor / 10 down to 1. */
  method SendDecimal(value: nat, places: nat) returns (out: string)
    requires value < 0x1_0000 && places < 16
    ensures out == DecimalText(value, places)
  {
    var divisor := 1;
    for k := 0 to places
      invariant divisor == Divisor(k)
    {
      divisor := (divisor * 10) % 0x1_0000;
    }
    DivisorVanishes(places);
    DivBounds(value, divisor);
    DivBounds(divisor, 10);
    var whole: nat := value / divisor;
    var fraction: nat := value % divisor;
    out := SendInteger(whole, 10);
    out := out + ".";
    var fractionDivisor: nat := divisor / 10;
    assert out + FractionText(fraction, fractionDivisor) == DecimalText(value, places);
    while fractionDivisor > 0
      invariant out + FractionText(fraction, fractionDivisor) == DecimalText(value, places)
      decreases fractionDivisor
    {
      DivBounds(fraction, fractionDivisor);
      DivBounds(fractionDivisor, 10);
      var digit := (fraction / fractionDivisor) % 10;
      out := out + [('0' as int + digit) as char];
      fractionDivisor := fractionDivisor / 10;
    }
    assert out + FractionText(fraction, 0) == out;
  }

  /** Reading one more digit. */
  lemma ValueAppend(s: string, c: char, base: nat)
    ensures Value(s + [c], base) == Value(s, base) * base + CharValue(c)
  {
    assert (s + [c])[..|s|] == s;
  }

  /** The whole part reads back, zero included. */
  lemma IntegerTextValue(v: nat)
    requires v < 0x1_0000
    ensures Value(IntegerText(v, 10), 10) == v
    ensures forall k :: 0 <= k < |IntegerText(v, 10)| ==> '0' <= IntegerText(v, 10)[k] <= '9'
  {
    if v == 0 {
      ValueAppend([], '0', 10);
      assert IntegerText(0, 10) == [] + ['0'];
    } else {
      IntegerTextRoundTrip(v, 10);
    }
  }

  function Pow10(n: nat): (p: nat)
    ensures p >= 1
  {
    if n == 0 then 1 else 10 * Pow10(n - 1)
  }

  /** The character send_decimal writes for a digit. */
  function FractionChar(d: nat): (c: char)
    ensures '0' <= c <= '9'
  {
    ('0' as int + d % 10) as char
  }

  lemma FractionCharValue(d: nat)
    ensures CharValue(FractionChar(d)) == d % 10
  {
  }

  /** Up to four places the divisor does not wrap, and the fraction is written as exactly
      `places` digits, zero-padded, that read back as the fraction. */
  lemma FractionTextValue(f: nat, places: nat)
    requires places <= 4 && f < Pow10(places)
    ensures Divisor(places) == Pow10(places)
    ensures |FractionText(f, Divisor(places) / 10)| == places
    ensures Value(FractionText(f, Divisor(places) / 10), 10) == f
  {
    DivisorPow10(places);
    if places == 0 {
      assert FractionText(f, 0) == [];
    } else if places == 1 {
      FractionValue1(f);
    } else if places == 2 {
      FractionValue2(f);
    } else if places == 3 {
      FractionValue3(f);
    } else {
      FractionValue4(f);
    }
  }

  /** One step of the fraction loop: the digit q = f / fd, then the rest with fd / 10. */
  lemma FractionStep(f: nat, fd: nat, q: nat, next: nat)
    requires fd > 0 && q == f / fd && next == fd / 10
    ensures FractionText(f, fd) == [FractionChar(q)] + FractionText(f, next)
  {
  }

  // The fraction digits for the divisors 10^(k-1) down to 1, as the loop writes them.

  lemma FractionDigits1(f: nat)
    ensures FractionText(f, 1) == [FractionChar(f)]
  {
    FractionStep(f, 1, f, 0);
    assert FractionText(f, 0) == [];
  }

  lemma FractionDigits2(f: nat)
    ensures FractionText(f, 10) == [FractionChar(f / 10), FractionChar(f)]
  {
    FractionDigits1(f);
    FractionStep(f, 10, f / 10, 1);
  }

  lemma FractionDigits3(f: nat)
    ensures FractionText(f, 100) == [FractionChar(f / 100), FractionChar(f / 10), FractionChar(f)]
  {
    FractionDigits2(f);
    FractionStep(f, 100, f / 100, 10);
  }

  lemma FractionDigits4(f: nat)
    ensures FractionText(f, 1000)
         == [FractionChar(f / 1000), FractionChar(f / 100), FractionChar(f / 10), FractionChar(f)]
  {
    FractionDigits3(f);
    FractionStep(f, 1000, f / 1000, 100);
  }

  // Reading back one to four digits.

  lemma ValueOne(a: char)
    ensures Value([a], 10) == CharValue(a)
  {
    ValueAppend([], a, 10);
    assert [a] == [] + [a];
  }

  lemma ValueTwo(a: char, b: char)
    ensures Value([a, b], 10) == CharValue(a) * 10 + CharValue(b)
  {
    ValueOne(a);
    ValueAppend([a], b, 10);
    assert [a, b] == [a] + [b];
  }

  lemma ValueThree(a: char, b: char, c: char)
    ensures Value([a, b, c], 10) == CharValue(a) * 100 + CharValue(b) * 10 + CharValue(c)
  {
    ValueTwo(a, b);
    ValueAppend([a, b], c, 10);
    assert [a, b, c] == [a, b] + [c];
  }

  lemma ValueFour(a: char, b: char, c: char, e: char)
    ensures Value([a, b, c, e], 10)
         == CharValue(a) * 1000 + CharValue(b) * 100 + CharValue(c) * 10 + CharValue(e)
  {
    ValueThree(a, b, c);
    ValueAppend([a, b, c], e, 10);
    assert [a, b, c, e] == [a, b, c] + [e];
  }

  // The fraction of one to four places reads back.

  lemma FractionValue1(f: nat)
    requires f < 10
    ensures |FractionText(f, 1)| == 1 && Value(FractionText(f, 1), 10) == f
  {
    FractionDigits1(f);
    FractionCharValue(f);
    ValueOne(FractionChar(f));
  }

  lemma FractionValue2(f: nat)
    requires f < 100
    ensures |FractionText(f, 10)| == 2 && Value(FractionText(f, 10), 10) == f
  {
    FractionDigits2(f);
    FractionCharValue(f / 10);
    FractionCharValue(f);
    ValueTwo(FractionChar(f / 10), FractionChar(f));
    assert (f / 10) % 10 == f / 10;
  }

  lemma FractionValue3(f: nat)
    requires f < 1000
    ensures |FractionText(f, 100)| == 3 && Value(FractionText(f, 100), 10) == f
  {
    FractionDigits3(f);
    FractionCharValue(f / 100);
    FractionCharValue(f / 10);
    FractionCharValue(f);
    ValueThree(FractionChar(f / 100), FractionChar(f / 10), FractionChar(f));
    Decompose3(f);
  }

  lemma FractionValue4(f: nat)
    requires f < 10000
    ensures |FractionText(f, 1000)| == 4 && Value(FractionText(f, 1000), 10) == f
  {
    FractionDigits4(f);
    FractionCharValue(f / 1000);
    FractionCharValue(f / 100);
    FractionCharValue(f / 10);
    FractionCharValue(f);
    ValueFour(FractionChar(f / 1000), FractionChar(f / 100), FractionChar(f / 10), FractionChar(f));
    Decompose4(f);
  }

  /** The decimal digits of f < 1000, one power of ten at a time. */
  lemma Decompose3(f: nat)
    requires f < 1000
    ensures f / 100 % 10 * 100 + f / 10 % 10 * 10 + f % 10 == f
  {
    var b, h := f / 100, f % 100;
    var c, e := h / 10, h % 10;
    assert f == 100 * b + 10 * c + e;
    assert f / 10 == 10 * b + c;
  }

  /** The decimal digits of f < 10000. */
  lemma Decompose4(f: nat)
    requires f < 10000
    ensures f / 1000 % 10 * 1000 + f / 100 % 10 * 100 + f / 10 % 10 * 10 + f % 10 == f
  {
    var a, g := f / 1000, f % 1000;
    var b, h := g / 100, g % 100;
    var c, e := h / 10, h % 10;
    assert f == 1000 * a + 100 * b + 10 * c + e;
    assert a < 10 && b < 10 && c < 10 && e < 10;
    assert f / 1000 % 10 == a;
    assert f / 100 == 10 * a + b;
    assert f / 100 % 10 == b;
    assert f / 10 == 100 * a + 10 * b + c;
    assert f / 10 % 10 == c;
    assert f % 10 == e;
  }

  /** Parsing send_decimal's output: for up to four places the text is decimal digits, a
      point, and exactly `places` more digits, and whole * 10^places + fraction gives v
      back. */
  lemma DecimalTextRoundTrip(v: nat, places: nat)
    requires v < 0x1_0000 && places <= 4
    ensures Pointed(DecimalText(v, places), places, Pow10(places), v)
    ensures |DecimalText(v, places)| >= places + 2
  {
    var d := Pow10(places);
    DivBounds(v, d);
    var q: nat, r: nat := v / d, v % d;
    assert v == q * d + r && r < d by { DivMod(v, d); }
    var w, f := IntegerText(q, 10), FractionText(r, d / 10);
    assert DecimalText(v, places) == w + "." + f by { DecimalTextParts(v, places, d, q, r); }
    assert |f| == places && Value(f, 10) == r by { FractionTextValue(r, places); }
    assert forall k :: 0 <= k < |f| ==> '0' <= f[k] <= '9' by { FractionTextDigits(r, d / 10); }
    assert Value(w, 10) == q && forall k :: 0 <= k < |w| ==> '0' <= w[k] <= '9' by {
      IntegerTextValue(q);
    }
    ReadPointed(w, f, d, v);
    assert DecimalText(v, places) == w + "." + f;
  }

  /** A text of decimal digits, a point and `places` more decimal digits, where
      whole * scale + fraction is v. */
  predicate Pointed(text: string, places: nat, scale: int, v: int) {
    var n := |text|;
    && n >= places + 1 && text[n - places - 1] == '.'
    && (forall k :: 0 <= k < n - places - 1 ==> '0' <= text[k] <= '9')
    && (forall k :: n - places <= k < n ==> '0' <= text[k] <= '9')
    && Value(text[..n - places - 1], 10) * scale + Value(text[n - places..], 10) == v
  }

  /** Reading back a text made of digits, a point, and more digits. */
  lemma ReadPointed(w: string, f: string, scale: int, v: int)
    requires forall k :: 0 <= k < |w| ==> '0' <= w[k] <= '9'
    requires forall k :: 0 <= k < |f| ==> '0' <= f[k] <= '9'
    requires Value(w, 10) * scale + Value(f, 10) == v
    ensures Pointed(w + "." + f, |f|, scale, v)
  {
    var text := w + "." + f;
    var n := |text|;
    assert text[..n - |f| - 1] == w && text[n - |f|..] == f;
    forall k | 0 <= k < n - |f| - 1 ensures '0' <= text[k] <= '9' {
      assert text[k] == w[k];
    }
    forall k | n - |f| <= k < n ensures '0' <= text[k] <= '9' {
      assert text[k] == f[k - |w| - 1];
    }
  }

  /** Up to four places send_decimal's divisor is 10^places. */
  lemma DecimalTextParts(v: nat, places: nat, d: nat, q: nat, r: nat)
    requires places <= 4 && d == Pow10(places) && q == v / d && r == v % d
    ensures DecimalText(v, places) == IntegerText(q, 10) + "." + FractionText(r, d / 10)
  {
    DivisorPow10(places);
  }

  lemma DivisorPow10(places: nat)
    requires places <= 4
    ensures Divisor(places) == Pow10(places)
  {
    if places == 0 {
    } else if places == 1 {
      assert Divisor(1) == 10 == Pow10(1);
    } else if places == 2 {
      assert Divisor(2) == 100 == Pow10(2);
    } else if places == 3 {
      assert Divisor(3) == 1000 == Pow10(3);
    } else {
      assert Divisor(4) == 10000 == Pow10(4);
    }
  }
}
