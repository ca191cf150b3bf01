/** src/st7735_display_task.rs: the integer-to-ASCII helpers that fill a
    byte buffer with the text of a reading and return how many bytes they
    wrote. A `&mut buffer[len..]` sub-slice is the same array with an
    offset `at`. */
module DisplayFormat {
  import opened Common

  /** The bytes of an ASCII string. */
  function Ascii(s: string): (r: seq<Byte>)
    requires forall i :: 0 <= i < |s| ==> s[i] as int < 0x100
    ensures |r| == |s|
    ensures forall i :: 0 <= i < |s| ==> r[i] == s[i] as int
  {
    seq(|s|, i requires 0 <= i < |s| => s[i] as int)
  }

  /** The ASCII bytes of a digit sequence, `b'0' + d` for each digit. */
  function DigitBytes(ds: seq<Digit>): (r: seq<Byte>)
    ensures |r| == |ds|
  {
    if ds == [] then [] else DigitBytes(ds[..|ds| - 1]) + ['0' as int + ds[|ds| - 1]]
  }

  /** Each byte is the ASCII digit for the digit at the same place. */
  lemma {:induction false} DigitBytesAt(ds: seq<Digit>)
    ensures forall i :: 0 <= i < |ds| ==> DigitBytes(ds)[i] == '0' as int + ds[i]
  {
    if ds != [] {
      DigitBytesAt(ds[..|ds| - 1]);
    }
  }

  /** The decimal text of `n`, without leading zeros, "0" for zero. */
  function DecimalBytes(n: nat): (r: seq<Byte>)
    ensures |r| == |Digits(n)|
  {
    DigitBytes(Digits(n))
  }

  /** The decimal text holds only ASCII digits, the first of them not '0'
      unless it is the only one, and it spells `n`. */
  lemma DecimalBytesSpell(n: nat)
    ensures var r := DecimalBytes(n);
            && (forall i :: 0 <= i < |r| ==> '0' as int <= r[i] <= '9' as int && r[i] == '0' as int + Digits(n)[i])
            && (|r| > 1 ==> r[0] != '0' as int)
            && DigitsValue(Digits(n)) == n
  {
    DigitBytesAt(Digits(n));
    DigitsDenote(n);
  }

  /** The digits of `q`, or none at all for zero: what the division loop has
      written before its first nonzero digit has no leading zero to show. */
  function DigitsOrNone(q: nat): (ds: seq<Digit>)
  {
    if q == 0 then [] else Digits(q)
  }

  /** The divisors of the division loop, each with the power of ten
      above it; the loop ends at divisor 0 with scale 1. */
  predicate ScalePair(divisor: nat, scale: nat)
  {
    || (divisor == 10000 && scale == 100000)
    || (divisor == 1000 && scale == 10000)
    || (divisor == 100 && scale == 1000)
    || (divisor == 10 && scale == 100)
    || (divisor == 1 && scale == 10)
    || (divisor == 0 && scale == 1)
  }

  /** Appending a digit to a quotient appends it to its digits, unless
      both are zero. */
  lemma DigitsAppend(q: nat, d: Digit)
    ensures DigitsOrNone(q * 10 + d) == if q == 0 && d == 0 then [] else DigitsOrNone(q) + [d]
  {
    var n := q * 10 + d;
    if n >= 10 {
      assert n / 10 == q && n % 10 == d;
    }
  }

  /** Fewer digits for smaller numbers. */
  lemma {:induction false} DigitsMonotone(a: nat, b: nat)
    requires a <= b
    ensures |Digits(a)| <= |Digits(b)|
  {
    if a >= 10 {
      DigitsMonotone(a / 10, b / 10);
    }
  }

  /** A number no larger than `n` has no more digits. */
  lemma PrefixDigits(q: nat, n: nat)
    requires q <= n
    ensures |DigitsOrNone(q)| <= |Digits(n)|
  {
    if q > 0 {
      DigitsMonotone(q, n);
    }
  }

  /** One more digit, one more byte. */
  lemma DigitBytesSnoc(ds: seq<Digit>, d: Digit)
    ensures DigitBytes(ds + [d]) == DigitBytes(ds) + ['0' as int + d]
  {
    var e := ds + [d];
    assert e[..|e| - 1] == ds && e[|e| - 1] == d;
    assert DigitBytes(e) == DigitBytes(e[..|e| - 1]) + ['0' as int + e[|e| - 1]];
  }

  /** The text of a quotient with one more digit appended. */
  lemma DigitTextStep(q: nat, d: Digit)
    ensures DigitBytes(DigitsOrNone(q * 10 + d)) ==
              if q > 0 || d > 0 then DigitBytes(DigitsOrNone(q)) + ['0' as int + d]
              else DigitBytes(DigitsOrNone(q))
    ensures |DigitsOrNone(q * 10 + d)| == |DigitsOrNone(q)| + (if q > 0 || d > 0 then 1 else 0)
  {
    DigitsAppend(q, d);
    if q > 0 || d > 0 {
      DigitBytesSnoc(DigitsOrNone(q), d);
    }
  }

  /** `num` is `q` whole units of `scale` plus a remainder `n` below it,
      for the powers of ten the loops use (spelled out per power, which
      keeps the arithmetic linear). */
  predicate Splits(num: nat, q: nat, scale: nat, n: nat)
  {
    || (scale == 100000 && num == q * 100000 + n && n < 100000)
    || (scale == 10000 && num == q * 10000 + n && n < 10000)
    || (scale == 1000 && num == q * 1000 + n && n < 1000)
    || (scale == 100 && num == q * 100 + n && n < 100)
    || (scale == 10 && num == q * 10 + n && n < 10)
    || (scale == 1 && num == q + n && n < 1)
  }

  /** One iteration of the division loop: the digit `n / divisor` extends
      the quotient, and `n % divisor` is what remains below the divisor. */
  lemma SplitStep(num: nat, q: nat, divisor: nat, scale: nat, n: nat)
    requires ScalePair(divisor, scale) && divisor > 0
    requires Splits(num, q, scale, n)
    ensures 0 <= n / divisor < 10
    ensures Splits(num, q * 10 + n / divisor, divisor, n % divisor)
    ensures q * 10 + n / divisor <= num
  {
    if divisor == 10000 {
    } else if divisor == 1000 {
    } else if divisor == 100 {
    } else if divisor == 10 {
    } else {
    }
  }

  /** When the scale reaches one the quotient is the whole number, and its
      digits are its decimal text. */
  lemma WholeText(num: nat, q: nat, n: nat)
    requires Splits(num, q, 1, n) && num > 0
    ensures q == num
    ensures DigitBytes(DigitsOrNone(q)) == DecimalBytes(num)
  {
  }

  /** An 8-bit number has at most three digits. */
  lemma ByteDigits(n: Byte)
    ensures |Digits(n)| <= 3
  {
    DigitsLength(n, 3);
  }

  /** A 16-bit number has at most five digits. */
  lemma U16Digits(n: U16)
    ensures |Digits(n)| <= 5
  {
    DigitsLength(n, 5);
  }

  /** The arithmetic state of the division loop in `format_u8` and
      `format_u16`: `q` is the quotient taken so far and `n` the rest below
      `scale`; `started` says whether a nonzero digit has been seen. */
  predicate DivisionState(num: nat, divisor: nat, scale: nat, q: nat, n: nat, started: bool)
  {
    ScalePair(divisor, scale) && Splits(num, q, scale, n) && q <= num && (started <==> q > 0)
  }

  /** The buffer state of the loop: the text of `q` (nothing while it is
      zero) sits at `text[at..at + len]`, and the rest of the buffer is as it
      was (`orig`). */
  ghost predicate TextState(num: nat, at: nat, text: seq<Byte>, orig: seq<Byte>, q: nat, len: nat)
  {
    && len == |DigitsOrNone(q)| <= |Digits(num)|
    && at + |Digits(num)| <= |text| == |orig|
    && text[at..at + len] == DigitBytes(DigitsOrNone(q))
    && text[..at] == orig[..at] && text[at + len..] == orig[at + len..]
  }

  /** One iteration, arithmetic part: the digit `n / divisor` extends the
      quotient and the loop moves on to the next divisor. */
  lemma DivisionStep(num: nat, divisor: nat, scale: nat, q: nat, n: nat, started: bool)
    requires DivisionState(num, divisor, scale, q, n, started) && divisor > 0
    ensures 0 <= n / divisor < 10
    ensures DivisionState(num, divisor / 10, divisor, q * 10 + n / divisor, n % divisor, started || n / divisor > 0)
  {
    SplitStep(num, q, divisor, scale, n);
  }

  /** Appending a digit that is nonzero, or follows a nonzero quotient,
      adds one byte to the text, which still fits in the number's width. */
  lemma EmitDigitText(num: nat, q: nat, digit: nat)
    requires digit < 10 && q * 10 + digit <= num && (digit > 0 || q > 0)
    ensures |DigitsOrNone(q * 10 + digit)| == |DigitsOrNone(q)| + 1 <= |Digits(num)|
    ensures DigitBytes(DigitsOrNone(q * 10 + digit)) == DigitBytes(DigitsOrNone(q)) + ['0' as int + digit]
  {
    DigitTextStep(q, digit);
    PrefixDigits(q * 10 + digit, num);
  }

  /** One iteration, buffer part, when the digit is written: it is nonzero
      or the text is not empty, and it lands at the end of the text. */
  lemma TextEmit(num: nat, at: nat, text: seq<Byte>, orig: seq<Byte>, q: nat, len: nat, digit: nat)
    requires TextState(num, at, text, orig, q, len)
    requires digit < 10 && q * 10 + digit <= num && (digit > 0 || q > 0)
    ensures at + len < |text|
    ensures TextState(num, at, text[at + len := '0' as int + digit], orig, q * 10 + digit, len + 1)
  {
    EmitDigitText(num, q, digit);
    var text' := text[at + len := '0' as int + digit];
    assert text'[at..at + len + 1] == text[at..at + len] + ['0' as int + digit];
    assert text'[..at] == text[..at];
    assert text'[at + len + 1..] == text[at + len + 1..];
  }

  /** One iteration, buffer part, when a leading zero is skipped: the text
      stays empty. */
  lemma TextSkip(num: nat, at: nat, text: seq<Byte>, orig: seq<Byte>, q: nat, len: nat)
    requires TextState(num, at, text, orig, q, len) && q == 0
    ensures TextState(num, at, text, orig, q * 10, len)
  {
  }

  /** When the loop ends the whole decimal text has been written and
      nothing else has changed. */
  lemma DivisionDone(num: nat, at: nat, text: seq<Byte>, orig: seq<Byte>,
                     scale: nat, q: nat, n: nat, started: bool, len: nat)
    requires DivisionState(num, 0, scale, q, n, started) && TextState(num, at, text, orig, q, len) && num > 0
    ensures len == |Digits(num)|
    ensures text[at..at + len] == DecimalBytes(num)
    ensures forall i :: 0 <= i < |text| && !(at <= i < at + len) ==> text[i] == orig[i]
  {
    WholeText(num, q, n);
    forall i | 0 <= i < |text| && !(at <= i < at + len)
      ensures text[i] == orig[i]
    {
      if i < at {
        assert text[..at][i] == orig[..at][i];
      } else {
        assert text[at + len..][i - at - len] == orig[at + len..][i - at - len];
      }
    }
  }

  /** Writes the digit after the text unless it is a leading zero (the
      text is still empty and the digit is zero). */
  method WriteDigit(buf: array<Byte>, at: nat, num: nat, digit: nat, started: bool, len: nat,
                    ghost q: nat, ghost orig: seq<Byte>)
    returns (started': bool, len': nat)
    requires TextState(num, at, buf[..], orig, q, len) && (started <==> q > 0)
    requires digit < 10 && q * 10 + digit <= num
    modifies buf
    ensures TextState(num, at, buf[..], orig, q * 10 + digit, len')
    ensures started' <==> q * 10 + digit > 0
  {
    ghost var text := buf[..];
    if digit > 0 || started {
      TextEmit(num, at, text, orig, q, len, digit);
      var ch: Byte := '0' as int + digit;
      buf[at + len] := ch;
      assert buf[..] == text[at + len := ch];
      len' := len + 1;
      started' := true;
    } else {
      TextSkip(num, at, text, orig, q, len);
      len' := len;
      started' := started;
    }
  }

  /** One pass of the loop in `format_u8` and `format_u16`: the digit
      `n / divisor` goes to the buffer, and `n % divisor` is what is left
      for the next divisor. */
  method DigitPass(buf: array<Byte>, at: nat, num: nat, divisor: nat, n: nat, started: bool, len: nat,
                   ghost scale: nat, ghost q: nat, ghost orig: seq<Byte>)
    returns (rest: nat, started': bool, len': nat, ghost q': nat)
    requires DivisionState(num, divisor, scale, q, n, started) && divisor > 0
    requires TextState(num, at, buf[..], orig, q, len)
    modifies buf
    ensures DivisionState(num, divisor / 10, divisor, q', rest, started')
    ensures TextState(num, at, buf[..], orig, q', len')
  {
    DivisionStep(num, divisor, scale, q, n, started);
    var digit := n / divisor;
    started', len' := WriteDigit(buf, at, num, digit, started, len, q, orig);
    q' := q * 10 + digit;
    rest := n % divisor;
  }

  /** `format_u8`: the decimal text of `num` at `buf[at..]`, returning its
      length; nothing else in the buffer changes. */
  method FormatU8(buf: array<Byte>, at: nat, num: Byte) returns (len: nat)
    requires at + |Digits(num)| <= buf.Length
    modifies buf
    ensures len == |Digits(num)| && 1 <= len <= 3
    ensures buf[at..at + len] == DecimalBytes(num)
    ensures forall i :: 0 <= i < buf.Length && !(at <= i < at + len) ==> buf[i] == old(buf[i])
  {
    ByteDigits(num);
    if num == 0 {
      buf[at] := '0' as int;
      return 1;
    }
    var n: nat := num;
    len := 0;
    var divisor: nat := 100;
    var started := false;
    ghost var scale: nat := 1000;
    ghost var q: nat := 0;
    ghost var orig := buf[..];
    while divisor > 0
      invariant DivisionState(num, divisor, scale, q, n, started)
      invariant TextState(num, at, buf[..], orig, q, len)
    {
      n, started, len, q := DigitPass(buf, at, num, divisor, n, started, len, scale, q, orig);
      scale := divisor;
      divisor := divisor / 10;
    }
    DivisionDone(num, at, buf[..], orig, scale, q, n, started, len);
  }

  /** `format_u16`: the same for a 16-bit number, up to five digits. */
  method FormatU16(buf: array<Byte>, at: nat, num: U16) returns (len: nat)
    requires at + |Digits(num)| <= buf.Length
    modifies buf
    ensures len == |Digits(num)| && 1 <= len <= 5
    ensures buf[at..at + len] == DecimalBytes(num)
    ensures forall i :: 0 <= i < buf.Length && !(at <= i < at + len) ==> buf[i] == old(buf[i])
  {
    U16Digits(num);
    if num == 0 {
      buf[at] := '0' as int;
      return 1;
    }
    var n: nat := num;
    len := 0;
    var divisor: nat := 10000;
    var started := false;
    ghost var scale: nat := 100000;
    ghost var q: nat := 0;
    ghost var orig := buf[..];
    while divisor > 0
      invariant DivisionState(num, divisor, scale, q, n, started)
      invariant TextState(num, at, buf[..], orig, q, len)
    {
      n, started, len, q := DigitPass(buf, at, num, divisor, n, started, len, scale, q, orig);
      scale := divisor;
      divisor := divisor / 10;
    }
    DivisionDone(num, at, buf[..], orig, scale, q, n, started, len);
  }

  /** A two-byte label, the decimal text of a number, and an optional
      one-byte unit. */
  function Labelled(prefix: string, n: nat, suffix: string): seq<Byte>
    requires |prefix| == 2 && |suffix| <= 1
    requires forall i :: 0 <= i < |prefix| ==> prefix[i] as int < 0x100
    requires forall i :: 0 <= i < |suffix| ==> suffix[i] as int < 0x100
  {
    Ascii(prefix) + DecimalBytes(n) + Ascii(suffix)
  }

  /** The shared body of `format_temp`, `format_humi` and `format_soil`:
      prefix, digits, unit. */
  method FormatReading(buf: array<Byte>, prefix: string, num: Byte, unit: char) returns (len: nat)
    requires |prefix| == 2 && forall i :: 0 <= i < 2 ==> prefix[i] as int < 0x100
    requires unit as int < 0x100
    requires |Digits(num)| + 3 <= buf.Length
    modifies buf
    ensures len == |Digits(num)| + 3
    ensures buf[..len] == Labelled(prefix, num, [unit])
    ensures forall i :: len <= i < buf.Length ==> buf[i] == old(buf[i])
  {
    buf[0] := prefix[0] as int;
    buf[1] := prefix[1] as int;
    len := 2;
    var digits := FormatU8(buf, len, num);
    len := len + digits;
    buf[len] := unit as int;
    len := len + 1;
    assert buf[..len] == buf[..2] + buf[2..len - 1] + [buf[len - 1]];
  }

  /** `format_temp`: "T:" + digits + "C". */
  method FormatTemp(buf: array<Byte>, temp: Byte) returns (len: nat)
    requires |Digits(temp)| + 3 <= buf.Length
    modifies buf
    ensures len == |Digits(temp)| + 3 && 4 <= len <= 6
    ensures buf[..len] == Labelled("T:", temp, "C")
    ensures forall i :: len <= i < buf.Length ==> buf[i] == old(buf[i])
  {
    DigitsLength(temp, 3);
    len := FormatReading(buf, "T:", temp, 'C');
  }

  /** `format_humi`: "H:" + digits + "%". */
  method FormatHumi(buf: array<Byte>, humi: Byte) returns (len: nat)
    requires |Digits(humi)| + 3 <= buf.Length
    modifies buf
    ensures len == |Digits(humi)| + 3 && 4 <= len <= 6
    ensures buf[..len] == Labelled("H:", humi, "%")
    ensures forall i :: len <= i < buf.Length ==> buf[i] == old(buf[i])
  {
    DigitsLength(humi, 3);
    len := FormatReading(buf, "H:", humi, '%');
  }

  /** `format_soil`: "S:" + digits + "%". */
  method FormatSoil(buf: array<Byte>, soil: Byte) returns (len: nat)
    requires |Digits(soil)| + 3 <= buf.Length
    modifies buf
    ensures len == |Digits(soil)| + 3 && 4 <= len <= 6
    ensures buf[..len] == Labelled("S:", soil, "%")
    ensures forall i :: len <= i < buf.Length ==> buf[i] == old(buf[i])
  {
    DigitsLength(soil, 3);
    len := FormatReading(buf, "S:", soil, '%');
  }

  /** `format_light`: "L:" + digits, no unit. */
  method FormatLight(buf: array<Byte>, lux: U16) returns (len: nat)
    requires |Digits(lux)| + 2 <= buf.Length
    modifies buf
    ensures len == |Digits(lux)| + 2 && 3 <= len <= 7
    ensures buf[..len] == Labelled("L:", lux, "")
    ensures forall i :: len <= i < buf.Length ==> buf[i] == old(buf[i])
  {
    DigitsLength(lux, 5);
    buf[0] := 'L' as int;
    buf[1] := ':' as int;
    len := 2;
    var digits := FormatU16(buf, len, lux);
    len := len + digits;
    assert buf[..len] == buf[..2] + buf[2..len];
  }

  /** The letter for a relay: upper case when it is on. */
  function RelayLetter(upper: char, on: bool): (b: Byte)
    requires 'A' <= upper <= 'Z'
    ensures 'A' as int <= b <= 'Z' as int <==> on
  {
    if on then upper as int else upper as int + 32
  }

  /** The seven bytes `format_relay_status` writes. */
  function RelayStatus(water: bool, light: bool, fan: bool, buzzer: bool): seq<Byte>
  {
    [RelayLetter('W', water), ' ' as int, RelayLetter('L', light), ' ' as int,
     RelayLetter('F', fan), ' ' as int, RelayLetter('B', buzzer)]
  }

  /** Letters sit at even positions, each upper case exactly when its relay
      is on and naming it in either case; spaces sit between them. */
  lemma RelayStatusLayout(water: bool, light: bool, fan: bool, buzzer: bool)
    ensures var s := RelayStatus(water, light, fan, buzzer);
            && |s| == 7
            && (forall i :: 0 <= i < 7 && i % 2 == 1 ==> s[i] == ' ' as int)
            && ('A' as int <= s[0] <= 'Z' as int <==> water) && (s[0] == 'W' as int || s[0] == 'w' as int)
            && ('A' as int <= s[2] <= 'Z' as int <==> light) && (s[2] == 'L' as int || s[2] == 'l' as int)
            && ('A' as int <= s[4] <= 'Z' as int <==> fan) && (s[4] == 'F' as int || s[4] == 'f' as int)
            && ('A' as int <= s[6] <= 'Z' as int <==> buzzer) && (s[6] == 'B' as int || s[6] == 'b' as int)
  {
  }

  /** `format_relay_status`: always seven bytes. */
  method FormatRelayStatus(buf: array<Byte>, water: bool, light: bool, fan: bool, buzzer: bool) returns (len: nat)
    requires 7 <= buf.Length
    modifies buf
    ensures len == 7
    ensures buf[..len] == RelayStatus(water, light, fan, buzzer)
    ensures forall i :: len <= i < buf.Length ==> buf[i] == old(buf[i])
  {
    len := 0;
    buf[len] := if water then 'W' as int else 'w' as int;
    len := len + 1;
    buf[len] := ' ' as int;
    len := len + 1;
    buf[len] := if light then 'L' as int else 'l' as int;
    len := len + 1;
    buf[len] := ' ' as int;
    len := len + 1;
    buf[len] := if fan then 'F' as int else 'f' as int;
    len := len + 1;
    buf[len] := ' ' as int;
    len := len + 1;
    buf[len] := if buzzer then 'B' as int else 'b' as int;
    len := len + 1;
  }
}
