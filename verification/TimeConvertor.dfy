/** The text forms of timestamps, times of day and dates. */
module TimeConvertor {
  import opened Decimal
  import opened DateTimes
  import opened Division
  import opened Sequences
  import IntConvertor

  const COLON: byte := 58
  const DOT: byte := 46

  // ----- numbers of fixed width

  /** n in exactly w digits. */
  function Fixed(n: nat, w: nat): (s: seq<byte>)
    requires w >= 1 && n < Pow10(w)
    ensures |s| == w && AllDigits(s) && Value(s) == n
  {
    DigitsLength(n, w);
    ValueOfZeros(w - |Digits(n)|, Digits(n));
    ValueOfDigits(n);
    PadTo(Digits(n), w, ZERO)
  }

  lemma FixedOfValue(s: seq<byte>)
    requires s != [] && AllDigits(s)
    ensures Value(s) < Pow10(|s|) && Fixed(Value(s), |s|) == s
  {
    ValueBound(s);
    SameWidthSameValue(s, Fixed(Value(s), |s|));
  }

  /** Lexicographic order of byte strings, neither a prefix of the other. */
  ghost predicate LexLess(s: seq<byte>, t: seq<byte>) {
    exists k: nat :: DiffersAt(s, t, k)
  }

  ghost predicate DiffersAt(s: seq<byte>, t: seq<byte>, k: nat) {
    k < |s| && k < |t| && s[..k] == t[..k] && s[k] < t[k]
  }

  lemma LexLessExtends(s: seq<byte>, t: seq<byte>, u: seq<byte>, v: seq<byte>)
    requires LexLess(s, t)
    ensures LexLess(s + u, t + v)
  {
    var k: nat :| DiffersAt(s, t, k);
    assert (s + u)[..k] == s[..k] && (t + v)[..k] == t[..k];
    assert DiffersAt(s + u, t + v, k);
  }

  lemma LexLessAfter(p: seq<byte>, s: seq<byte>, t: seq<byte>)
    requires LexLess(s, t)
    ensures LexLess(p + s, p + t)
  {
    var k: nat :| DiffersAt(s, t, k);
    assert (p + s)[..|p| + k] == p + s[..k] && (p + t)[..|p| + k] == p + t[..k];
    assert DiffersAt(p + s, p + t, |p| + k);
  }

  /** Numerals of one width are ordered as the numbers they denote. */
  lemma {:induction false} NumeralOrder(s: seq<byte>, t: seq<byte>)
    requires AllDigits(s) && AllDigits(t) && |s| == |t| && Value(s) < Value(t)
    ensures LexLess(s, t)
  {
    var k := |s| - 1;
    var s', t' := s[..k], t[..k];
    assert s == s' + [s[k]] && t == t' + [t[k]];
    if Value(s') < Value(t') {
      NumeralOrder(s', t');
      LexLessExtends(s', t', [s[k]], [t[k]]);
    } else {
      SameWidthSameValue(s', t');
      assert DiffersAt(s, t, k);
    }
  }

  // ----- the texts

  predicate Printable(d: Date) {
    IsDate(d) && 0 <= d.year <= 9999
  }

  lemma SmallPowers()
    ensures Pow10(1) == 10 && Pow10(2) == 100 && Pow10(3) == 1000 && Pow10(4) == 10000
    ensures Pow10(5) == 100000 && Pow10(6) == 1000000 && Pow10(7) == 10000000
    ensures Pow10(8) == 100000000 && Pow10(9) == 1000000000
  {
    assert Pow10(2) == 10 * Pow10(1) && Pow10(1) == 10 * Pow10(0);
    assert Pow10(4) == 10 * Pow10(3) && Pow10(3) == 10 * Pow10(2);
    assert Pow10(6) == 10 * Pow10(5) && Pow10(5) == 10 * Pow10(4);
    assert Pow10(8) == 10 * Pow10(7) && Pow10(7) == 10 * Pow10(6);
    assert Pow10(9) == 10 * Pow10(8);
  }

  /** YYYYMMDD */
  function DateText(d: Date): (s: seq<byte>)
    requires Printable(d)
    ensures |s| == 8
  {
    SmallPowers();
    Fixed(d.year, 4) + Fixed(d.month, 2) + Fixed(d.day, 2)
  }

  /** HH:MM:SS */
  function ClockText(c: Clock): (s: seq<byte>)
    requires IsClock(c)
    ensures |s| == 8
  {
    SmallPowers();
    Fixed(c.hour, 2) + [COLON] + Fixed(c.minute, 2) + [COLON] + Fixed(c.second, 2)
  }

  lemma FactorOfPrecision(p: nat)
    requires p <= 9
    ensures PrecisionFactor(p) * Pow10(p) == NANOS_PER_SEC
    decreases 9 - p
  {
    if p == 9 {
      SmallPowers();
    } else {
      FactorOfPrecision(p + 1);
      assert Pow10(p + 1) == 10 * Pow10(p);
    }
  }

  lemma QuotientBelow(n: nat, f: int, q: int)
    requires f >= 1 && n < q * f
    ensures n / f < q && n / f <= n
  {
    if n / f >= q {
      Multiply(q, n / f, f);
    }
  }

  lemma FractionFits(time: nat, p: nat)
    requires p <= 9
    ensures GetFraction(time, p) < Pow10(p) && GetFraction(time, p) < NANOS_PER_SEC
  {
    FactorOfPrecision(p);
    QuotientBelow(GetNanosecond(time), PrecisionFactor(p), Pow10(p));
  }

  lemma Multiply(a: int, b: int, f: int)
    requires a <= b && f >= 0
    ensures a * f <= b * f
  {
  }

  /** .fff, nothing at precision 0 */
  function FractionText(fraction: nat, p: nat): (s: seq<byte>)
    requires fraction < Pow10(p)
    ensures |s| == if p == 0 then 0 else p + 1
  {
    if p == 0 then [] else [DOT] + Fixed(fraction, p)
  }

  function TimeText(time: nat, p: nat): (s: seq<byte>)
    requires time < NANOS_PER_DAY && p <= 9
    ensures |s| == if p == 0 then 8 else 9 + p
  {
    HMSRoundTrip(time);
    FractionFits(time, p);
    ClockText(GetHMS(time)) + FractionText(GetFraction(time, p), p)
  }

  function StampText(t: Stamp, p: nat): (s: seq<byte>)
    requires t.InDay() && Printable(GetYMD(t.date)) && p <= 9
    ensures |s| == if p == 0 then 17 else 18 + p
  {
    DateText(GetYMD(t.date)) + [MINUS] + TimeText(t.time, p)
  }

  // ----- printing

  /** clamp_of(precision, 0, 9) */
  function Clamp(precision: int): (p: nat)
    ensures p <= 9
  {
    if precision < 0 then 0 else if precision > 9 then 9 else precision
  }

  /** integer_to_string_padded(buf + off, len, t), within a text that grows from the left. */
  method WriteNumber(buf: array<byte>, off: nat, len: nat, t: nat)
    requires 1 <= len && off + len <= buf.Length && t < Pow10(len) && t <= IntConvertor.IntType.Int32.Max()
    modifies buf
    ensures buf[..off + len] == old(buf[..off]) + Fixed(t, len)
  {
    DigitsLength(t, len);
    ghost var w := buf[..];
    var p := IntConvertor.IntegerToStringPadded(IntConvertor.IntType.Int32, buf, off, len, t, ZERO);
    assert buf[..off + len] == buf[..][..off + len] == w[..off] + Fixed(t, len);
  }

  method WriteChar(buf: array<byte>, off: nat, c: byte)
    requires off < buf.Length
    modifies buf
    ensures buf[..off + 1] == old(buf[..off]) + [c]
  {
    buf[off] := c;
  }

  method WriteDate(result: array<byte>, d: Date)
    requires Printable(d) && 8 <= result.Length
    modifies result
    ensures result[..8] == DateText(d)
  {
    SmallPowers();
    WriteNumber(result, 0, 4, d.year);
    WriteNumber(result, 4, 2, d.month);
    WriteNumber(result, 6, 2, d.day);
  }

  method WriteClock(result: array<byte>, off: nat, c: Clock)
    requires IsClock(c) && off + 8 <= result.Length
    modifies result
    ensures result[..off + 8] == old(result[..off]) + ClockText(c)
  {
    SmallPowers();
    ghost var before := result[..off];
    WriteNumber(result, off, 2, c.hour);
    WriteChar(result, off + 2, COLON);
    ghost var hours := Fixed(c.hour, 2) + [COLON];
    assert result[..off + 3] == before + hours;
    WriteNumber(result, off + 3, 2, c.minute);
    WriteChar(result, off + 5, COLON);
    ghost var minutes := Fixed(c.minute, 2) + [COLON];
    assert result[..off + 6] == before + (hours + minutes);
    WriteNumber(result, off + 6, 2, c.second);
    assert ClockText(c) == hours + minutes + Fixed(c.second, 2);
  }

  /** The part from the hour on, at position off; the result is where it ends. */
  method WriteTime(result: array<byte>, off: nat, c: Clock, fraction: nat, p: nat) returns (end: nat)
    requires IsClock(c) && p <= 9 && fraction < Pow10(p) && fraction < NANOS_PER_SEC && off + 18 <= result.Length
    modifies result
    ensures end == off + 8 + |FractionText(fraction, p)|
    ensures result[..end] == old(result[..off]) + (ClockText(c) + FractionText(fraction, p))
  {
    ghost var before := result[..off];
    WriteClock(result, off, c);
    end := WriteFraction(result, off + 8, fraction, p);
    Associative(before, ClockText(c), FractionText(fraction, p));
  }

  method WriteFraction(result: array<byte>, off: nat, fraction: nat, p: nat) returns (end: nat)
    requires p <= 9 && fraction < Pow10(p) && fraction < NANOS_PER_SEC && off + 10 <= result.Length
    modifies result
    ensures end == off + |FractionText(fraction, p)|
    ensures result[..end] == old(result[..off]) + FractionText(fraction, p)
  {
    end := off;
    if p != 0 {
      ghost var before := result[..off];
      WriteChar(result, off, DOT);
      WriteNumber(result, off + 1, p, fraction);
      end := off + 1 + p;
      Associative(before, [DOT], Fixed(fraction, p));
    }
  }

  method PrintTimeStamp(value: Stamp, precision: int) returns (s: seq<byte>)
    requires value.InDay() && Printable(GetYMD(value.date))
    ensures s == StampText(value, Clamp(precision))
  {
    var result := new byte[27];
    var p := Clamp(precision);
    var ymd, hms, fraction := GetYMD(value.date), GetHMS(value.time), GetFraction(value.time, p);
    HMSRoundTrip(value.time);
    FractionFits(value.time, p);
    WriteDate(result, ymd);
    WriteChar(result, 8, MINUS);
    var end := WriteTime(result, 9, hms, fraction, p);
    s := result[..end];
  }

  method PrintTimeOnly(value: Stamp, precision: int) returns (s: seq<byte>)
    requires value.InDay()
    ensures s == TimeText(value.time, Clamp(precision))
  {
    var result := new byte[18];
    var p := Clamp(precision);
    var hms, fraction := GetHMS(value.time), GetFraction(value.time, p);
    HMSRoundTrip(value.time);
    FractionFits(value.time, p);
    var end := WriteTime(result, 0, hms, fraction, p);
    s := result[..end];
  }

  method PrintDate(value: Stamp) returns (s: seq<byte>)
    requires Printable(GetYMD(value.date))
    ensures s == DateText(GetYMD(value.date))
  {
    var result := new byte[8];
    WriteDate(result, GetYMD(value.date));
    s := result[..];
  }

  // ----- parsing: what is to be accepted, by the numbers the digits denote

  /** The eight digits of a date; the day is only compared with 31. */
  function ParsedYMD(s: seq<byte>): (r: Option<Date>)
    requires |s| == 8
  {
    if AllDigits(s) && 1 <= Value(s[4..6]) <= 12 && 1 <= Value(s[6..8]) <= 31
    then Some(Date(Value(s[..4]), Value(s[4..6]), Value(s[6..8])))
    else None
  }

  /** HH:MM:SS; second 60 is accepted. */
  function ParsedClock(s: seq<byte>): (r: Option<Clock>)
    requires |s| == 8
  {
    if AllDigits(s[..2]) && s[2] == COLON && AllDigits(s[3..5]) && s[5] == COLON && AllDigits(s[6..8])
       && Value(s[..2]) <= 23 && Value(s[3..5]) <= 59 && Value(s[6..8]) <= 60
    then Some(Clock(Value(s[..2]), Value(s[3..5]), Value(s[6..8])))
    else None
  }

  /** The number after the dot; no fraction at all counts as 0. */
  function ParsedFraction(s: seq<byte>): (r: Option<nat>) {
    if s == [] then Some(0)
    else if s[0] == DOT && AllDigits(s[1..]) then Some(Value(s[1..]))
    else None
  }

  function ParsedTime(s: seq<byte>): (r: Option<int>)
    requires 8 <= |s| <= 18
  {
    var c, f := ParsedClock(s[..8]), ParsedFraction(s[8..]);
    if c.Some? && f.Some?
    then Some(MakeHMS(c.value.hour, c.value.minute, c.value.second, ConvertToNanos(f.value, PrecisionOf(s[8..]))))
    else None
  }

  /** The number of digits after the dot. */
  function PrecisionOf(fraction: seq<byte>): (p: nat) {
    if fraction == [] then 0 else |fraction| - 1
  }

  function ParsedTimeOnly(s: seq<byte>): Option<Stamp> {
    if 8 <= |s| <= 18 && ParsedTime(s).Some? then Some(Stamp(0, ParsedTime(s).value)) else None
  }

  function ParsedDate(s: seq<byte>): Option<Stamp> {
    if |s| == 8 && ParsedYMD(s).Some? then Some(Stamp(JulianOf(ParsedYMD(s).value), 0)) else None
  }

  function ParsedTimeStamp(s: seq<byte>): Option<Stamp> {
    if 17 <= |s| <= 27 && ParsedYMD(s[..8]).Some? && s[8] == MINUS && ParsedTime(s[9..]).Some?
    then Some(Stamp(JulianOf(ParsedYMD(s[..8]).value), ParsedTime(s[9..]).value))
    else None
  }

  // ----- parsing: the code

  method AreDigits(value: seq<byte>, i: nat, n: nat) returns (ok: bool)
    requires i + n <= |value|
    ensures ok <==> AllDigits(value[i..i + n])
  {
    var c := 0;
    while c < n
      invariant c <= n
      invariant forall k :: i <= k < i + c ==> IsDigit(value[k])
    {
      if !IsDigit(value[i + c]) {
        assert !IsDigit(value[i..i + n][c]);
        return false;
      }
      c := c + 1;
    }
    return true;
  }

  function Two(s: seq<byte>, i: nat): (n: int)
    requires i + 2 <= |s|
  {
    10 * (s[i] as int - 48) + (s[i + 1] as int - 48)
  }

  lemma TwoIsValue(s: seq<byte>, i: nat)
    requires i + 2 <= |s| && AllDigits(s[i..i + 2])
    ensures Two(s, i) == Value(s[i..i + 2])
  {
    var d := s[i..i + 2];
    assert d[..1][..0] == [] && d[..1] == [d[0]];
    assert Value(d) == 10 * Value(d[..1]) + (d[1] - 48);
    assert Value(d[..1]) == 10 * Value(d[..1][..0]) + (d[0] - 48);
  }

  lemma FourIsValue(s: seq<byte>)
    requires 4 <= |s| && AllDigits(s[..4])
    ensures 100 * Two(s, 0) + Two(s, 2) == Value(s[..4])
  {
    var d := s[..4];
    assert d[..3][..2] == s[0..2];
    TwoIsValue(s, 0);
    assert Value(d) == 10 * Value(d[..3]) + (d[3] - 48);
    assert Value(d[..3]) == 10 * Value(d[..3][..2]) + (d[2] - 48);
  }

  method ReadYMD(value: seq<byte>) returns (r: Option<Date>)
    requires 8 <= |value|
    ensures r == ParsedYMD(value[..8])
  {
    var s := value[..8];
    var ok := AreDigits(value, 0, 8);
    assert value[0..8] == s;
    if !ok {
      return None;
    }
    var year := 100 * Two(value, 0) + Two(value, 2);
    var mon := Two(value, 4);
    var mday := Two(value, 6);
    assert value[..4] == s[..4] && value[4..6] == s[4..6] && value[6..8] == s[6..8];
    FourIsValue(value);
    TwoIsValue(value, 4);
    TwoIsValue(value, 6);
    if mon < 1 || 12 < mon {
      return None;
    }
    if mday < 1 || 31 < mday {
      return None;
    }
    r := Some(Date(year, mon, mday));
  }

  lemma ClockWindow(value: seq<byte>, i: nat)
    requires i + 8 <= |value|
    ensures var s := value[i..i + 8];
      value[i..i + 2] == s[..2] && value[i + 3..i + 5] == s[3..5] && value[i + 6..i + 8] == s[6..8]
  {
    Window(value, i, 8, 0, 2);
    Window(value, i, 8, 3, 5);
    Window(value, i, 8, 6, 8);
  }

  lemma Window(value: seq<byte>, i: nat, n: nat, a: nat, b: nat)
    requires i + n <= |value| && a <= b <= n
    ensures value[i..i + n][a..b] == value[i + a..i + b]
  {
    var s, t := value[i..i + n][a..b], value[i + a..i + b];
    assert |s| == |t| && forall k :: 0 <= k < |s| ==> s[k] == t[k];
  }

  method ReadClock(value: seq<byte>, i: nat) returns (r: Option<Clock>)
    requires i + 8 <= |value|
    ensures r == ParsedClock(value[i..i + 8])
  {
    var s := value[i..i + 8];
    ClockWindow(value, i);
    var ok := AreDigits(value, i, 2);
    if !ok || value[i + 2] != COLON {
      return None;
    }
    ok := AreDigits(value, i + 3, 2);
    if !ok || value[i + 5] != COLON {
      return None;
    }
    ok := AreDigits(value, i + 6, 2);
    if !ok {
      return None;
    }
    var hour, min, sec := Two(value, i), Two(value, i + 3), Two(value, i + 6);
    TwoIsValue(value, i);
    TwoIsValue(value, i + 3);
    TwoIsValue(value, i + 6);
    if 23 < hour || 59 < min || 60 < sec {
      return None;
    }
    r := Some(Clock(hour, min, sec));
  }

  method ReadFraction(value: seq<byte>, start: nat) returns (r: Option<int>)
    requires start <= |value|
    ensures r == ParsedFraction(value[start..])
  {
    var i := start;
    if i == |value| {
      return Some(0);
    }
    if value[i] != DOT {
      return None;
    }
    i := i + 1;
    ghost var digits := value[i..];
    assert value[start..][1..] == digits && digits[..0] == [];
    var fraction := 0;
    while i < |value|
      invariant start + 1 <= i <= |value|
      invariant AllDigits(digits[..i - start - 1])
      invariant fraction == Value(digits[..i - start - 1])
    {
      var ch := value[i];
      assert ch == digits[i - start - 1];
      if !IsDigit(ch) {
        return None;
      }
      ValueAppend(digits[..i - start - 1], ch);
      assert digits[..i - start] == digits[..i - start - 1] + [ch];
      fraction := fraction * 10 + (ch as int - 48);
      i := i + 1;
    }
    assert digits[..i - start - 1] == digits;
    r := Some(fraction);
  }

  method ReadTime(value: seq<byte>, i: nat) returns (r: Option<int>)
    requires i + 8 <= |value| <= i + 18
    ensures r == ParsedTime(value[i..])
  {
    assert value[i..i + 8] == value[i..][..8] && value[i + 8..] == value[i..][8..];
    var c := ReadClock(value, i);
    if c.None? {
      return None;
    }
    var f := ReadFraction(value, i + 8);
    if f.None? {
      return None;
    }
    var precision := if |value| == i + 8 then 0 else |value| - i - 9;
    r := Some(MakeHMS(c.value.hour, c.value.minute, c.value.second, ConvertToNanos(f.value, precision)));
  }

  method ParseTimeStamp(value: seq<byte>) returns (r: Option<Stamp>)
    ensures r == ParsedTimeStamp(value)
  {
    if |value| < 17 || |value| > 27 {
      return None;
    }
    var ymd := ReadYMD(value);
    if ymd.None? || value[8] != MINUS {
      return None;
    }
    var time := ReadTime(value, 9);
    if time.None? {
      return None;
    }
    r := Some(Stamp(JulianDate(ymd.value.year, ymd.value.month, ymd.value.day), time.value));
  }

  method ParseTimeOnly(value: seq<byte>) returns (r: Option<Stamp>)
    ensures r == ParsedTimeOnly(value)
  {
    if |value| < 8 || |value| > 18 {
      return None;
    }
    var time := ReadTime(value, 0);
    assert value[0..] == value;
    r := if time.None? then None else Some(Stamp(0, time.value));
  }

  method ParseDate(value: seq<byte>) returns (r: Option<Stamp>)
    ensures r == ParsedDate(value)
  {
    if |value| != 8 {
      return None;
    }
    var ymd := ReadYMD(value);
    assert value[..8] == value;
    r := if ymd.None? then None else Some(Stamp(JulianDate(ymd.value.year, ymd.value.month, ymd.value.day), 0));
  }

  // ----- printing, then parsing

  /** A time of day, cut to p digits after the second. */
  function Truncated(time: nat, p: nat): nat
    requires p <= 9
  {
    CutOff(time, PrecisionFactor(p))
  }

  function CutOff(time: nat, f: int): nat
    requires f >= 1
  {
    RemainderFits(time, f);
    time - time % f
  }

  lemma RemainderFits(n: nat, f: int)
    requires f >= 1
    ensures 0 <= n % f <= n
  {
    assert n == n / f * f + n % f;
  }

  lemma TruncatedParts(time: nat, p: nat)
    requires p <= 9
    ensures GetFraction(time, p) * PrecisionFactor(p) == GetNanosecond(Truncated(time, p))
    ensures Truncated(time, p) / NANOS_PER_SEC == time / NANOS_PER_SEC
  {
    FactorOfPrecision(p);
    CutAt(time, PrecisionFactor(p), Pow10(p));
  }

  /** Cutting at a divisor f of one second leaves the seconds alone. */
  lemma CutAt(time: nat, f: int, g: int)
    requires f >= 1 && f * g == NANOS_PER_SEC
    ensures time % NANOS_PER_SEC / f * f == (time - time % f) % NANOS_PER_SEC
    ensures (time - time % f) / NANOS_PER_SEC == time / NANOS_PER_SEC
  {
    var q, n := time / NANOS_PER_SEC, time % NANOS_PER_SEC;
    var k, r := n / f, n % f;
    calc {
      time;
      q * (f * g) + (k * f + r);
      { Distribute(q, f, g, k); }
      (q * g + k) * f + r;
    }
    QuotientIs(time, f, q * g + k, r);
    QuotientIs(time - r, NANOS_PER_SEC, q, k * f) by {
      Multiply(0, k, f);
    }
  }

  lemma Distribute(q: int, f: int, g: int, k: int)
    ensures q * (f * g) + k * f == (q * g + k) * f
  {
  }

  lemma ClockPrintParse(c: Clock)
    requires IsClock(c)
    ensures ParsedClock(ClockText(c)) == Some(c)
  {
    SmallPowers();
    var s := ClockText(c);
    assert s[..2] == Fixed(c.hour, 2) && s[3..5] == Fixed(c.minute, 2) && s[6..8] == Fixed(c.second, 2);
  }

  lemma FractionPrintParse(fraction: nat, p: nat)
    requires fraction < Pow10(p)
    ensures ParsedFraction(FractionText(fraction, p)) == Some(fraction)
    ensures PrecisionOf(FractionText(fraction, p)) == p
  {
    if p > 0 {
      assert FractionText(fraction, p)[1..] == Fixed(fraction, p);
    }
  }

  /** Printing a time of day and parsing it again cuts it to the precision. */
  lemma TimePrintParse(time: nat, p: nat)
    requires time < NANOS_PER_DAY && p <= 9
    ensures ParsedTime(TimeText(time, p)) == Some(Truncated(time, p))
  {
    HMSRoundTrip(time);
    FractionFits(time, p);
    var c, f, s := GetHMS(time), GetFraction(time, p), TimeText(time, p);
    ClockPrintParse(c);
    FractionPrintParse(f, p);
    assert s[..8] == ClockText(c) && s[8..] == FractionText(f, p);
    TruncatedParts(time, p);
    HMSRoundTrip(Truncated(time, p));
  }

  lemma DatePrintParse(d: Date)
    requires Printable(d)
    ensures ParsedYMD(DateText(d)) == Some(d)
  {
    SmallPowers();
    var s := DateText(d);
    assert s[..4] == Fixed(d.year, 4) && s[4..6] == Fixed(d.month, 2) && s[6..8] == Fixed(d.day, 2);
  }

  lemma TimeStampPrintParse(t: Stamp, precision: int)
    requires t.InDay() && Printable(GetYMD(t.date))
    ensures ParsedTimeStamp(StampText(t, Clamp(precision)))
         == Some(Stamp(t.date, Truncated(t.time, Clamp(precision))))
  {
    var p := Clamp(precision);
    DayPrintParse(t.date);
    TimePrintParse(t.time, p);
    ParsedInParts(DateText(GetYMD(t.date)), TimeText(t.time, p));
  }

  lemma DayPrintParse(j: int)
    requires Printable(GetYMD(j))
    ensures ParsedYMD(DateText(GetYMD(j))) == Some(GetYMD(j)) && JulianOf(GetYMD(j)) == j
  {
    YMDIsDateIff(j);
    YMDIsDate(j);
    DatePrintParse(GetYMD(j));
  }

  lemma ParsedInParts(d: seq<byte>, u: seq<byte>)
    requires |d| == 8 && 8 <= |u| <= 18 && ParsedYMD(d).Some? && ParsedTime(u).Some?
    ensures ParsedTimeStamp(d + [MINUS] + u) == Some(Stamp(JulianOf(ParsedYMD(d).value), ParsedTime(u).value))
  {
    var s := d + [MINUS] + u;
    assert s[..8] == d && s[9..] == u;
  }

  lemma TimeOnlyPrintParse(t: Stamp, precision: int)
    requires t.InDay()
    ensures ParsedTimeOnly(TimeText(t.time, Clamp(precision))) == Some(Stamp(0, Truncated(t.time, Clamp(precision))))
  {
    TimePrintParse(t.time, Clamp(precision));
  }

  lemma DateOnlyPrintParse(j: int)
    requires Printable(GetYMD(j))
    ensures ParsedDate(DateText(GetYMD(j))) == Some(Stamp(j, 0))
  {
    DayPrintParse(j);
  }

  // ----- parsing, then printing

  lemma FractionParsePrint(c: Clock, text: seq<byte>)
    requires IsClock(c) && |text| <= 10 && ParsedFraction(text).Some? && |text| != 1
    ensures
      var p := PrecisionOf(text);
      var time := MakeHMS(c.hour, c.minute, c.second, ConvertToNanos(ParsedFraction(text).value, p));
      0 <= time < NANOS_PER_DAY && GetHMS(time) == c
      && GetFraction(time, p) < Pow10(p) && FractionText(GetFraction(time, p), p) == text
  {
    var p, fraction := PrecisionOf(text), ParsedFraction(text).value;
    var f := PrecisionFactor(p);
    FactorOfPrecision(p);
    SmallPowers();
    if p > 0 {
      FixedOfValue(text[1..]);
    }
    assert fraction < Pow10(p);
    NanosFit(fraction, f, Pow10(p));
    ClockRoundTrip(c, fraction * f);
    QuotientIs(fraction * f, f, fraction, 0);
  }

  lemma NanosFit(fraction: nat, f: int, g: int)
    requires f >= 1 && f * g == NANOS_PER_SEC && fraction < g
    ensures 0 <= fraction * f < NANOS_PER_SEC
  {
    Multiply(0, fraction, f);
    Multiply(fraction, g - 1, f);
    assert (g - 1) * f == f * g - f;
  }

  lemma ClockParsePrint(s: seq<byte>)
    requires |s| == 8 && ParsedClock(s).Some? && ParsedClock(s).value.second <= 59
    ensures IsClock(ParsedClock(s).value) && ClockText(ParsedClock(s).value) == s
  {
    FixedOfValue(s[..2]);
    FixedOfValue(s[3..5]);
    FixedOfValue(s[6..8]);
    assert s == s[..2] + [s[2]] + s[3..5] + [s[5]] + s[6..8];
  }

  ghost predicate TimePrintsAs(time: int, p: nat, s: seq<byte>) {
    0 <= time < NANOS_PER_DAY && p <= 9 && TimeText(time, p) == s
  }

  ghost predicate DatePrintsAs(date: int, s: seq<byte>) {
    Printable(GetYMD(date)) && DateText(GetYMD(date)) == s
  }

  ghost predicate StampPrintsAs(t: Stamp, p: nat, s: seq<byte>) {
    t.InDay() && Printable(GetYMD(t.date)) && p <= 9 && StampText(t, p) == s
  }

  lemma TimePrintsBack(s: seq<byte>)
    requires 8 <= |s| <= 18 && |s| != 9 && ParsedTime(s).Some? && ParsedClock(s[..8]).value.second <= 59
    ensures TimePrintsAs(ParsedTime(s).value, PrecisionOf(s[8..]), s)
  {
    ClockParsePrint(s[..8]);
    FractionParsePrint(ParsedClock(s[..8]).value, s[8..]);
    assert s == s[..8] + s[8..];
  }

  /** A time that the parser accepts prints back to the same text exactly when its
      second is not 60 and it has digits after its dot, if it has a dot. */
  lemma TimeParsePrint(s: seq<byte>)
    requires 8 <= |s| <= 18 && ParsedTime(s).Some?
    ensures TimePrintsAs(ParsedTime(s).value, PrecisionOf(s[8..]), s)
       <==> ParsedClock(s[..8]).value.second <= 59 && |s| != 9
  {
    if ParsedClock(s[..8]).value.second <= 59 && |s| != 9 {
      TimePrintsBack(s);
    } else if TimePrintsAs(ParsedTime(s).value, PrecisionOf(s[8..]), s) {
      PrintedClock(ParsedTime(s).value, PrecisionOf(s[8..]), s);
    }
  }

  lemma PrintedClock(time: nat, p: nat, s: seq<byte>)
    requires TimePrintsAs(time, p, s)
    ensures |s| != 9 && ParsedClock(s[..8]).Some? && ParsedClock(s[..8]).value.second <= 59
  {
    HMSRoundTrip(time);
    ClockPrintParse(GetHMS(time));
    assert s[..8] == ClockText(GetHMS(time));
  }

  /** A date that the parser accepts prints back to the same text exactly when the
      calendar has it. */
  lemma DateParsePrint(s: seq<byte>)
    requires |s| == 8 && ParsedYMD(s).Some?
    ensures DatePrintsAs(JulianOf(ParsedYMD(s).value), s) <==> IsDate(ParsedYMD(s).value)
  {
    var d := ParsedYMD(s).value;
    if IsDate(d) {
      SmallPowers();
      FixedOfValue(s[..4]);
      FixedOfValue(s[4..6]);
      FixedOfValue(s[6..8]);
      DateRoundTrip(d);
      assert s == s[..4] + s[4..6] + s[6..8];
    } else if DatePrintsAs(JulianOf(d), s) {
      DatePrintParse(GetYMD(JulianOf(d)));
    }
  }

  lemma StampPrintsInParts(t: Stamp, p: nat, d: seq<byte>, u: seq<byte>)
    requires |d| == 8
    ensures StampPrintsAs(t, p, d + [MINUS] + u) <==> DatePrintsAs(t.date, d) && TimePrintsAs(t.time, p, u)
  {
    if StampPrintsAs(t, p, d + [MINUS] + u) {
      var s := StampText(t, p);
      assert d == s[..8] == DateText(GetYMD(t.date)) && u == s[9..] == TimeText(t.time, p);
    }
  }

  /** A timestamp that the parser accepts prints back to the same text exactly when the
      calendar has its date, its second is not 60, and it does not end in a dot. */
  lemma TimeStampParsePrint(s: seq<byte>)
    requires ParsedTimeStamp(s).Some?
    ensures StampPrintsAs(ParsedTimeStamp(s).value, PrecisionOf(s[9..][8..]), s)
       <==> IsDate(ParsedYMD(s[..8]).value) && ParsedClock(s[9..][..8]).value.second <= 59 && |s| != 18
  {
    DateParsePrint(s[..8]);
    TimeParsePrint(s[9..]);
    assert s == s[..8] + [MINUS] + s[9..];
    StampPrintsInParts(ParsedTimeStamp(s).value, PrecisionOf(s[9..][8..]), s[..8], s[9..]);
  }

  /** A timestamp of length 18 ends in a dot; it is accepted, for what it is without the dot. */
  lemma DotAloneIsLost(s: seq<byte>)
    requires ParsedTimeStamp(s).Some? && |s| == 18
    ensures s[17] == DOT && ParsedTimeStamp(s[..17]) == ParsedTimeStamp(s)
  {
    assert s[..17][..8] == s[..8] && s[..17][9..] == s[9..17] == s[9..][..8];
    assert s[9..17][..8] == s[9..17] && s[9..17][8..] == [] && s[9..][8..] == [s[17]];
    DotIsZero(s[17]);
  }

  lemma DotIsZero(b: byte)
    ensures ParsedFraction([b]).Some? ==> b == DOT && ParsedFraction([b]) == ParsedFraction([]) == Some(0)
    ensures PrecisionOf([b]) == PrecisionOf([])
  {
  }

  // ----- the order of the texts

  lemma LexLessInFields(a1: seq<byte>, b1: seq<byte>, a2: seq<byte>, b2: seq<byte>)
    requires LexLess(a1, a2) || (a1 == a2 && LexLess(b1, b2))
    ensures LexLess(a1 + b1, a2 + b2)
  {
    if LexLess(a1, a2) {
      LexLessExtends(a1, a2, b1, b2);
    } else {
      LexLessAfter(a1, b1, b2);
    }
  }

  lemma FixedOrder(a: nat, b: nat, w: nat)
    requires w >= 1 && a < b < Pow10(w)
    ensures LexLess(Fixed(a, w), Fixed(b, w))
  {
    NumeralOrder(Fixed(a, w), Fixed(b, w));
  }

  lemma DateOrder(d1: Date, d2: Date)
    requires Printable(d1) && Printable(d2) && Before(d1, d2)
    ensures LexLess(DateText(d1), DateText(d2))
  {
    SmallPowers();
    var y1, m1, x1 := Fixed(d1.year, 4), Fixed(d1.month, 2), Fixed(d1.day, 2);
    var y2, m2, x2 := Fixed(d2.year, 4), Fixed(d2.month, 2), Fixed(d2.day, 2);
    if d1.year < d2.year {
      FixedOrder(d1.year, d2.year, 4);
    } else if d1.month < d2.month {
      FixedOrder(d1.month, d2.month, 2);
    } else {
      FixedOrder(d1.day, d2.day, 2);
    }
    if d1.year < d2.year || d1.month < d2.month {
      LexLessInFields(y1, m1, y2, m2);
    }
    LexLessInFields(y1 + m1, x1, y2 + m2, x2);
  }

  predicate ClockBefore(c1: Clock, c2: Clock) {
    c1.hour < c2.hour
    || (c1.hour == c2.hour && c1.minute < c2.minute)
    || (c1.hour == c2.hour && c1.minute == c2.minute && c1.second < c2.second)
  }

  lemma ClockOrder(c1: Clock, c2: Clock)
    requires IsClock(c1) && IsClock(c2) && ClockBefore(c1, c2)
    ensures LexLess(ClockText(c1), ClockText(c2))
  {
    SmallPowers();
    var h1, m1, s1 := Fixed(c1.hour, 2), Fixed(c1.minute, 2), Fixed(c1.second, 2);
    var h2, m2, s2 := Fixed(c2.hour, 2), Fixed(c2.minute, 2), Fixed(c2.second, 2);
    if c1.hour < c2.hour {
      FixedOrder(c1.hour, c2.hour, 2);
      LexLessExtends(h1, h2, [COLON], [COLON]);
      LexLessExtends(h1 + [COLON], h2 + [COLON], m1, m2);
    } else if c1.minute < c2.minute {
      FixedOrder(c1.minute, c2.minute, 2);
      LexLessAfter(h1 + [COLON], m1, m2);
    } else {
      FixedOrder(c1.second, c2.second, 2);
      LexLessAfter(h1 + [COLON] + m1 + [COLON], s1, s2);
    }
    if c1.hour < c2.hour || c1.minute < c2.minute {
      LexLessExtends(h1 + [COLON] + m1, h2 + [COLON] + m2, [COLON], [COLON]);
      LexLessExtends(h1 + [COLON] + m1 + [COLON], h2 + [COLON] + m2 + [COLON], s1, s2);
    }
  }

  lemma LaterClock(time1: nat, time2: nat)
    requires time1 < time2 < NANOS_PER_DAY
    ensures GetHMS(time1) == GetHMS(time2) || ClockBefore(GetHMS(time1), GetHMS(time2))
    ensures GetHMS(time1) == GetHMS(time2) ==> GetNanosecond(time1) < GetNanosecond(time2)
  {
    HMSRoundTrip(time1);
    HMSRoundTrip(time2);
  }

  lemma DivisionOrder(n1: nat, n2: nat, f: int)
    requires f >= 1 && n1 <= n2
    ensures n1 / f <= n2 / f
  {
    assert (n2 / f + 1) * f == n2 / f * f + f;
    if n1 / f > n2 / f {
      Multiply(n2 / f + 1, n1 / f, f);
    }
  }

  /** Times of day print in their order; at precision 9 distinct times differ. */
  lemma TimeOrder(time1: nat, time2: nat, p: nat)
    requires time1 < time2 < NANOS_PER_DAY && p <= 9
    ensures TimeText(time1, p) == TimeText(time2, p) || LexLess(TimeText(time1, p), TimeText(time2, p))
    ensures p == 9 ==> LexLess(TimeText(time1, p), TimeText(time2, p))
  {
    HMSRoundTrip(time1);
    HMSRoundTrip(time2);
    FractionFits(time1, p);
    FractionFits(time2, p);
    LaterClock(time1, time2);
    var c1, c2 := GetHMS(time1), GetHMS(time2);
    var f1, f2 := GetFraction(time1, p), GetFraction(time2, p);
    if c1 == c2 {
      DivisionOrder(GetNanosecond(time1), GetNanosecond(time2), PrecisionFactor(p));
      assert f1 <= f2 && (p == 9 ==> f1 < f2);
      if f1 < f2 {
        FractionOrder(f1, f2, p);
      }
    } else {
      ClockOrder(c1, c2);
    }
    if c1 != c2 || f1 < f2 {
      LexLessInFields(ClockText(c1), FractionText(f1, p), ClockText(c2), FractionText(f2, p));
    }
  }

  lemma FractionOrder(f1: nat, f2: nat, p: nat)
    requires f1 < f2 < Pow10(p)
    ensures LexLess(FractionText(f1, p), FractionText(f2, p))
  {
    FixedOrder(f1, f2, p);
    LexLessAfter([DOT], Fixed(f1, p), Fixed(f2, p));
  }

  /** Printed timestamps embed the order of the instants. */
  lemma TimeStampOrder(t1: Stamp, t2: Stamp, precision: int)
    requires t1.InDay() && Printable(GetYMD(t1.date)) && t2.InDay() && Printable(GetYMD(t2.date)) && t1.Less(t2)
    ensures
      var p := Clamp(precision);
      && (StampText(t1, p) == StampText(t2, p) || LexLess(StampText(t1, p), StampText(t2, p)))
      && (precision >= 9 ==> LexLess(StampText(t1, p), StampText(t2, p)))
  {
    if t1.date < t2.date {
      LaterDayOrder(t1, t2, Clamp(precision));
    } else {
      SameDayOrder(t1, t2, Clamp(precision));
    }
  }

  lemma LaterDayOrder(t1: Stamp, t2: Stamp, p: nat)
    requires t1.InDay() && Printable(GetYMD(t1.date)) && t2.InDay() && Printable(GetYMD(t2.date)) && t1.date < t2.date
    requires p <= 9
    ensures LexLess(StampText(t1, p), StampText(t2, p))
  {
    DayOrder(t1.date, t2.date);
    LaterDay(DateText(GetYMD(t1.date)), TimeText(t1.time, p), DateText(GetYMD(t2.date)), TimeText(t2.time, p));
  }

  lemma SameDayOrder(t1: Stamp, t2: Stamp, p: nat)
    requires t1.InDay() && t2.InDay() && t1.date == t2.date && Printable(GetYMD(t1.date)) && t1.time < t2.time && p <= 9
    ensures StampText(t1, p) == StampText(t2, p) || LexLess(StampText(t1, p), StampText(t2, p))
    ensures p == 9 ==> LexLess(StampText(t1, p), StampText(t2, p))
  {
    TimeOrder(t1.time, t2.time, p);
    SameDay(DateText(GetYMD(t1.date)), TimeText(t1.time, p), TimeText(t2.time, p));
  }

  lemma DayOrder(j1: int, j2: int)
    requires Printable(GetYMD(j1)) && Printable(GetYMD(j2)) && j1 < j2
    ensures LexLess(DateText(GetYMD(j1)), DateText(GetYMD(j2)))
  {
    YMDIsDateIff(j1);
    YMDIncreases(j1, j2);
    DateOrder(GetYMD(j1), GetYMD(j2));
  }

  lemma LaterDay(d1: seq<byte>, u1: seq<byte>, d2: seq<byte>, u2: seq<byte>)
    requires LexLess(d1, d2)
    ensures LexLess(d1 + [MINUS] + u1, d2 + [MINUS] + u2)
  {
    LexLessExtends(d1, d2, [MINUS], [MINUS]);
    LexLessExtends(d1 + [MINUS], d2 + [MINUS], u1, u2);
  }

  lemma SameDay(d: seq<byte>, u1: seq<byte>, u2: seq<byte>)
    requires u1 == u2 || LexLess(u1, u2)
    ensures u1 == u2 ==> d + [MINUS] + u1 == d + [MINUS] + u2
    ensures LexLess(u1, u2) ==> LexLess(d + [MINUS] + u1, d + [MINUS] + u2)
  {
    if LexLess(u1, u2) {
      LexLessAfter(d + [MINUS], u1, u2);
    }
  }

  // ----- what the texts are, byte by byte

  /** The digits from i up to j denote n. */
  predicate Numeral(s: seq<byte>, i: nat, j: nat, n: int) {
    i <= j <= |s| && AllDigits(s[i..j]) && Value(s[i..j]) == n
  }

  /** YYYYMMDD at the front. */
  predicate DateAt(s: seq<byte>, d: Date) {
    Numeral(s, 0, 4, d.year) && Numeral(s, 4, 6, d.month) && Numeral(s, 6, 8, d.day)
  }

  /** HH:MM:SS at i. */
  predicate ClockAt(s: seq<byte>, i: nat, c: Clock) {
    && i + 8 <= |s|
    && Numeral(s, i, i + 2, c.hour) && s[i + 2] == 58
    && Numeral(s, i + 3, i + 5, c.minute) && s[i + 5] == 58
    && Numeral(s, i + 6, i + 8, c.second)
  }

  /** From i on there is nothing, for 0, or a dot and the digits of n. */
  predicate FractionAt(s: seq<byte>, i: nat, n: nat) {
    i <= |s| && if |s| == i then n == 0 else s[i] == 46 && Numeral(s, i + 1, |s|, n)
  }

  /** From i on stand the clock and n units of its last digit. */
  predicate TimeAt(s: seq<byte>, i: nat, c: Clock, n: nat) {
    ClockAt(s, i, c) && FractionAt(s, i + 8, n)
  }

  lemma FactorIsPower(p: nat)
    requires p <= 9
    ensures PrecisionFactor(p) == Pow10(9 - p)
    decreases 9 - p
  {
    if p < 9 {
      FactorIsPower(p + 1);
    }
  }

  lemma ClockTextAt(s: seq<byte>, i: nat, c: Clock)
    requires IsClock(c) && i + 8 <= |s| && s[i..i + 8] == ClockText(c)
    ensures ClockAt(s, i, c)
  {
    SmallPowers();
    var t := ClockText(c);
    ClockWindow(s, i);
    assert t[..2] == Fixed(c.hour, 2) && t[3..5] == Fixed(c.minute, 2) && t[6..8] == Fixed(c.second, 2);
    assert s[i + 2] == t[2] && s[i + 5] == t[5];
  }

  lemma FractionTextAt(s: seq<byte>, i: nat, n: nat, p: nat)
    requires i <= |s| && n < Pow10(p) && s[i..] == FractionText(n, p)
    ensures FractionAt(s, i, n) && |s| == if p == 0 then i else i + 1 + p
  {
    if p > 0 {
      assert s[i] == FractionText(n, p)[0] && s[i + 1..|s|] == s[i..][1..] == FractionText(n, p)[1..] == Fixed(n, p);
    }
  }

  /** The text of a time of day with p digits after its second. */
  predicate TimePrinted(s: seq<byte>, i: nat, time: nat, p: nat)
    requires p <= 9
  {
    && |s| == (if p == 0 then i + 8 else i + 9 + p)
    && TimeAt(s, i, Clock(time / 3600_000000000, time / 60_000000000 % 60, time / 1_000000000 % 60),
              Quotient(time % 1_000000000, Pow10(9 - p)))
  }

  /** The text of a timestamp with p digits after its second. */
  predicate StampPrinted(s: seq<byte>, t: Stamp, p: nat)
    requires p <= 9 && t.InDay()
  {
    DateAt(s, GetYMD(t.date)) && |s| > 8 && s[8] == 45 && TimePrinted(s, 9, t.time, p)
  }

  lemma ClockIs(time: nat)
    requires time < NANOS_PER_DAY
    ensures GetHMS(time) == Clock(time / 3600_000000000, time / 60_000000000 % 60, time / 1_000000000 % 60)
  {
    var ticks := time / NANOS_PER_SEC;
    DivideTwice(time, 3600);
    DivideTwice(time, 60);
  }

  lemma DivideTwice(n: nat, f: nat)
    requires f >= 1
    ensures n / NANOS_PER_SEC / f == n / (f * NANOS_PER_SEC)
  {
    var q, r := n / NANOS_PER_SEC, n % NANOS_PER_SEC;
    var k, m := q / f, q % f;
    Distribute(k, NANOS_PER_SEC, f, 0);
    assert q == f * k + m && n == NANOS_PER_SEC * q + r;
    QuotientIs(n, f * NANOS_PER_SEC, k, m * NANOS_PER_SEC + r);
  }

  lemma TimeTextIs(s: seq<byte>, i: nat, time: nat, p: nat)
    requires time < NANOS_PER_DAY && p <= 9 && i <= |s| && s[i..] == TimeText(time, p)
    ensures TimePrinted(s, i, time, p)
  {
    HMSRoundTrip(time);
    FractionFits(time, p);
    FactorIsPower(p);
    ClockIs(time);
    var c, f := ClockText(GetHMS(time)), FractionText(GetFraction(time, p), p);
    TailInParts(s, i, c, f);
    ClockTextAt(s, i, GetHMS(time));
    FractionTextAt(s, i + 8, GetFraction(time, p), p);
  }

  lemma TailInParts(s: seq<byte>, i: nat, c: seq<byte>, f: seq<byte>)
    requires i <= |s| && s[i..] == c + f
    ensures i + |c| <= |s| && s[i..i + |c|] == c && s[i + |c|..] == f
  {
    assert s[i..][..|c|] == c && s[i..][|c|..] == f;
  }

  lemma DateTextIs(s: seq<byte>, d: Date)
    requires Printable(d) && 8 <= |s| && s[..8] == DateText(d)
    ensures DateAt(s, d)
  {
    SmallPowers();
    var t := DateText(d);
    assert s[0..4] == t[..4] == Fixed(d.year, 4);
    assert s[4..6] == t[4..6] == Fixed(d.month, 2) && s[6..8] == t[6..8] == Fixed(d.day, 2);
  }

  lemma StampTextIs(t: Stamp, p: nat)
    requires t.InDay() && Printable(GetYMD(t.date)) && p <= 9
    ensures StampPrinted(StampText(t, p), t, p)
  {
    var s := StampText(t, p);
    assert s[..8] == DateText(GetYMD(t.date)) && s[9..] == TimeText(t.time, p);
    DateTextIs(s, GetYMD(t.date));
    TimeTextIs(s, 9, t.time, p);
  }

  /** A timestamp prints with as many digits after its second as the precision says, 0 below
      0 and 9 above 9, and parses to the instant cut off there. */
  lemma PrintedTimeStamp(t: Stamp, precision: int, p: nat)
    requires t.InDay() && Printable(GetYMD(t.date))
    requires p <= 9 && (0 <= precision <= 9 ==> p == precision) && (precision < 0 ==> p == 0) && (precision > 9 ==> p == 9)
    ensures StampPrinted(StampText(t, Clamp(precision)), t, p)
    ensures ParsedTimeStamp(StampText(t, Clamp(precision))) == Some(Stamp(t.date, CutOff(t.time, Pow10(9 - p))))
  {
    StampTextIs(t, p);
    TimeStampPrintParse(t, precision);
    FactorIsPower(p);
  }

  lemma PrintedTimeOnly(t: Stamp, precision: int, p: nat)
    requires t.InDay()
    requires p <= 9 && (0 <= precision <= 9 ==> p == precision) && (precision < 0 ==> p == 0) && (precision > 9 ==> p == 9)
    ensures TimePrinted(TimeText(t.time, Clamp(precision)), 0, t.time, p)
    ensures ParsedTimeOnly(TimeText(t.time, Clamp(precision))) == Some(Stamp(0, CutOff(t.time, Pow10(9 - p))))
  {
    var s := TimeText(t.time, p);
    assert s[0..] == s;
    TimeTextIs(s, 0, t.time, p);
    TimeOnlyPrintParse(t, precision);
    FactorIsPower(p);
  }

  // ----- what is accepted, byte by byte

  /** The time that stands from i on, with its digits after the dot filled up to nine. */
  predicate TimeDenotedBy(s: seq<byte>, i: nat, time: int, c: Clock, n: nat) {
    && TimeAt(s, i, c, n) && c.hour <= 23 && c.minute <= 59 && c.second <= 60 && |s| <= i + 18
    && time == 1_000000000 * (3600 * c.hour + 60 * c.minute + c.second)
             + n * Pow10(9 - (if |s| == i + 8 then 0 else |s| - i - 9))
  }

  ghost predicate DenotesTime(s: seq<byte>, i: nat, time: int) {
    exists c: Clock, n: nat :: TimeDenotedBy(s, i, time, c, n)
  }

  ghost predicate DenotesDay(s: seq<byte>, date: int) {
    exists d: Date :: DateAt(s, d) && 1 <= d.month <= 12 && 1 <= d.day <= 31 && date == JulianOf(d)
  }

  lemma ClockParsedIff(s: seq<byte>, i: nat, c: Clock)
    requires i + 8 <= |s|
    ensures ParsedClock(s[i..i + 8]) == Some(c)
       <==> ClockAt(s, i, c) && c.hour <= 23 && c.minute <= 59 && c.second <= 60
  {
    ClockWindow(s, i);
    assert s[i + 2] == s[i..i + 8][2] && s[i + 5] == s[i..i + 8][5];
  }

  lemma FractionParsedIff(s: seq<byte>, i: nat, n: nat)
    requires i <= |s|
    ensures ParsedFraction(s[i..]) == Some(n) <==> FractionAt(s, i, n)
    ensures PrecisionOf(s[i..]) == if |s| == i then 0 else |s| - i - 1
  {
    if i < |s| {
      assert s[i..][1..] == s[i + 1..] == s[i + 1..|s|] && s[i..][0] == s[i];
    }
  }

  lemma NanosOf(n: nat, p: nat)
    requires p <= 9
    ensures ConvertToNanos(n, p) == n * Pow10(9 - p)
  {
    FactorIsPower(p);
  }

  lemma TimeParsedAs(s: seq<byte>, i: nat, time: int, c: Clock, n: nat)
    requires i + 8 <= |s| <= i + 18
    ensures
      TimeDenotedBy(s, i, time, c, n)
      <==> ParsedClock(s[i..i + 8]) == Some(c) && ParsedFraction(s[i + 8..]) == Some(n)
           && time == MakeHMS(c.hour, c.minute, c.second, ConvertToNanos(n, PrecisionOf(s[i + 8..])))
  {
    ClockParsedIff(s, i, c);
    FractionParsedIff(s, i + 8, n);
    NanosOf(n, PrecisionOf(s[i + 8..]));
  }

  lemma TimeInParts(s: seq<byte>, i: nat)
    requires i + 8 <= |s| <= i + 18
    ensures s[i..][..8] == s[i..i + 8] && s[i..][8..] == s[i + 8..]
  {
  }

  lemma TimeParsedIff(s: seq<byte>, i: nat, time: int)
    requires i + 8 <= |s| <= i + 18
    ensures ParsedTime(s[i..]) == Some(time) <==> DenotesTime(s, i, time)
  {
    TimeInParts(s, i);
    if ParsedTime(s[i..]) == Some(time) {
      TimeParsedAs(s, i, time, ParsedClock(s[i..i + 8]).value, ParsedFraction(s[i + 8..]).value);
    }
    if DenotesTime(s, i, time) {
      var c: Clock, n: nat :| TimeDenotedBy(s, i, time, c, n);
      TimeParsedAs(s, i, time, c, n);
    }
  }

  lemma DayParsedIff(s: seq<byte>, date: int)
    requires 8 <= |s|
    ensures ParsedYMD(s[..8]).Some? && JulianOf(ParsedYMD(s[..8]).value) == date <==> DenotesDay(s, date)
  {
    var t := s[..8];
    assert s[0..4] == t[..4] && s[4..6] == t[4..6] && s[6..8] == t[6..8];
    assert AllDigits(t) <==> AllDigits(s[0..4]) && AllDigits(s[4..6]) && AllDigits(s[6..8]) by {
      assert t == s[0..4] + s[4..6] + s[6..8];
    }
    if ParsedYMD(t).Some? {
      assert DateAt(s, ParsedYMD(t).value);
    }
  }

  /** Which timestamps are accepted, and what they denote. */
  lemma TimeStampParsedIff(s: seq<byte>, t: Stamp)
    ensures ParsedTimeStamp(s) == Some(t)
       <==> 17 <= |s| <= 27 && DenotesDay(s, t.date) && s[8] == 45 && DenotesTime(s, 9, t.time)
  {
    if 17 <= |s| <= 27 {
      DayParsedIff(s, t.date);
      TimeParsedIff(s, 9, t.time);
    }
  }

  lemma TimeOnlyParsedIff(s: seq<byte>, t: Stamp)
    ensures ParsedTimeOnly(s) == Some(t) <==> 8 <= |s| <= 18 && t.date == 0 && DenotesTime(s, 0, t.time)
  {
    if 8 <= |s| <= 18 {
      assert s[0..] == s;
      TimeParsedIff(s, 0, t.time);
    }
  }

  lemma DateParsedIff(s: seq<byte>, t: Stamp)
    ensures ParsedDate(s) == Some(t) <==> |s| == 8 && DenotesDay(s, t.date) && t.time == 0
  {
    if |s| == 8 {
      assert s[..8] == s;
      DayParsedIff(s, t.date);
    }
  }
}
