/** The integer convertors: a digit counter that works four digits at a time, a
    printer that fills a buffer backwards two digits at a time, and a parser that
    finds overflow through unsigned wrap-around. */
module IntConvertor {
  import opened Decimal

  /** The C++ types the convertors are instantiated at. */
  datatype IntType = Int32 | Int64 | UInt64 {
    function Modulus(): int {
      if Int32? then 0x1_0000_0000 else 0x1_0000_0000_0000_0000
    }

    function Min(): int {
      match this
      case Int32 => -0x8000_0000
      case Int64 => -0x8000_0000_0000_0000
      case UInt64 => 0
    }

    function Max(): int {
      match this
      case Int32 => 0x7FFF_FFFF
      case Int64 => 0x7FFF_FFFF_FFFF_FFFF
      case UInt64 => 0xFFFF_FFFF_FFFF_FFFF
    }

    /** std::numeric_limits<T>::digits10 */
    function Digits10(): nat {
      match this
      case Int32 => 9
      case Int64 => 18
      case UInt64 => 19
    }

    predicate Holds(v: int) {
      Min() <= v <= Max()
    }

    /** Conversion to the unsigned type of the same width. */
    function ToUnsigned(v: int): (u: int)
      ensures 0 <= u < Modulus()
    {
      v % Modulus()
    }

    /** Conversion of an unsigned value back to this type. */
    function FromUnsigned(u: int): (v: int)
      requires 0 <= u < Modulus()
      ensures Holds(v)
    {
      if u <= Max() then u else u - Modulus()
    }
  }

  /** _UNSIGNED_VALUE_OF: the negation is done in the unsigned type. */
  function UnsignedValueOf(ty: IntType, x: int): (u: int)
    requires ty.Holds(x)
    ensures u == if x < 0 then -x else x
  {
    if x < 0 then (ty.Modulus() - ty.ToUnsigned(x)) % ty.Modulus() else ty.ToUnsigned(x)
  }

  lemma DigitsFourAtATime(n: nat)
    requires n > 9999
    ensures |Digits(n)| == 4 + |Digits(n / 10000)|
  {
    assert n / 10 / 10 / 10 / 10 == n / 10000;
    assert |Digits(n)| == 1 + |Digits(n / 10)|;
    assert |Digits(n / 10)| == 1 + |Digits(n / 10 / 10)|;
    assert |Digits(n / 10 / 10)| == 1 + |Digits(n / 10 / 10 / 10)|;
  }

  method NumberOfSymbolsIn(ty: IntType, value: int) returns (symbols: nat)
    requires ty.Holds(value)
    ensures symbols == |Text(value)|
  {
    var number := UnsignedValueOf(ty, value);
    symbols := 0;
    while number > 9999
      invariant number >= 0
      invariant symbols + |Digits(number)| == |Digits(if value < 0 then -value else value)|
    {
      DigitsFourAtATime(number);
      symbols := symbols + 4;
      number := number / 10000;
    }
    assert |Digits(number)| == if number > 9 then 1 + |Digits(number / 10)| else 1;
    assert |Digits(number / 10)| == if number > 99 then 1 + |Digits(number / 10 / 10)| else 1;
    assert |Digits(number / 10 / 10)| == if number > 999 then 2 else 1;
    if number > 99 {
      if number > 999 {
        symbols := symbols + 4;
      } else {
        symbols := symbols + 3;
      }
    } else {
      if number > 9 {
        symbols := symbols + 2;
      } else {
        symbols := symbols + 1;
      }
    }
    if value < 0 {
      symbols := symbols + 1;
    }
  }

  /** The digit_pairs table: entry 2*n is the tens digit of n, entry 2*n + 1 its
      units digit, for n below 100. */
  function DigitPair(i: nat): (b: byte)
    requires i < 200
  {
    if i % 2 == 0 then 48 + i / 2 / 10 else 48 + i / 2 % 10
  }

  lemma DigitsTwoAtATime(n: nat, tail: seq<byte>)
    requires n > 99
    ensures Digits(n) + tail
         == Digits(n / 100) + ([DigitPair(2 * (n % 100))] + ([DigitPair(2 * (n % 100) + 1)] + tail))
  {
    assert n / 10 / 10 == n / 100 && n / 10 % 10 == n % 100 / 10 && n % 10 == n % 100 % 10;
    assert Digits(n) == Digits(n / 10) + [48 + n % 10];
    assert Digits(n / 10) == Digits(n / 100) + [48 + n / 10 % 10];
  }

  /** *--p = b, in a buffer that so far is w with tail in place of w[p..end]. */
  method PutBefore(buf: array<byte>, p: nat, b: byte, ghost w: seq<byte>, ghost tail: seq<byte>, ghost end: nat)
    returns (q: nat)
    requires 0 < p && p + |tail| == end <= |w| == buf.Length
    requires buf[..] == w[..p] + tail + w[end..]
    modifies buf
    ensures q == p - 1 && buf[..] == w[..q] + ([b] + tail) + w[end..]
  {
    q := p - 1;
    buf[q] := b;
    assert buf[..] == (w[..p] + tail + w[end..])[q := b];
  }

  /** size_to_string, and the part of integer_to_string before the sign: the digits of
      number end where the window buf[off..off + len] ends. */
  method SizeToString(buf: array<byte>, off: nat, len: nat, t: nat) returns (p: nat)
    requires |Digits(t)| <= len && off + len <= buf.Length
    modifies buf
    ensures off <= p == off + len - |Digits(t)|
    ensures buf[..] == old(buf[..])[..p] + Digits(t) + old(buf[..])[off + len..]
  {
    ghost var w, end := buf[..], off + len;
    ghost var tail: seq<byte> := [];
    p := off + len;
    var number := t;
    assert w == w[..p] + tail + w[end..];
    while number > 99
      invariant p + |tail| == end
      invariant Digits(number) + tail == Digits(t)
      invariant buf[..] == w[..p] + tail + w[end..]
    {
      DigitsTwoAtATime(number, tail);
      var pos := number % 100;
      number := number / 100;
      p := PutBefore(buf, p, DigitPair(2 * pos + 1), w, tail, end);
      tail := [DigitPair(2 * pos + 1)] + tail;
      p := PutBefore(buf, p, DigitPair(2 * pos), w, tail, end);
      tail := [DigitPair(2 * pos)] + tail;
    }
    if number > 9 {
      assert Digits(number) == [DigitPair(2 * number)] + [DigitPair(2 * number + 1)];
      assert Digits(t) == [DigitPair(2 * number)] + ([DigitPair(2 * number + 1)] + tail);
      p := PutBefore(buf, p, DigitPair(2 * number + 1), w, tail, end);
      p := PutBefore(buf, p, DigitPair(2 * number), w, [DigitPair(2 * number + 1)] + tail, end);
    } else {
      p := PutBefore(buf, p, 48 + number, w, tail, end);
    }
  }

  method IntegerToString(ty: IntType, buf: array<byte>, off: nat, len: nat, t: int) returns (p: nat)
    requires ty.Holds(t) && |Text(t)| <= len && off + len <= buf.Length
    modifies buf
    ensures off <= p == off + len - |Text(t)|
    ensures buf[..] == old(buf[..])[..p] + Text(t) + old(buf[..])[off + len..]
  {
    var isNegative := t < 0;
    var number := UnsignedValueOf(ty, t);
    p := SizeToString(buf, off, len, number);
    if isNegative {
      p := PutBefore(buf, p, MINUS, old(buf[..]), Digits(number), off + len);
    }
  }

  method IntegerToStringPadded(ty: IntType, buf: array<byte>, off: nat, len: nat, t: int, paddingChar: byte)
    returns (p: nat)
    requires ty.Holds(t) && |Text(t)| <= len && off + len <= buf.Length
    modifies buf
    ensures p == off
    ensures buf[..] == old(buf[..])[..off] + PadTo(Text(t), len, paddingChar) + old(buf[..])[off + len..]
  {
    p := IntegerToString(ty, buf, off, len, t);
    p := PadBefore(buf, off, p, paddingChar, old(buf[..]), Text(t));
  }

  /** The padding loop, after text was written at the end of the window. */
  method PadBefore(buf: array<byte>, off: nat, start: nat, b: byte, ghost w: seq<byte>, ghost text: seq<byte>)
    returns (p: nat)
    requires off <= start && start + |text| <= |w| == buf.Length
    requires buf[..] == w[..start] + text + w[start + |text|..]
    modifies buf
    ensures p == off
    ensures buf[..] == w[..off] + PadTo(text, start - off + |text|, b) + w[start + |text|..]
  {
    p := start;
    ghost var end, tail := start + |text|, text;
    assert tail == PadTo(text, |tail|, b);
    while p > off
      invariant off <= p <= start && p + |tail| == end && |text| <= |tail|
      invariant tail == PadTo(text, |tail|, b)
      invariant buf[..] == w[..p] + tail + w[end..]
    {
      p := PutBefore(buf, p, b, w, tail, end);
      PadOneMore(text, |tail|, b);
      tail := [b] + tail;
    }
  }

  lemma PadOneMore(s: seq<byte>, len: nat, b: byte)
    requires |s| <= len
    ensures [b] + PadTo(s, len, b) == PadTo(s, len + 1, b)
  {
    assert [b] + Repeat(b, len - |s|) == Repeat(b, len + 1 - |s|);
  }

  /** convert(value): the local buffer has digits10 + 2 characters. */
  method Convert(ty: IntType, value: int) returns (s: seq<byte>)
    requires ty.Holds(value)
    ensures s == Text(value)
  {
    TextFits(ty, value);
    var size := ty.Digits10() + 2;
    var buffer := new byte[size];
    var start := IntegerToString(ty, buffer, 0, size, value);
    s := buffer[..][start..];
  }

  lemma TextFits(ty: IntType, v: int)
    requires ty.Holds(v)
    ensures |Text(v)| <= ty.Digits10() + 2
    ensures Pow10(ty.Digits10()) <= ty.Max() < Pow10(ty.Digits10() + 1)
  {
    assert Pow10(10) == 10 * Pow10(9) && Pow10(19) == 10 * Pow10(18);
    var k := if ty.UInt64? then 20 else ty.Digits10() + 1;
    Powers();
    DigitsLength(if v < 0 then -v else v, k);
  }

  lemma Powers()
    ensures Pow10(10) == 10_000_000_000
    ensures Pow10(19) == 10_000_000_000_000_000_000
    ensures Pow10(20) == 100_000_000_000_000_000_000
  {
    assert Pow10(2) == 10 * Pow10(1) && Pow10(1) == 10 * Pow10(0);
    assert Pow10(4) == 10 * Pow10(3) && Pow10(3) == 10 * Pow10(2);
    assert Pow10(6) == 10 * Pow10(5) && Pow10(5) == 10 * Pow10(4);
    assert Pow10(8) == 10 * Pow10(7) && Pow10(7) == 10 * Pow10(6);
    assert Pow10(10) == 10 * Pow10(9) && Pow10(9) == 10 * Pow10(8);
    assert Pow10(12) == 10 * Pow10(11) && Pow10(11) == 10 * Pow10(10);
    assert Pow10(14) == 10 * Pow10(13) && Pow10(13) == 10 * Pow10(12);
    assert Pow10(16) == 10 * Pow10(15) && Pow10(15) == 10 * Pow10(14);
    assert Pow10(18) == 10 * Pow10(17) && Pow10(17) == 10 * Pow10(16);
    assert Pow10(20) == 10 * Pow10(19) && Pow10(19) == 10 * Pow10(18);
  }

  /** What the parser is to accept: an optional minus sign, for the signed types,
      then at least one digit. */
  predicate IsNumeral(ty: IntType, s: seq<byte>) {
    var digits := if !ty.UInt64? && s != [] && s[0] == MINUS then s[1..] else s;
    digits != [] && AllDigits(digits)
  }

  function NumeralValue(ty: IntType, s: seq<byte>): int
    requires IsNumeral(ty, s)
  {
    if s[0] == MINUS then -(Value(s[1..]) as int) else Value(s)
  }

  /** The integer of type ty that s denotes, if there is one. */
  function Parsed(ty: IntType, s: seq<byte>): Option<int> {
    if IsNumeral(ty, s) && ty.Holds(NumeralValue(ty, s)) then Some(NumeralValue(ty, s)) else None
  }

  /** The wrap-around test misses no overflow and reports no false one. */
  lemma WrapsAround(ty: IntType, x: nat, c: nat)
    requires x <= ty.Max() / 10 && c <= 9
    ensures (10 * x + c) % ty.Modulus() < x <==> 10 * x + c >= ty.Modulus()
    ensures 10 * x + c < ty.Modulus() ==> (10 * x + c) % ty.Modulus() == 10 * x + c
  {
    if 10 * x + c >= ty.Modulus() {
      assert 10 * x + c - ty.Modulus() < 10;
      assert (10 * x + c) % ty.Modulus() == 10 * x + c - ty.Modulus();
    }
  }

  /** (unsigned char)(b - '0') */
  function CharMinusZero(b: byte): (c: nat)
    ensures c > 9 <==> !IsDigit(b)
    ensures IsDigit(b) ==> c == b - 48
  {
    (b - ZERO) % 256
  }

  /** The parser's loop, over the characters that follow the sign: it fails early
      only on a non-digit or on a number too large for either sign. */
  /** One digit more, in what is read and in what there is to read. */
  lemma PrefixStep(digits: seq<byte>, i: nat)
    requires i < |digits| && AllDigits(digits[..i])
    ensures IsDigit(digits[i]) ==>
      AllDigits(digits[..i + 1]) && Value(digits[..i + 1]) == 10 * Value(digits[..i]) + (digits[i] - 48)
    ensures AllDigits(digits) ==> IsDigit(digits[i]) && Value(digits[..i + 1]) <= Value(digits)
  {
    assert digits[..i + 1] == digits[..i] + [digits[i]];
    if IsDigit(digits[i]) {
      ValueAppend(digits[..i], digits[i]);
    }
    if AllDigits(digits) {
      ValueOfPrefix(digits, i + 1);
    }
  }

  method ParseDigits(ty: IntType, digits: seq<byte>) returns (nx: Option<int>)
    requires digits != []
    ensures nx.Some? ==> AllDigits(digits) && nx.value == Value(digits) < ty.Modulus()
    ensures nx.None? && AllDigits(digits) ==> Value(digits) > ty.Max() && Value(digits) > -ty.Min()
  {
    var overflowMax := ty.Max() / 10;
    var x, str := 0, 0;
    assert digits[..0] == [];
    while true
      invariant str < |digits|
      invariant AllDigits(digits[..str])
      invariant 0 <= x == Value(digits[..str]) < ty.Modulus()
      decreases |digits| - str
    {
      PrefixStep(digits, str);
      if x > overflowMax {
        return None;
      }
      var c := CharMinusZero(digits[str]);
      if c > 9 {
        return None;
      }
      WrapsAround(ty, x, c);
      var nx := (10 * x + c) % ty.Modulus();
      if nx < x {
        return None;
      }
      x := nx;
      str := str + 1;
      if str == |digits| {
        break;
      }
    }
    assert digits[..str] == digits;
    nx := Some(x);
  }

  method Parse(ty: IntType, s: seq<byte>) returns (result: Option<int>)
    ensures result == Parsed(ty, s)
  {
    if s == [] {
      return None;
    }
    if s[0] == MINUS && ty.UInt64? {
      return None;
    }
    var isNegative := s[0] == MINUS;
    var digits := if isNegative then s[1..] else s;
    if digits == [] {
      return None;
    }
    var parsed := ParseDigits(ty, digits);
    if parsed.None? {
      return None;
    }
    var x := parsed.value;
    if isNegative {
      if x > UnsignedValueOf(ty, ty.Min()) {
        return None;
      }
      x := (ty.Modulus() - x) % ty.Modulus();
    } else if x > ty.Max() {
      return None;
    }
    result := Some(ty.FromUnsigned(x));
  }

  /** Printing and parsing again gives back every value of the type, the minimum included. */
  lemma ParsePrint(ty: IntType, v: int)
    requires ty.Holds(v)
    ensures Parsed(ty, Text(v)) == Some(v)
  {
    var magnitude := if v < 0 then -v else v;
    ValueOfDigits(magnitude);
    if v < 0 {
      assert Text(v)[1..] == Digits(magnitude);
    } else {
      assert IsDigit(Digits(v)[0]);
    }
  }

  /** Two texts that parse to one value differ only in leading zeros: the one that is printed
      is the one of its length. */
  lemma PrintParse(ty: IntType, s: seq<byte>)
    requires Parsed(ty, s).Some?
    ensures s == Text(Parsed(ty, s).value) <==> |s| == |Text(Parsed(ty, s).value)|
  {
    var v := Parsed(ty, s).value;
    if |s| == |Text(v)| {
      if s[0] == MINUS {
        assert v <= 0 && (v == 0 ==> |Text(v)| == 1);
        ValueOfDigits(-v);
        assert Text(v)[1..] == Digits(-v);
        SameWidthSameValue(s[1..], Digits(-v));
        assert s == [MINUS] + s[1..];
      } else {
        ValueOfDigits(v);
        SameWidthSameValue(s, Text(v));
      }
    }
  }
}
