/** Bytes, and the decimal text of integers: the reference form that the
    fast convertors are proved against. */
module Decimal {
  type byte = b: int | 0 <= b < 256

  datatype Option<+T> = None | Some(value: T)

  const ZERO: byte := 48
  const MINUS: byte := 45

  predicate IsDigit(b: byte) {
    48 <= b <= 57
  }

  predicate AllDigits(s: seq<byte>) {
    forall i :: 0 <= i < |s| ==> IsDigit(s[i])
  }

  /** The number that a string of digits denotes, most significant first. */
  function Value(s: seq<byte>): (n: nat)
    requires AllDigits(s)
  {
    if s == [] then 0 else 10 * Value(s[..|s| - 1]) + (s[|s| - 1] - 48)
  }

  /** The canonical digits of n: no leading zero, except for 0 itself. */
  function Digits(n: nat): (s: seq<byte>)
    ensures s != [] && AllDigits(s)
  {
    if n < 10 then [48 + n] else Digits(n / 10) + [48 + n % 10]
  }

  /** The text of an integer: its digits, after a minus sign when negative. */
  function Text(t: int): (s: seq<byte>)
    ensures s != []
  {
    if t < 0 then [MINUS] + Digits(-t) else Digits(t)
  }

  function Pow10(k: nat): (p: int)
    ensures p >= 1
  {
    if k == 0 then 1 else 10 * Pow10(k - 1)
  }

  function Repeat(b: byte, k: nat): (s: seq<byte>)
    ensures |s| == k && forall i :: 0 <= i < k ==> s[i] == b
  {
    seq(k, _ => b)
  }

  /** s, filled up on the left to len bytes. */
  function PadTo(s: seq<byte>, len: nat, b: byte): (r: seq<byte>)
    requires |s| <= len
    ensures |r| == len
  {
    Repeat(b, len - |s|) + s
  }

  lemma {:induction false} ValueOfDigits(n: nat)
    ensures Value(Digits(n)) == n
  {
    if n < 10 {
      assert Digits(n)[..0] == [];
    } else {
      ValueOfDigits(n / 10);
      var s := Digits(n);
      assert s[..|s| - 1] == Digits(n / 10);
    }
  }

  lemma {:induction false} ValueAppend(s: seq<byte>, d: byte)
    requires AllDigits(s) && IsDigit(d)
    ensures AllDigits(s + [d]) && Value(s + [d]) == 10 * Value(s) + (d - 48)
  {
    assert (s + [d])[..|s|] == s;
  }

  /** A longer numeral never denotes a smaller number. */
  lemma {:induction false} ValueOfPrefix(s: seq<byte>, i: nat)
    requires AllDigits(s) && i <= |s|
    ensures Value(s[..i]) <= Value(s)
    decreases |s| - i
  {
    if i == |s| {
      assert s[..i] == s;
    } else {
      assert s[..i + 1][..i] == s[..i];
      ValueOfPrefix(s, i + 1);
    }
  }

  lemma {:induction false} ValueBound(s: seq<byte>)
    requires AllDigits(s)
    ensures Value(s) < Pow10(|s|)
  {
    if s != [] {
      ValueBound(s[..|s| - 1]);
    }
  }

  /** n has at most k digits exactly when it is below 10^k. */
  lemma {:induction false} DigitsLength(n: nat, k: nat)
    requires k >= 1
    ensures |Digits(n)| <= k <==> n < Pow10(k)
  {
    assert Pow10(1) == 10 * Pow10(0);
    if k == 1 {
    } else if n >= 10 {
      DigitsLength(n / 10, k - 1);
    } else {
      assert Pow10(k) == 10 * Pow10(k - 1);
    }
  }

  lemma {:induction false} ValueOfZeros(k: nat, s: seq<byte>)
    requires AllDigits(s)
    ensures AllDigits(Repeat(ZERO, k) + s) && Value(Repeat(ZERO, k) + s) == Value(s)
  {
    var r := Repeat(ZERO, k) + s;
    if s != [] {
      ValueOfZeros(k, s[..|s| - 1]);
      assert r[..|r| - 1] == Repeat(ZERO, k) + s[..|s| - 1];
    } else if k > 0 {
      ValueOfZeros(k - 1, []);
      assert r[..k - 1] == Repeat(ZERO, k - 1) + [];
    }
  }

  /** Among numerals of one width, the one that denotes n is unique. */
  lemma {:induction false} SameWidthSameValue(s: seq<byte>, t: seq<byte>)
    requires AllDigits(s) && AllDigits(t) && |s| == |t| && Value(s) == Value(t)
    ensures s == t
  {
    if s != [] {
      var k := |s| - 1;
      assert s == s[..k] + [s[k]] && t == t[..k] + [t[k]];
      SameWidthSameValue(s[..k], t[..k]);
    }
  }
}
