/**
 * Decimal text as the bencoders write and read it: Rust's `to_string` on
 * `usize`/`i32`, and Rust's `str::parse::<usize>()` / `str::parse::<i32>()`
 * (an optional sign, then one or more ASCII digits, leading zeros allowed, and
 * a value that fits the type). Text is a sequence of character codes so that
 * both the byte-based and the `String`-based bencoder can use it.
 */
module Decimal {
  import opened RustTypes

  const ZERO: int := 48   // '0'
  const PLUS: int := 43   // '+'
  const MINUS: int := 45  // '-'

  predicate IsDigit(c: int) { ZERO <= c <= ZERO + 9 }

  /** Every character is a digit (stated from the end, the way the value is read). */
  predicate AllDigits(t: seq<int>)
  {
    t == [] || (AllDigits(t[..|t| - 1]) && IsDigit(t[|t| - 1]))
  }

  lemma {:induction false} AllDigitsAt(t: seq<int>, k: nat)
    requires AllDigits(t) && k < |t|
    ensures IsDigit(t[k])
    decreases |t|
  {
    if k < |t| - 1 {
      AllDigitsAt(t[..|t| - 1], k);
    }
  }

  lemma AllDigitsEvery(t: seq<int>)
    requires AllDigits(t)
    ensures forall k :: 0 <= k < |t| ==> IsDigit(t[k])
  {
    forall k | 0 <= k < |t| {
      AllDigitsAt(t, k);
    }
  }

  /** The value of a run of decimal digits, most significant first. */
  function DigitsValue(t: seq<int>): nat
    requires AllDigits(t)
  {
    if t == [] then 0 else DigitsValue(t[..|t| - 1]) * 10 + (t[|t| - 1] - ZERO)
  }

  /** `n.to_string()` for an unsigned integer: the shortest digit run whose value is `n`. */
  function FormatNat(n: nat): (t: seq<int>)
    ensures 1 <= |t| && AllDigits(t)
    ensures forall k :: 0 <= k < |t| ==> IsDigit(t[k])
    ensures DigitsValue(t) == n
    ensures t[0] == ZERO ==> n == 0
  {
    if n < 10 then [ZERO + n]
    else
      var t := FormatNat(n / 10) + [ZERO + n % 10];
      assert t[..|t| - 1] == FormatNat(n / 10);
      t
  }

  /** `n.to_string()` for a signed integer: a minus sign before the magnitude when negative. */
  function FormatInt(n: int): (t: seq<int>)
    ensures 1 <= |t|
    ensures n < 0 ==> t[0] == MINUS && t[1..] == FormatNat(-n)
    ensures n >= 0 ==> t == FormatNat(n)
    ensures forall k :: 0 <= k < |t| ==> IsDigit(t[k]) || (k == 0 && t[k] == MINUS)
  {
    if n < 0 then [MINUS] + FormatNat(-n) else FormatNat(n)
  }

  /** `str::parse` for an unsigned type whose largest value is `max`. */
  function ParseUnsigned(t: seq<int>, max: nat): (r: Option<nat>)
    ensures r.Some? ==> r.value <= max
    ensures r.Some? ==> |t| >= 1 && IsDigit(t[|t| - 1])
    ensures r.Some? ==> forall k :: 0 <= k < |t| ==> IsDigit(t[k]) || (k == 0 && t[k] == PLUS)
    ensures var d := if t != [] && t[0] == PLUS then t[1..] else t;
            && (r.Some? <==> d != [] && AllDigits(d) && DigitsValue(d) <= max)
            && (r.Some? ==> r.value == DigitsValue(d))
  {
    if t == [] then None
    else
      var digits := if t[0] == PLUS then t[1..] else t;
      if digits == [] || !AllDigits(digits) then None
      else if DigitsValue(digits) <= max then
        AllDigitsEvery(digits);
        assert forall k :: 0 < k < |t| ==> t[k] == digits[k - (|t| - |digits|)];
        Some(DigitsValue(digits))
      else None
  }

  /** `str::parse` for a signed type with range `min..=max`. */
  function ParseSigned(t: seq<int>, min: int, max: int): (r: Option<int>)
    ensures r.Some? ==> min <= r.value <= max
    ensures r.Some? ==> |t| >= 1 && IsDigit(t[|t| - 1])
    ensures r.Some? ==> forall k :: 0 <= k < |t| ==> IsDigit(t[k]) || (k == 0 && (t[k] == PLUS || t[k] == MINUS))
    ensures r.Some? && r.value < 0 ==> t[0] == MINUS
    ensures t != [] ==>
            var d := if t[0] == PLUS || t[0] == MINUS then t[1..] else t;
            && (r.Some? <==> d != [] && AllDigits(d) && min <= (if t[0] == MINUS then -(DigitsValue(d) as int) else DigitsValue(d) as int) <= max)
            && (r.Some? ==> r.value == if t[0] == MINUS then -(DigitsValue(d) as int) else DigitsValue(d) as int)
    ensures t == [] ==> r.None?
  {
    if t == [] then None
    else if (t[0] == PLUS || t[0] == MINUS) && |t| == 1 then None
    else if t[0] == MINUS then
      if AllDigits(t[1..]) && min <= -(DigitsValue(t[1..]) as int) <= max then
        AllDigitsEvery(t[1..]);
        assert forall k :: 0 < k < |t| ==> t[k] == t[1..][k - 1];
        Some(-(DigitsValue(t[1..]) as int))
      else None
    else
      var digits := if t[0] == PLUS then t[1..] else t;
      if AllDigits(digits) && min <= DigitsValue(digits) <= max then
        AllDigitsEvery(digits);
        assert forall k :: 0 < k < |t| ==> t[k] == digits[k - (|t| - |digits|)];
        Some(DigitsValue(digits))
      else None
  }

  /** `k` zero digits. */
  function Zeros(k: nat): (t: seq<int>)
    ensures |t| == k && forall j :: 0 <= j < k ==> t[j] == ZERO
  {
    seq(k, _ => ZERO)
  }

  lemma {:induction false} ZerosValue(k: nat)
    ensures AllDigits(Zeros(k)) && DigitsValue(Zeros(k)) == 0
  {
    if k > 0 {
      assert Zeros(k)[..k - 1] == Zeros(k - 1);
      ZerosValue(k - 1);
    }
  }

  /** Leading zeros change neither the digit check nor the value. */
  lemma {:induction false} LeadingZeros(k: nat, t: seq<int>)
    requires AllDigits(t)
    ensures AllDigits(Zeros(k) + t) && DigitsValue(Zeros(k) + t) == DigitsValue(t)
    decreases |t|
  {
    if t == [] {
      assert Zeros(k) + t == Zeros(k);
      ZerosValue(k);
    } else {
      var u := Zeros(k) + t;
      assert u[..|u| - 1] == Zeros(k) + t[..|t| - 1];
      LeadingZeros(k, t[..|t| - 1]);
    }
  }

  /**
   * Text as `str::parse` accepts it beyond what `to_string` writes: an optional
   * `+` and any number of leading zeros before the digits of `n`. It reads as
   * `n` when `n` fits, and is refused otherwise.
   */
  lemma ParseUnsignedPadded(n: nat, zeros: nat, plus: bool, max: nat)
    ensures ParseUnsigned((if plus then [PLUS] else []) + Zeros(zeros) + FormatNat(n), max)
         == if n <= max then Some(n) else None
  {
    var sign: seq<int> := if plus then [PLUS] else [];
    var digits := Zeros(zeros) + FormatNat(n);
    LeadingZeros(zeros, FormatNat(n));
    var t := sign + Zeros(zeros) + FormatNat(n);
    assert t == sign + digits;
    AllDigitsAt(digits, 0);
    var d := if t != [] && t[0] == PLUS then t[1..] else t;
    assert d == digits && DigitsValue(d) == n;
  }

  /**
   * The same for `i32`-style parsing: a `-` before a negative number, an
   * optional `+` before any other, then leading zeros and the magnitude.
   */
  lemma ParseSignedPadded(n: int, zeros: nat, plus: bool, min: int, max: int)
    ensures ParseSigned((if n < 0 then [MINUS] else if plus then [PLUS] else []) + Zeros(zeros) + FormatNat(if n < 0 then -n else n), min, max)
         == if min <= n <= max then Some(n) else None
  {
    var m := if n < 0 then -n else n;
    var sign: seq<int> := if n < 0 then [MINUS] else if plus then [PLUS] else [];
    var digits := Zeros(zeros) + FormatNat(m);
    LeadingZeros(zeros, FormatNat(m));
    var t := sign + Zeros(zeros) + FormatNat(m);
    assert t == sign + digits;
    AllDigitsAt(digits, 0);
    var d := if t[0] == PLUS || t[0] == MINUS then t[1..] else t;
    assert d == digits && DigitsValue(d) == m;
    assert (t[0] == MINUS) == (n < 0);
  }

  /** Text written by `to_string` parses back to the same number. */
  lemma ParseUnsignedFormatNat(n: nat, max: nat)
    requires n <= max
    ensures ParseUnsigned(FormatNat(n), max) == Some(n)
  {
    var t := FormatNat(n);
    AllDigitsAt(t, 0);
  }

  lemma ParseSignedFormatInt(n: int, min: int, max: int)
    requires min <= n <= max
    ensures ParseSigned(FormatInt(n), min, max) == Some(n)
  {
    var t := FormatInt(n);
    if n < 0 {
      assert t[0] == MINUS && t[1..] == FormatNat(-n);
      assert |t| >= 2;
    } else {
      assert t == FormatNat(n);
      AllDigitsAt(t, 0);
    }
  }
}
