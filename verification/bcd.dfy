/**
 Decimal-to-BCD conversion of the multiplexed-display exercise
 (`convertToBcdArray`) and the 4-bit BCD pin driver (`BCDtoGPIO`).
 */
module Bcd {
  import opened Hw
  import opened Gpio
  import opened Arith

  /** `N_BITS`: a BCD digit drives four data pins. */
  const NBits := 4

  function Pow10(n: nat): (p: nat)
    ensures p >= 1
  {
    if n == 0 then 1 else 10 * Pow10(n - 1)
  }

  function Pow2(n: nat): (p: nat)
    ensures p >= 1
  {
    if n == 0 then 1 else 2 * Pow2(n - 1)
  }

  // ---------------------------------------------------------------------
  // Decimal digits, most significant first
  // ---------------------------------------------------------------------

  predicate AllDecimal(ds: seq<int>) {
    forall i :: 0 <= i < |ds| ==> 0 <= ds[i] <= 9
  }

  /** The number a digit array denotes: the sum of `ds[i] * 10^(|ds|-1-i)`. */
  function Value(ds: seq<int>): int {
    if |ds| == 0 then 0 else ds[0] * Pow10(|ds| - 1) + Value(ds[1..])
  }

  /** The `k` lowest decimal digits of `n`, most significant first. */
  function LowDigits(n: nat, k: nat): (ds: seq<int>)
    ensures |ds| == k
    ensures AllDecimal(ds)
  {
    if k == 0 then [] else [(n / Pow10(k - 1)) % 10] + LowDigits(n, k - 1)
  }

  lemma {:induction false} ValueBounds(ds: seq<int>)
    requires AllDecimal(ds)
    ensures 0 <= Value(ds) < Pow10(|ds|)
  {
    if |ds| > 0 {
      ValueBounds(ds[1..]);
      var p := Pow10(|ds| - 1);
      MulMono(ds[0], 9, p);
      MulMono(0, ds[0], p);
      assert Pow10(|ds|) == 10 * p;
    }
  }

  /** Reading back the `k` low digits of `n` gives `n` modulo `10^k`. */
  lemma {:induction false} LowDigitsValue(n: nat, k: nat)
    ensures Value(LowDigits(n, k)) == n % Pow10(k)
  {
    if k > 0 {
      var ds := LowDigits(n, k);
      assert ds[1..] == LowDigits(n, k - 1);
      LowDigitsValue(n, k - 1);
      DigitSplit(n, Pow10(k - 1), 10);
    }
  }

  /** Two decimal digit arrays of the same length that denote the same number are equal. */
  lemma {:induction false} ValueInjective(a: seq<int>, b: seq<int>)
    requires AllDecimal(a) && AllDecimal(b) && |a| == |b|
    requires Value(a) == Value(b)
    ensures a == b
  {
    if |a| > 0 {
      var p := Pow10(|a| - 1);
      ValueBounds(a[1..]);
      ValueBounds(b[1..]);
      DivModUnique(Value(a), p, a[0], Value(a[1..]));
      DivModUnique(Value(b), p, b[0], Value(b[1..]));
      ValueInjective(a[1..], b[1..]);
      assert a == [a[0]] + a[1..];
      assert b == [b[0]] + b[1..];
    }
  }

  /** Every decimal digit array is the digit expansion of the number it denotes. */
  lemma DigitsOfValue(ds: seq<int>)
    requires AllDecimal(ds)
    ensures Value(ds) >= 0 && LowDigits(Value(ds), |ds|) == ds
  {
    var v, p := Value(ds), Pow10(|ds|);
    ValueBounds(ds);
    DivModUnique(v, p, 0, v);
    LowDigitsValue(v, |ds|);
    ValueInjective(LowDigits(v, |ds|), ds);
  }

  /** One step of the conversion loop: the next digit up, and the quotient left over. */
  lemma DigitStep(n: nat, i: nat)
    ensures LowDigits(n, i + 1) == [(n / Pow10(i)) % 10] + LowDigits(n, i)
    ensures n / Pow10(i + 1) == (n / Pow10(i)) / 10
  {
    DigitSplit(n, Pow10(i), 10);
  }

  // ---------------------------------------------------------------------
  // convertToBcdArray
  // ---------------------------------------------------------------------

  /**
   Writing `x` just below the `i` digits already stored at the top of
   `a[..digits]` extends that stored block by one and keeps the rest.
   */
  lemma WriteBelow(a: seq<int>, digits: nat, i: nat, x: int)
    requires i < digits <= |a|
    ensures a[digits - 1 - i := x][digits - (i + 1)..digits] == [x] + a[digits - i..digits]
    ensures a[digits - 1 - i := x][..digits - (i + 1)] == a[..digits - (i + 1)]
    ensures a[digits - 1 - i := x][digits..] == a[digits..]
  {
    var b := a[digits - 1 - i := x];
    var got, want := b[digits - (i + 1)..digits], [x] + a[digits - i..digits];
    assert |got| == |want|;
    forall k | 0 <= k < |got| ensures got[k] == want[k] {
      if k > 0 {
        assert got[k] == a[digits - i + (k - 1)];
      }
    }
  }

  /**
   `convertToBcdArray(data, digits, bcd_number)`: `buf` is the caller's
   array before the call and `out` after it; `status` is the `int8_t`
   return value. `max_value` is a C `int`, so `digits` is limited to 9
   (10^10 does not fit).
   */
  method ConvertToBcdArray(data: u32, digits: u8, buf: seq<u8>) returns (status: int, out: seq<u8>)
    requires digits <= 9
    requires |buf| >= digits
    ensures status == 0 || status == -1
    ensures status == -1 <==> data >= Pow10(digits)
    ensures status == -1 ==> out == buf
    ensures status == 0 ==> |out| == |buf| && out[digits..] == buf[digits..]
    ensures status == 0 ==> out[..digits] == LowDigits(data, digits)
    ensures status == 0 ==> AllDecimal(out[..digits]) && Value(out[..digits]) == data
  {
    var maxValue := 1;
    var i := 0;
    while i < digits
      invariant 0 <= i <= digits
      invariant maxValue == Pow10(i)
    {
      maxValue := maxValue * 10;
      i := i + 1;
    }
    if data >= maxValue {
      return -1, buf;
    }

    out := buf;
    var rest: int := data;
    i := 0;
    while i < digits
      invariant 0 <= i <= digits
      invariant |out| == |buf|
      invariant out[..digits - i] == buf[..digits - i]
      invariant out[digits..] == buf[digits..]
      invariant out[digits - i..digits] == LowDigits(data, i)
      invariant rest == data / Pow10(i)
    {
      DigitStep(data, i);
      WriteBelow(out, digits, i, rest % 10);
      out := out[digits - 1 - i := rest % 10];
      rest := rest / 10;
      i := i + 1;
    }
    assert out[..digits] == out[digits - i..digits];
    LowDigitsValue(data, digits);
    ModSmall(data, Pow10(digits));
    status := 0;
  }

  // ---------------------------------------------------------------------
  // BCDtoGPIO
  // ---------------------------------------------------------------------

  /** Bit `i` of `v`, the test `v & (1 << i)`. */
  predicate Bit(v: nat, i: nat) {
    (v / Pow2(i)) % 2 == 1
  }

  /** The writes `BCDtoGPIO(digit, pins)` issues: pin `i` follows bit `i`, for `i` in 0..3. */
  function BcdToGpio(digit: u8, pins: seq<Pin>): (w: seq<PinWrite>)
    requires |pins| >= NBits
    ensures |w| == NBits
    ensures forall i :: 0 <= i < NBits ==> w[i].pin == pins[i]
    ensures forall i :: 0 <= i < NBits ==> (w[i].high <==> Bit(digit, i))
  {
    seq(NBits, i requires 0 <= i < NBits => PinWrite(pins[i], Bit(digit, i)))
  }

  /** The four BCD data pins are distinct. */
  predicate DistinctPins(pins: seq<Pin>, n: nat)
    requires n <= |pins|
  {
    forall i, j :: 0 <= i < j < n ==> pins[i] != pins[j]
  }

  /** The number a CD4543 decoder reads from four BCD data pins (pin 0 least significant). */
  function BcdRead(s: Levels, pins: seq<Pin>): nat
    requires |pins| >= NBits
  {
    (if Level(s, pins[0]) then 1 else 0) + (if Level(s, pins[1]) then 2 else 0)
    + (if Level(s, pins[2]) then 4 else 0) + (if Level(s, pins[3]) then 8 else 0)
  }

  /** The low `k` bits of `v`, reassembled. */
  function LowBits(v: nat, k: nat): nat {
    if k == 0 then 0 else LowBits(v, k - 1) + (if Bit(v, k - 1) then Pow2(k - 1) else 0)
  }

  lemma {:induction false} LowBitsValue(v: nat, k: nat)
    ensures LowBits(v, k) == v % Pow2(k)
  {
    if k > 0 {
      var p := Pow2(k - 1);
      LowBitsValue(v, k - 1);
      DigitSplit(v, p, 2);
      assert Pow2(k) == 2 * p;
      if Bit(v, k - 1) {
        assert ((v / p) % 2) * p == p;
      } else {
        assert ((v / p) % 2) * p == 0;
      }
    }
  }

  /** After `BCDtoGPIO`, pin `i` is high exactly when bit `i` of the digit is 1. */
  lemma BcdToGpioDrivesBits(s: Levels, digit: u8, pins: seq<Pin>, i: nat)
    requires |pins| >= NBits && DistinctPins(pins, NBits)
    requires i < NBits
    ensures Level(Apply(s, BcdToGpio(digit, pins)), pins[i]) <==> Bit(digit, i)
  {
    ApplyLastWrite(s, BcdToGpio(digit, pins), i);
  }

  /** `BCDtoGPIO` touches only the four BCD pins. */
  lemma BcdToGpioFrame(s: Levels, digit: u8, pins: seq<Pin>, p: Pin)
    requires |pins| >= NBits
    requires forall i :: 0 <= i < NBits ==> pins[i] != p
    ensures Level(Apply(s, BcdToGpio(digit, pins)), p) == Level(s, p)
  {
    ApplyUntouched(s, BcdToGpio(digit, pins), p);
  }

  /**
   Round trip through the pins: a decoder reading the four BCD pins after
   `BCDtoGPIO(digit)` sees the low 4 bits of `digit`, hence the digit itself
   when it is a decimal digit.
   */
  lemma BcdToGpioRoundTrip(s: Levels, digit: u8, pins: seq<Pin>)
    requires |pins| >= NBits && DistinctPins(pins, NBits)
    ensures BcdRead(Apply(s, BcdToGpio(digit, pins)), pins) == digit % 16
    ensures digit <= 9 ==> BcdRead(Apply(s, BcdToGpio(digit, pins)), pins) == digit
  {
    var s' := Apply(s, BcdToGpio(digit, pins));
    BcdToGpioDrivesBits(s, digit, pins, 0);
    BcdToGpioDrivesBits(s, digit, pins, 1);
    BcdToGpioDrivesBits(s, digit, pins, 2);
    BcdToGpioDrivesBits(s, digit, pins, 3);
    assert Pow2(1) == 2 && Pow2(2) == 4 && Pow2(3) == 8 && Pow2(4) == 16;
    assert LowBits(digit, 1) == (if Bit(digit, 0) then 1 else 0);
    assert LowBits(digit, 2) == LowBits(digit, 1) + (if Bit(digit, 1) then 2 else 0);
    assert LowBits(digit, 3) == LowBits(digit, 2) + (if Bit(digit, 2) then 4 else 0);
    assert LowBits(digit, 4) == LowBits(digit, 3) + (if Bit(digit, 3) then 8 else 0);
    assert LowBits(digit, 4) == BcdRead(s', pins);
    LowBitsValue(digit, 4);
    if digit <= 9 {
      DivModUnique(digit, 16, 0, digit);
    }
  }
}
