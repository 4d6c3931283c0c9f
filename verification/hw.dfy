/**
 Shared hardware vocabulary of the exercise firmware: the fixed-width C
 integer types, the three board LEDs, and the two mode flags that the
 distance-meter projects keep in globals.
 */
module Hw {

  /** C `uint8_t`, `uint16_t`, `uint32_t`. */
  type u8 = x: int | 0 <= x < 0x100
  type u16 = x: int | 0 <= x < 0x1_0000
  type u32 = x: int | 0 <= x < 0x1_0000_0000

  /** On/off state of LED_1, LED_2 and LED_3. */
  datatype Leds = Leds(led1: bool, led2: bool, led3: bool)

  const AllOff := Leds(false, false, false)

  /** The three board LEDs, `LED_1`, `LED_2`, `LED_3`. */
  datatype LedId = Led1 | Led2 | Led3

  function Lit(l: Leds, id: LedId): bool {
    match id
    case Led1 => l.led1
    case Led2 => l.led2
    case Led3 => l.led3
  }

  /** `LedOn(id)` / `LedOff(id)`: set one LED, leave the others. */
  function SetLed(l: Leds, id: LedId, on: bool): (r: Leds)
    ensures Lit(r, id) == on
    ensures forall o :: o != id ==> Lit(r, o) == Lit(l, o)
  {
    match id
    case Led1 => l.(led1 := on)
    case Led2 => l.(led2 := on)
    case Led3 => l.(led3 := on)
  }

  /** `LedToggle(id)`: flip one LED, leave the others. */
  function ToggleLed(l: Leds, id: LedId): (r: Leds)
    ensures Lit(r, id) == !Lit(l, id)
    ensures forall o :: o != id ==> Lit(r, o) == Lit(l, o)
  {
    SetLed(l, id, !Lit(l, id))
  }

  /** Number of LEDs that are lit. */
  function LitCount(l: Leds): (n: nat)
    ensures n <= 3
    ensures n == 0 <==> l == AllOff
  {
    (if l.led1 then 1 else 0) + (if l.led2 then 1 else 0) + (if l.led3 then 1 else 0)
  }

  /** Every LED lit in `a` is lit in `b`. */
  predicate LitWithin(a: Leds, b: Leds) {
    (a.led1 ==> b.led1) && (a.led2 ==> b.led2) && (a.led3 ==> b.led3)
  }

  /**
   The `medicion_activa` and `hold_lcd` globals. At start-up measurement
   is active and the display is not held.
   */
  datatype Mode = Mode(measuring: bool, hold: bool)

  const InitialMode := Mode(true, false)

  /**
   The value `SwitchesRead()` returns is a bit mask of pressed keys.
   `SWITCH_1` and `SWITCH_2` come from a driver header that is not part of
   this model; they are taken as the distinct single bits 1 and 2.
   */
  type Mask = bv8

  const Switch1: Mask := 1
  const Switch2: Mask := 2

  /** `mask & flag`, read as a C truth value. */
  predicate Pressed(mask: Mask, flag: Mask) {
    mask & flag != 0
  }
}
