/**
 The LED command interpreter of firmware/projects/guia1_ej3
 (`ControlLeds`): a command names a mode, an LED, a number of blink cycles
 and a period counted in 100 ms delays.
 */
module LedControl {
  import opened Hw

  /** The `mode` codes `OFF`, `ON` and `TOGGLE`. */
  const Off: u8 := 0
  const On: u8 := 1
  const Toggle: u8 := 2

  /**
   The `n_led` codes. `LED_1`, `LED_2` and `LED_3` come from a driver header
   that is not part of this model; they are taken as the distinct values
   1, 2 and 4.
   */
  const Led1Code: u8 := 1
  const Led2Code: u8 := 2
  const Led3Code: u8 := 4

  /** `struct leds`. */
  datatype LedCommand = LedCommand(mode: u8, nLed: u8, nCycles: u8, period: u16)

  /** The LED an `n_led` value selects in the inner `switch`, if any. */
  predicate Selects(nLed: u8, id: LedId) {
    match id
    case Led1 => nLed == Led1Code
    case Led2 => nLed == Led2Code
    case Led3 => nLed == Led3Code
  }

  /** The inner `switch (n_led)` around a `LedOn`, `LedOff` or `LedToggle` call. */
  function OnSelected(l: Leds, nLed: u8, action: Leds -> LedId -> Leds): Leds {
    if nLed == Led1Code then action(l)(Led1)
    else if nLed == Led2Code then action(l)(Led2)
    else if nLed == Led3Code then action(l)(Led3)
    else l
  }

  /**
   `ControlLeds(cmd)` from LED state `l`: the LEDs afterwards and the number
   of `vTaskDelay` calls issued.
   */
  method ControlLeds(cmd: LedCommand, l: Leds) returns (r: Leds, delays: nat)
    ensures cmd.mode == On ==>
      forall id :: Lit(r, id) == if Selects(cmd.nLed, id) then true else Lit(l, id)
    ensures cmd.mode == Off ==>
      forall id :: Lit(r, id) == if Selects(cmd.nLed, id) then false else Lit(l, id)
    ensures cmd.mode == Toggle ==>
      forall id :: Lit(r, id) == if Selects(cmd.nLed, id) then Lit(l, id) != (cmd.nCycles % 2 == 1) else Lit(l, id)
    ensures cmd.mode !in {On, Off, Toggle} ==> r == l
    ensures delays == if cmd.mode == Toggle then cmd.nCycles * cmd.period else 0
  {
    r, delays := l, 0;
    if cmd.mode == On {
      r := OnSelected(l, cmd.nLed, s => id => SetLed(s, id, true));
    } else if cmd.mode == Off {
      r := OnSelected(l, cmd.nLed, s => id => SetLed(s, id, false));
    } else if cmd.mode == Toggle {
      var i := 0;
      while i < cmd.nCycles
        invariant 0 <= i <= cmd.nCycles
        invariant delays == i * cmd.period
        invariant forall id :: Lit(r, id) == if Selects(cmd.nLed, id) then Lit(l, id) != (i % 2 == 1) else Lit(l, id)
      {
        r := OnSelected(r, cmd.nLed, s => id => ToggleLed(s, id));
        var j := 0;
        while j < cmd.period
          invariant 0 <= j <= cmd.period
          invariant delays == i * cmd.period + j
        {
          delays := delays + 1;
          j := j + 1;
        }
        i := i + 1;
      }
    }
  }
}
