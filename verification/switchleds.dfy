/**
 One pass of the `app_main` loop of firmware/projects/guia1_ej2: the
 switch mask picks which single LED blinks; every other LED is switched off.
 */
module SwitchLeds {
  import opened Hw

  /** At most one LED is lit. */
  predicate AtMostOneLit(l: Leds) {
    LitCount(l) <= 1
  }

  /** The `switch (teclas)` of one loop pass, from LED state `l`. */
  function SwitchStep(mask: Mask, l: Leds): (r: Leds)
    ensures AtMostOneLit(r)
    ensures mask == Switch1 ==> r.led1 == !l.led1 && !r.led2 && !r.led3
    ensures mask == Switch2 ==> r.led2 == !l.led2 && !r.led1 && !r.led3
    ensures mask == Switch1 | Switch2 ==> r.led3 == !l.led3 && !r.led1 && !r.led2
    ensures mask !in {Switch1, Switch2, Switch1 | Switch2} ==> r == AllOff
  {
    if mask == Switch1 then
      SetLed(SetLed(ToggleLed(l, Led1), Led2, false), Led3, false)
    else if mask == Switch2 then
      SetLed(SetLed(ToggleLed(l, Led2), Led1, false), Led3, false)
    else if mask == Switch1 | Switch2 then
      SetLed(SetLed(ToggleLed(l, Led3), Led1, false), Led2, false)
    else
      SetLed(SetLed(SetLed(l, Led1, false), Led2, false), Led3, false)
  }

  /** The LED that blinks while `mask` is held, if any. */
  function Blinking(mask: Mask): (id: LedId)
    requires mask in {Switch1, Switch2, Switch1 | Switch2}
  {
    if mask == Switch1 then Led1 else if mask == Switch2 then Led2 else Led3
  }

  /**
   Holding the same combination for two passes brings its LED back to the
   state it had, and leaves the other two off: a blink of period two passes.
   */
  lemma HeldCombinationBlinks(mask: Mask, l: Leds)
    requires mask in {Switch1, Switch2, Switch1 | Switch2}
    ensures Lit(SwitchStep(mask, SwitchStep(mask, l)), Blinking(mask)) == Lit(l, Blinking(mask))
    ensures Lit(SwitchStep(mask, l), Blinking(mask)) != Lit(l, Blinking(mask))
    ensures forall o :: o != Blinking(mask) ==> !Lit(SwitchStep(mask, l), o)
  {
  }

  /** With no key pressed the next pass switches every LED off, whatever was lit. */
  lemma ReleaseDarkens(l: Leds)
    ensures SwitchStep(0, l) == AllOff
    ensures SwitchStep(0, SwitchStep(Switch1, l)) == AllOff
  {
  }
}
