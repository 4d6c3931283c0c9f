/**
 The ultrasonic distance meter shared by three projects
 (firmware/projects/guia2_ej1, guia2_ej2, guia2_ej3): the distance-to-LED
 bar (`ActualizarLeds`, identical in the three files), the pause and hold
 toggles (`AtiendoTecla1`, `AtiendoTecla2`), and one iteration of the
 measuring task (`LedTask`).
 */
module DistanceMeter {
  import opened Hw

  /**
   `ActualizarLeds(distancia)`: switch all three LEDs off, then light
   LED_1 from 10 cm, LED_2 from 20 cm and LED_3 from 30 cm.
   */
  function UpdateLeds(l: Leds, distance: u16): (r: Leds)
    ensures LitCount(r) == if distance / 10 < 3 then distance / 10 else 3
    ensures (r.led3 ==> r.led2) && (r.led2 ==> r.led1)
  {
    var dark := SetLed(SetLed(SetLed(l, Led1, false), Led2, false), Led3, false);
    if distance < 10 then
      dark
    else if distance < 20 then
      SetLed(dark, Led1, true)
    else if distance < 30 then
      SetLed(SetLed(dark, Led1, true), Led2, true)
    else
      SetLed(SetLed(SetLed(dark, Led1, true), Led2, true), Led3, true)
  }

  /** The four distance bands and the LEDs each lights, whatever was lit before. */
  lemma UpdateLedsBands(l: Leds, distance: u16)
    ensures distance < 10 ==> UpdateLeds(l, distance) == AllOff
    ensures 10 <= distance < 20 ==> UpdateLeds(l, distance) == Leds(true, false, false)
    ensures 20 <= distance < 30 ==> UpdateLeds(l, distance) == Leds(true, true, false)
    ensures 30 <= distance ==> UpdateLeds(l, distance) == Leds(true, true, true)
  {
  }

  /** The bar does not depend on what the LEDs showed before. */
  lemma UpdateLedsForgetsPrevious(l: Leds, l': Leds, distance: u16)
    ensures UpdateLeds(l, distance) == UpdateLeds(l', distance)
  {
    UpdateLedsBands(l, distance);
    UpdateLedsBands(l', distance);
  }

  /** A farther object never lights fewer LEDs, and every LED lit nearer stays lit. */
  lemma UpdateLedsMonotone(l: Leds, d1: u16, d2: u16)
    requires d1 <= d2
    ensures LitCount(UpdateLeds(l, d1)) <= LitCount(UpdateLeds(l, d2))
    ensures LitWithin(UpdateLeds(l, d1), UpdateLeds(l, d2))
  {
    UpdateLedsBands(l, d1);
    UpdateLedsBands(l, d2);
  }

  /** `AtiendoTecla1`: pause or resume measuring. */
  function ToggleMeasuring(m: Mode): (r: Mode)
    ensures r.measuring != m.measuring && r.hold == m.hold
  {
    m.(measuring := !m.measuring)
  }

  /** `AtiendoTecla2`: hold or release the display. */
  function ToggleHold(m: Mode): (r: Mode)
    ensures r.hold != m.hold && r.measuring == m.measuring
  {
    m.(hold := !m.hold)
  }

  /** Each toggle undoes itself, and the two toggles act on independent flags. */
  lemma TogglesInvolutive(m: Mode)
    ensures ToggleMeasuring(ToggleMeasuring(m)) == m
    ensures ToggleHold(ToggleHold(m)) == m
    ensures ToggleMeasuring(ToggleHold(m)) == ToggleHold(ToggleMeasuring(m))
    ensures ToggleMeasuring(m) != m && ToggleHold(m) != m
  {
  }

  /** The LEDs and the value last written to the LCD display. */
  datatype Panel = Panel(leds: Leds, lcd: u16)

  /**
   One iteration of `LedTask`: the distance used (`distancia`), whether the
   sensor was read, and the panel afterwards. `sensor` is the value
   `HcSr04ReadDistanceInCentimeters()` would return.
   */
  datatype Tick = Tick(distance: u16, sensorRead: bool, panel: Panel)

  function MeasureTick(m: Mode, sensor: u16, p: Panel): (t: Tick)
    ensures t.sensorRead == m.measuring
    ensures t.distance == if m.measuring then sensor else 0
    ensures t.panel.leds == UpdateLeds(p.leds, t.distance)
    ensures !m.measuring ==> t.panel.leds == AllOff
    ensures t.panel.lcd == if m.hold then p.lcd else t.distance
  {
    var distance := if m.measuring then sensor else 0;
    var leds := UpdateLeds(p.leds, distance);
    var lcd := if !m.hold then distance else p.lcd;
    Tick(distance, m.measuring, Panel(leds, lcd))
  }

  /**
   Holding freezes the display but not the LED bar: two ticks under hold
   leave the LCD as it was and the LEDs following the latest reading.
   */
  lemma HoldFreezesDisplayOnly(m: Mode, s1: u16, s2: u16, p: Panel)
    requires m.hold && m.measuring
    ensures MeasureTick(m, s2, MeasureTick(m, s1, p).panel).panel.lcd == p.lcd
    ensures MeasureTick(m, s2, MeasureTick(m, s1, p).panel).panel.leds == UpdateLeds(p.leds, s2)
  {
    UpdateLedsForgetsPrevious(MeasureTick(m, s1, p).panel.leds, p.leds, s2);
  }

  /** While paused the sensor value is ignored: every reading gives the same tick. */
  lemma PausedIgnoresSensor(m: Mode, s1: u16, s2: u16, p: Panel)
    requires !m.measuring
    ensures MeasureTick(m, s1, p) == MeasureTick(m, s2, p)
    ensures MeasureTick(m, s1, p).panel.leds == AllOff
  {
  }
}
