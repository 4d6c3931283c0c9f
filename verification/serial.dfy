/**
 The serial side of firmware/projects/guia2_ej3: the receive callback
 `funcTeclas`, which replays the two keys from the PC keyboard, and the
 report line `LedTask` sends for every measurement.
 */
module SerialMeter {
  import opened Hw
  import opened DistanceMeter

  /**
   What one `UartSendString` call sends: the text `UartItoa(n, 10)` returns
   for a number, or a literal string.
   */
  datatype UartChunk = Decimal(value: nat) | Text(text: string)

  /** The unit and line terminator that follow every reported distance. */
  const LineEnd := " cm\r\n"

  /** `funcTeclas` on the received byte `key`. */
  function FuncTeclas(m: Mode, key: u8): (r: Mode)
    ensures r.measuring != m.measuring <==> key == 'O' as int || key == 'o' as int
    ensures r.hold != m.hold <==> key == 'H' as int || key == 'h' as int
  {
    if key == 'O' as int || key == 'o' as int then ToggleMeasuring(m)
    else if key == 'H' as int || key == 'h' as int then ToggleHold(m)
    else m
  }

  /**
   A byte that is not a command leaves the flags alone, and every command
   is undone by sending it again, in either letter case.
   */
  lemma CommandsUndoThemselves(m: Mode, key: u8, again: u8)
    requires || key == again
             || (key as char in {'O', 'o'} && again as char in {'O', 'o'})
             || (key as char in {'H', 'h'} && again as char in {'H', 'h'})
    ensures FuncTeclas(FuncTeclas(m, key), again) == m
  {
  }

  /** The serial commands and the keys they replicate act on the same flags. */
  lemma CommandsReplicateKeys(m: Mode)
    ensures FuncTeclas(m, 'O' as int) == FuncTeclas(m, 'o' as int) == ToggleMeasuring(m)
    ensures FuncTeclas(m, 'H' as int) == FuncTeclas(m, 'h' as int) == ToggleHold(m)
  {
  }

  /**
   One iteration of this project's `LedTask`: the measurement tick of the
   shared meter, plus the report line sent over the UART.
   */
  function ReportTick(m: Mode, sensor: u16, p: Panel): (r: (Tick, seq<UartChunk>))
    ensures r.0 == MeasureTick(m, sensor, p)
    ensures |r.1| == 2
    ensures r.1[0] == Decimal(if m.measuring then sensor else 0)
    ensures r.1[|r.1| - 1] == Text(LineEnd)
  {
    var t := MeasureTick(m, sensor, p);
    (t, [Decimal(t.distance), Text(LineEnd)])
  }

  /**
   While paused the line reports 0 cm and the bar is dark, whatever the
   sensor would say; the LCD is rewritten with 0 unless held.
   */
  lemma PausedReportsZero(m: Mode, sensor: u16, p: Panel)
    requires !m.measuring
    ensures ReportTick(m, sensor, p).1 == [Decimal(0), Text(" cm\r\n")]
    ensures ReportTick(m, sensor, p).0.panel.leds == AllOff
    ensures ReportTick(m, sensor, p).0.panel.lcd == if m.hold then p.lcd else 0
  {
  }
}
