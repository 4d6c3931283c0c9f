# ESP32 exercise firmware: a Dafny model

This project models the decision logic of a set of small ESP32 exercise
programs written in C. The model covers these programs:

- a multiplexed BCD display driver (`guia1_ej6`): `convertToBcdArray`, `BCDtoGPIO` and `DisplayNumberOnLcd`;
- an ECG waveform played back through the DAC (`guia2_ej4`): `GenerarSeñalECG` and its cursor `indice_ecg`;
- an ultrasonic distance meter in three versions (`guia2_ej1`, `guia2_ej2`, `guia2_ej3`). The model covers its LED bar `ActualizarLeds` and the pause and hold flags. It also covers:
  - one pass of the measuring task;
  - the polled rising-edge key detector;
  - the serial command decoder;
- an LED command interpreter (`guia1_ej3`): `ControlLeds`;
- a switch-to-LED dispatch loop (`guia1_ej2`).

Hardware is replaced by abstract state. Each category below lists its model and the Dafny file that holds it.

- **GPIO writes.** A GPIO write is a `Gpio.PinWrite`. A routine's effect on the pins is the trace of writes it issues, and `Gpio.Apply` replays a trace onto pin levels (`gpio.dfy`).
- **LED calls.** The three LEDs are a `Hw.Leds` record. `LedOn`, `LedOff` and `LedToggle` are `Hw.SetLed` and `Hw.ToggleLed` (`hw.dfy`).
- **Flags.** The globals `medicion_activa` and `hold_lcd` are a `Hw.Mode` record.
- **Inputs.** The sensor reading, the switch mask and the UART byte are parameters.
- **The LCD.** It is the last value written to it (`DistanceMeter.Panel`).

Module layout:

| file | module | models |
|---|---|---|
| hw.dfy | `Hw` | C integer widths, LED state, mode flags, the switch mask |
| arith.dfy | `Arith` | division and remainder facts used by the digit and cursor proofs |
| gpio.dfy | `Gpio` | pin-write traces and their effect |
| bcd.dfy | `Bcd` | `convertToBcdArray`, `BCDtoGPIO`, positional notation |
| display.dfy | `MuxDisplay` | `DisplayNumberOnLcd` |
| ecg.dfy | `EcgPlayback` | the `ecg` table, `GenerarSeñalECG`, the playback timer |
| distance.dfy | `DistanceMeter` | `ActualizarLeds`, `AtiendoTecla1/2`, one `LedTask` pass |
| keys.dfy | `KeyPolling` | one poll of `TeclasTask` and runs of polls |
| serial.dfy | `SerialMeter` | `funcTeclas` and the UART report line |
| ledcontrol.dfy | `LedControl` | `ControlLeds` |
| switchleds.dfy | `SwitchLeds` | one pass of the `app_main` loop of `guia1_ej2` |

The function `ActualizarLeds` appears three times, in `guia2_ej1.c`, `guia2_ej2.c` and `guia2_ej3.c`. The three copies are identical, and `DistanceMeter.UpdateLeds` models all of them. Likewise, `AtiendoTecla1/2` are the same in `guia2_ej2.c` and `guia2_ej3.c`, and the three `LedTask` loops share one measurement step. `guia2_ej3.c` adds a UART report to that step.

## Model

| member | source | states |
|---|---|---|
| Bcd.ConvertToBcdArray | firmware/projects/guia1_ej6/main/guia1_ej6.c:83-108 | Returns -1 exactly when `data >= 10^digits`, and then the buffer is untouched. Otherwise it returns 0 and writes exactly the first `digits` entries. Those entries are the decimal digits of `data`, most significant first and zero-padded in front. Each is in 0..9, and together they denote `data`. |
| Bcd.LowDigitsValue | firmware/projects/guia1_ej6/main/guia1_ej6.c:95-99 | The `k` digits the loop produces denote `data mod 10^k`, which is `data` itself when it fits. |
| Bcd.DigitsOfValue | firmware/projects/guia1_ej6/main/guia1_ej6.c:95-99 | Inverse direction: every array of decimal digits is the expansion the loop produces for the number it denotes. The expansion is therefore unique. |
| Bcd.BcdToGpio | firmware/projects/guia1_ej6/main/guia1_ej6.c:114-126 | `BCDtoGPIO` issues exactly four writes, one per BCD pin, in pin order. Write `i` drives its pin high exactly when bit `i` of the digit is set. `Bcd.BcdToGpioRoundTrip` gives the value a decoder reads back. |
| Bcd.BcdToGpioDrivesBits | firmware/projects/guia1_ej6/main/guia1_ej6.c:114-126 | After `BCDtoGPIO`, BCD pin `i` is high exactly when bit `i` of the digit is 1, for `i` in 0..3. |
| Bcd.BcdToGpioFrame | firmware/projects/guia1_ej6/main/guia1_ej6.c:114-126 | `BCDtoGPIO` leaves every pin other than the four BCD pins as it was. |
| Bcd.BcdToGpioRoundTrip | firmware/projects/guia1_ej6/main/guia1_ej6.c:111-127 | A decoder reading the four BCD pins afterwards sees `digit mod 16`. For a decimal digit, that is the digit itself. |
| MuxDisplay.SelectWrites | firmware/projects/guia1_ej6/main/guia1_ej6.c:140-147 | The select writes of iteration `i` name every select line once, in order. Line `j` is written high exactly when `j == i`, so exactly the current line is on. `MuxDisplay.SelectOneHot` gives the resulting pin levels. |
| MuxDisplay.DriveSelect | firmware/projects/guia1_ej6/main/guia1_ej6.c:140-147 | The inner loop writes every select line once, in order. Line `j` is driven high exactly when `j` is the current digit, so the loop issues exactly the writes `MuxDisplay.SelectWrites` describes. |
| MuxDisplay.DisplayNumberOnLcd | firmware/projects/guia1_ej6/main/guia1_ej6.c:129-152 | No pin is written when the number does not fit. Otherwise there is one frame per digit, and frame `i` selects line `i` and sends digit `i` of `data` to the BCD pins. |
| MuxDisplay.SelectOneHot | firmware/projects/guia1_ej6/main/guia1_ej6.c:140-147 | After the select writes of iteration `i`, select line `i` is on and every other select line is off. |
| MuxDisplay.FrameShows | firmware/projects/guia1_ej6/main/guia1_ej6.c:137-151 | Whatever the pins held before, one frame leaves its select line alone on and its digit on the BCD lines. |
| MuxDisplay.DisplayScansDigits | firmware/projects/guia1_ej6/main/guia1_ej6.c:137-151 | During the scan, frame `i` of the whole trace shows select line `i` and the `i`-th digit of `data`, most significant first. |
| MuxDisplay.ShownAreDigits | firmware/projects/guia1_ej6/main/guia1_ej6.c:129-152 | Over one scan, the digits read off the BCD lines frame by frame are exactly the zero-padded decimal digits of `data`, most significant first. |
| MuxDisplay.DisplayRoundTrip | firmware/projects/guia1_ej6/main/guia1_ej6.c:129-152 | The digits an observer reads off the BCD lines, frame by frame, denote `data` again. |
| MuxDisplay.ExampleDigits | firmware/projects/guia1_ej6/main/guia1_ej6.c:155-156 | The firmware's example: 682 on three digits is [6, 8, 2]. It does not fit in two digits. |
| EcgPlayback.Generate | firmware/projects/guia2_ej4/main/guia2_ej4.c:95-99 | The DAC receives the sample under the cursor. The next cursor stays below the table length: it is `cursor + 1`, except that the last index wraps to 0. |
| EcgPlayback.CursorAfterSteps | firmware/projects/guia2_ej4/main/guia2_ej4.c:98 | After `n` calls the cursor is `(start + n) mod N`. |
| EcgPlayback.FullCycleReturns | firmware/projects/guia2_ej4/main/guia2_ej4.c:98 | After exactly `N` calls the cursor is back at its starting value. |
| EcgPlayback.EmittedValues | firmware/projects/guia2_ej4/main/guia2_ej4.c:95-99 | The `k`-th value written is `table[(start + k) mod N]`. |
| EcgPlayback.EmittedFromReset | firmware/projects/guia2_ej4/main/guia2_ej4.c:73-99 | From the initial `indice_ecg = 0`, the `k`-th value written is `table[k mod N]`. |
| EcgPlayback.OneCyclePlaysTable | firmware/projects/guia2_ej4/main/guia2_ej4.c:95-99 | The first `N` calls from reset write the whole table once, in order. |
| EcgPlayback.Play | firmware/projects/guia2_ej4/main/guia2_ej4.c:95-103 | `n` timer ticks write `n` DAC values, each `table[(start + k) mod N]`, and leave the cursor at `(start + n) mod N`. |
| EcgPlayback.EcgTableShape | firmware/projects/guia2_ej4/main/guia2_ej4.c:46-71 | The table holds `BUFFER_SIZE` = 231 entries. Index 230 advances to 0, never to 231, and every other index advances by one. |
| EcgPlayback.TruncatedTableSkipsTail | firmware/projects/guia2_ej4/main/guia2_ej4.c:63-71 | The initializer lists 256 values, but the waveform as GCC compiles it repeats after 231 ticks. Tick 231 writes 17 where the listed waveform continues with 18. |
| EcgPlayback.FullTablePlaysEverySample | firmware/projects/guia2_ej4/main/guia2_ej4.c:63-71 | With the array sized to its initializer, each of the 256 listed samples plays once per cycle, in order, and the cursor returns to 0. |
| DistanceMeter.UpdateLeds | firmware/projects/guia2_ej3/main/guia2_ej3.c:122-139 | The number of lit LEDs is `min(distance / 10, 3)`, and the lit LEDs always form a bar from LED_1 upwards. |
| DistanceMeter.UpdateLedsBands | firmware/projects/guia2_ej2/main/guia2_ej2.c:121-138 | Below 10 cm every LED is off. [10, 20) lights LED_1 only, and [20, 30) lights LED_1 and LED_2 only. 30 cm and more lights all three. |
| DistanceMeter.UpdateLedsForgetsPrevious | firmware/projects/guia2_ej1/main/guia2_ej1.c:129-146 | The result does not depend on which LEDs were lit before, because all three are switched off first. |
| DistanceMeter.UpdateLedsMonotone | firmware/projects/guia2_ej1/main/guia2_ej1.c:134-145 | A larger distance never lights fewer LEDs, and it keeps lit every LED that a smaller distance lights. |
| DistanceMeter.ToggleMeasuring | firmware/projects/guia2_ej2/main/guia2_ej2.c:140-142 | `AtiendoTecla1` flips `medicion_activa` and leaves `hold_lcd` alone. |
| DistanceMeter.ToggleHold | firmware/projects/guia2_ej2/main/guia2_ej2.c:144-146 | `AtiendoTecla2` flips `hold_lcd` and leaves `medicion_activa` alone. |
| DistanceMeter.TogglesInvolutive | firmware/projects/guia2_ej3/main/guia2_ej3.c:141-147 | Applying either toggle twice restores the flags, the two toggles commute, and neither toggle is the identity. |
| DistanceMeter.MeasureTick | firmware/projects/guia2_ej2/main/guia2_ej2.c:103-116 | When paused, the sensor is not read, the distance is 0 and the bar is dark. The LED bar is updated on every pass. The LCD is rewritten with the distance only when not on hold. |
| DistanceMeter.HoldFreezesDisplayOnly | firmware/projects/guia2_ej1/main/guia2_ej1.c:87-92 | Under hold, consecutive passes keep the LCD value while the LED bar follows the latest reading. |
| DistanceMeter.PausedIgnoresSensor | firmware/projects/guia2_ej1/main/guia2_ej1.c:79-87 | When paused, the pass is the same whatever the sensor would report, and the LEDs are off. |
| KeyPolling.Poll | firmware/projects/guia2_ej1/main/guia2_ej1.c:107-123 | `medicion_activa` flips exactly on a rising edge of switch 1, and `hold_lcd` exactly on a rising edge of switch 2. Afterwards the stored previous states equal the current switch states. |
| KeyPolling.RunCountsRisingEdges | firmware/projects/guia2_ej1/main/guia2_ej1.c:107-125 | Over any sequence of polls, each flag ends flipped by the parity of its own key's rising edges. The remembered states are those of the last poll. |
| KeyPolling.HeldKeyTogglesOnce | firmware/projects/guia2_ej1/main/guia2_ej1.c:111-115 | Switch 1 held across any number of consecutive polls flips `medicion_activa` once and never touches `hold_lcd`. |
| KeyPolling.HeldHoldKeyTogglesOnce | firmware/projects/guia2_ej1/main/guia2_ej1.c:118-122 | Switch 2 held across any number of consecutive polls flips `hold_lcd` once and never touches `medicion_activa`. |
| KeyPolling.HeldEdges | firmware/projects/guia2_ej1/main/guia2_ej1.c:107-123 | For either key and any masks in which it stays pressed, a run of polls has exactly one rising edge, or none if the key was already remembered pressed. |
| KeyPolling.ReleasedNoEdges | firmware/projects/guia2_ej1/main/guia2_ej1.c:107-123 | A key that is pressed at no poll of a run has no rising edge in it, so its flag is never flipped. |
| KeyPolling.StartUpPressPauses | firmware/projects/guia2_ej1/main/guia2_ej1.c:104-115 | From start-up (`medicion_activa` true and `hold_lcd` false at lines 60-65, both keys remembered released), holding switch 1 for any number of polls pauses measurement exactly once and leaves the display free. |
| SerialMeter.FuncTeclas | firmware/projects/guia2_ej3/main/guia2_ej3.c:149-165 | 'O' and 'o' flip only `medicion_activa`, and 'H' and 'h' flip only `hold_lcd`. Any other byte changes neither flag. |
| SerialMeter.CommandsUndoThemselves | firmware/projects/guia2_ej3/main/guia2_ej3.c:141-164 | Receiving the same byte twice, or the same command in either letter case, restores the flags. |
| SerialMeter.CommandsReplicateKeys | firmware/projects/guia2_ej3/main/guia2_ej3.c:152-160 | The 'O' command does what key 1 does, and the 'H' command does what key 2 does. |
| SerialMeter.ReportTick | firmware/projects/guia2_ej3/main/guia2_ej3.c:104-116 | Each pass sends the distance in decimal followed by " cm\r\n", on top of the shared measurement step. |
| SerialMeter.PausedReportsZero | firmware/projects/guia2_ej3/main/guia2_ej3.c:104-116 | When paused, the line reads "0 cm\r\n" and the bar is dark. The LCD shows 0 unless it is held. |
| LedControl.ControlLeds | firmware/projects/guia1_ej3/main/guia1_eje3.c:57-113 | ON and OFF set only the selected LED. TOGGLE leaves the selected LED at its initial state XOR (`n_ciclos` is odd), so 0 cycles change nothing. An unknown `n_led` or mode changes no LED. TOGGLE issues exactly `n_ciclos * periodo` delays, even when `n_led` is unknown. |
| SwitchLeds.SwitchStep | firmware/projects/guia1_ej2/main/guia1_ej2.c:47-68 | With exactly SWITCH_1, SWITCH_2 or both pressed, LED_1, LED_2 or LED_3 respectively toggles and the other two go off. Any other mask turns all three off. After every pass at most one LED is lit. |
| SwitchLeds.HeldCombinationBlinks | firmware/projects/guia1_ej2/main/guia1_ej2.c:49-62 | Holding one combination flips its LED on each pass, so two passes restore it. The other LEDs stay off. |
| SwitchLeds.ReleaseDarkens | firmware/projects/guia1_ej2/main/guia1_ej2.c:63-67 | With no key pressed, the next pass switches every LED off. |

## Findings

| source | as written | input that shows it | evidently intended | confidence | as-written member | corrected member |
|---|---|---|---|---|---|---|
| firmware/projects/guia2_ej4/main/guia2_ej4.c:46, 63-71 | `ecg` is declared with `BUFFER_SIZE` = 231 entries, but its initializer lists 256 values. ISO C makes the excess initializers a constraint violation that requires a diagnostic (C11 6.7.9 paragraph 2). GCC, the compiler of the ESP-IDF build, warns "excess elements in array initializer" and keeps the first 231 values, which is the table `EcgPlayback.Ecg` models. | Tick 231 after reset writes `ecg[0]` = 17, but the listed waveform continues with its 232nd value, 18. Listed values 231..255 never reach the DAC. | The array length should match the listed waveform, so that every listed sample plays once per cycle. | medium, not executed | EcgPlayback.TruncatedTableSkipsTail | EcgPlayback.FullTablePlaysEverySample |

The playback lemmas are proved for any non-empty table. They hold both for the array as GCC compiles it (`EcgPlayback.Ecg`, 231 entries) and for the full initializer (`EcgPlayback.EcgInitializer`, 256 entries). The rows above about the firmware's table use those 231 entries.

## Left out

- FreeRTOS tasks, timers and task notifications are not modelled. The model leaves out `xTaskCreate`, `TimerInit/Start`, `vTaskNotifyGiveFromISR` and `ulTaskNotifyTake`. It also leaves out the coalescing of notifications and the races on `hold_lcd` and `medicion_activa` between interrupt callbacks and `LedTask`. Their semantics belong to a scheduler that is not part of this model. Each step function models one pass, run to completion.
- The ADC half of `guia2_ej4.c` is left out. This covers `TimerAdcCallback`, `AdcTask` and `AnalogInputReadSingle`. Its conversion `raw * 3.3 / 4095.0` and its `sprintf("%.3f\r\n")` formatting are floating point.
- Driver calls appear only as state updates or inputs. `GPIOOn`/`GPIOOff` become pin writes, and the `Led*` calls become updates of `Leds`. `HcSr04ReadDistanceInCentimeters` is an arbitrary 16-bit parameter. The `SwitchesRead` mask and the `UartReadByte` byte are arbitrary 8-bit parameters, as their `uint8_t` destinations are in the source. `LcdItsE0803Write` becomes the stored LCD value, and `AnalogOutputWrite` becomes the emitted DAC value. `GPIOInit`, `LedsInit` and the other initialisation calls in `app_main` are not modelled.
- SerialMeter.ReportTick: the text `UartItoa(distancia, 10)` produces is kept abstract as `Decimal(n)`. Its digit rendering belongs to the UART driver.
- Delays: `vTaskDelay` appears only as a count of calls, in `LedControl.ControlLeds`. Timing is not modelled.
- The `printf` tracing in `guia1_ej6.c` is not modelled.
- `LED_1/2/3` and `SWITCH_1/2` are defined in driver headers that are not part of this model. The model takes the LED codes as 1, 2 and 4 and the switch flags as bits 1 and 2. The lemmas rely only on the codes being distinct and the flags being distinct single bits.
- Bcd.ConvertToBcdArray: requires `digits <= 9`. `max_value` is a C `int`, and 10^10 overflows it, which is undefined behaviour.
- Bcd.BcdToGpio: the test `digit & (1 << i)` is written with integer division, as `(digit / 2^i) % 2 == 1`, which is the same bit of a non-negative value.
- MuxDisplay.DisplayScansDigits: the display lemmas assume distinct, non-overlapping BCD and select pins, as wired in `app_main`. The routine itself accepts any pin arrays. The CD4543 latch pulse mentioned in the file's comment is not in the code and is not modelled.
- `guia2_ej1.c` declares `ActualizarLeds` with external linkage (line 72) but defines it `static` (line 129). ISO C leaves that undefined (C11 6.2.2 paragraph 7), and GCC and Clang reject it as an error, so the file does not build as written. The members cited against `guia2_ej1.c` model the evidently intended program, in which the declaration and the definition agree, as they do in `guia2_ej2.c` and `guia2_ej3.c`.
