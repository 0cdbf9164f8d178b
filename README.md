# ATmega8A LED matrix clock — a Dafny model

This project models the firmware of a small wall clock built on an ATmega8A. The clock shows the time on an LED matrix of ten columns; the firmware keeps twelve rows in its buffer and scans eleven of them out. The modelled parts are:

- the glyph table (`charset`) and the twelve-row `displaybuffer`;
- the frame builder (`resetDisplayBuffer`, `prepareFrame`, `refreshFrame`) and `getDigit`;
- the way `multiplex` splits a row over PORTB, PORTC and PORTD;
- the timer-0 interrupt, which scans the display out and then rebuilds it;
- the timer-2 interrupt: one overflow per crystal second. It uses a `uint32_t` drift accumulator for the 40 ppm correction, carries seconds into minutes and hours, freezes in set mode, and counts idle seconds;
- the manual set (`incrementHour`, `incrementMinute`);
- one iteration of `main`'s loop: the button hold count, the mode cycle normal → set hour → set minute → normal, the short press that bumps the unit, and the sleep after 30 idle seconds;
- the `INT0` wake interrupt.

Modules:

- `Glyphs` (glyphs.dfy): the glyph table, and a decoder that reads a digit back from its three segments.
- `DigitSplit` (digits.dfy): `getDigit`, using C's truncating `%` and `/`.
- `FrameLayout` (frame.dfy): the reference definition `Frame` of the twelve rows for a state. Lemmas say what each row shows, and `DecodeTime` reads hour, minute and second back from a frame.
- `Ports` (ports.dfy): how one row is written to the three ports.
- `Timekeeping` (timekeeping.dfy): the shared counters as a `Snapshot` value, plus each interrupt and each main-loop iteration as a function on it. It also holds the accumulator's arithmetic, the invariant every step keeps, and runs over any interleaving of the three contexts.
- `ClockDevice` (clock.dfy): class `Clock` holds the globals as fields and the display buffer as an `array`. It has one method per routine, with the C's loops. Each method is proved against the functions above.

## Model

| member | source | states |
|---|---|---|
| Glyphs.Glyph | atmega8a-clock.c:19-31 | defines segment k of symbol sym as the entry of the `charset` table (`CHARSET`), for the eleven symbols and three segments the table has |
| Glyphs.GlyphTable | atmega8a-clock.c:19-31 | the three 3-bit segments of every symbol 0-9 and of the colon, as the table lists them |
| Glyphs.GlyphBounded | atmega8a-clock.c:19-31 | every segment of every symbol fits in three bits, so the shifted digits cannot overlap |
| Glyphs.FindDigitSound | atmega8a-clock.c:19-31 | any digit a search finds has exactly the three given segments |
| Glyphs.DecodeDigitSound | atmega8a-clock.c:19-31 | a decoded digit is a decimal digit whose glyph is the three segments it was read from |
| Glyphs.DecodeDigitOfGlyph | atmega8a-clock.c:19-31 | no two digits share a glyph, so every digit's segments read back as that digit |
| DigitSplit.CRem | atmega8a-clock.c:216 | defines C's `%` for a positive divisor: the remainder takes the sign of the dividend |
| DigitSplit.CDiv | atmega8a-clock.c:217 | defines C's `/` for a positive divisor: the quotient truncates toward zero |
| DigitSplit.GetDigit | atmega8a-clock.c:213-220 | defines `getDigit`: position 1 is the C remainder by 10, position 0 is (number minus it) divided by 10 |
| DigitSplit.GetDigitRecombines | atmega8a-clock.c:213-220 | for every number, negative ones included, tens × 10 + units is the number, and the C remainder stays within ±9 |
| DigitSplit.GetDigitOfNat | atmega8a-clock.c:213-220 | on non-negative numbers the two digits are the quotient and remainder by 10; below 100 both are decimal digits |
| DigitSplit.GetDigitExample | atmega8a-clock.c:208-220 | 34 splits into 3 and 4, the example the routine documents |
| Ports.WriteRow | atmega8a-clock.c:292-294 | defines the three port assignments of one scan step: row bits 8-9 to PORTB 0-1, bits 0-3 to PORTC 0-3, bits 4-7 to PORTD 4-7 |
| Ports.WriteRowShows | atmega8a-clock.c:292-294 | after one row is written, the LED pins show the row's ten low bits, and a row below 1024 exactly |
| Ports.WriteRowKeepsOtherPins | atmega8a-clock.c:292-294 | writing a row leaves PORTB bits 2-7, PORTC bits 4-7 and PORTD bits 0-3 unchanged |
| Ports.ShownRowInjective | atmega8a-clock.c:292-294 | two frame rows that light the same pins are the same row |
| FrameLayout.DigitRow | atmega8a-clock.c:138-139 | defines segment k of both digits of a band: the tens glyph shifted by 7 ORed with the units glyph shifted by 3 |
| FrameLayout.ColonRow | atmega8a-clock.c:140-142 | defines the colon segment: the colon glyph on even seconds, nothing on odd ones |
| FrameLayout.BandPart | atmega8a-clock.c:136-162 | defines what the three digit loops put in row i: hour digits and colon in rows 0-2, minute digits and colon in 4-6, second digits in 8-10, nothing elsewhere |
| FrameLayout.LowBits | atmega8a-clock.c:165-167 | defines the bar after n passes of the bar loop: bits 0 .. n−1 |
| FrameLayout.BarPart | atmega8a-clock.c:164-167 | defines the idle bar: sleepcounter % 10 + 1 low bits in row 11, nothing elsewhere |
| FrameLayout.ColumnPart | atmega8a-clock.c:169-173 | defines the idle column: bit 1 in rows 8 .. 8 + sleepcounter / 10 − 1 |
| FrameLayout.MarkerPart | atmega8a-clock.c:175-180 | defines the set-mode marker: bit 0 of row 0 in set-hour mode, else of row 1 in set-minute mode |
| FrameLayout.Layer | atmega8a-clock.c:131-181 | defines everything `prepareFrame` ORs into row i: bands, bar, column and marker |
| FrameLayout.Frame | atmega8a-clock.c:308-315 | defines the twelve rows `refreshFrame` leaves: the buffer reset to dark, then each row ORed with the layer of the counters' digit pairs; it ensures twelve rows |
| FrameLayout.BandLow | atmega8a-clock.c:140-180 | defines bits 0-2 of a band row as colon, idle column and marker, and ensures they fit in three bits |
| FrameLayout.DigitsValid | atmega8a-clock.c:308-311 | the digit pair handed over for a counter below 110 indexes the glyph table |
| FrameLayout.SaneStateRenderable | atmega8a-clock.c:131-181 | every valid time with fewer than 50 idle seconds is rendered with all table and row indices in range |
| FrameLayout.FrameShape | atmega8a-clock.c:131-181 | rows 3 and 7 are dark, every row fits the ten LED columns, and bit 6 is dark in rows 0-10 |
| FrameLayout.RowShape | atmega8a-clock.c:131-181 | one row of the frame fits ten bits, with bit 6 dark in rows 0-10 |
| FrameLayout.GapRowsDark | atmega8a-clock.c:131-181 | nothing the frame builder draws reaches rows 3 and 7 |
| FrameLayout.FrameDecodesDigits | atmega8a-clock.c:137-162 | in each band, bits 7-9 of segment row k are the tens glyph's segment k and bits 3-5 the units glyph's |
| FrameLayout.FrameLowBits | atmega8a-clock.c:137-180 | bits 0-2 of the hour band are the colon on even seconds plus the marker; of the minute band, the colon only; of the second band, the idle column only |
| FrameLayout.FrameMarkers | atmega8a-clock.c:175-180 | bit 0 of row 0 is lit exactly in set-hour mode, of row 1 exactly in set-minute mode, and of no other row 2-10 |
| FrameLayout.LowBitsTable | atmega8a-clock.c:165-167 | the bars of one to ten bits are 1, 3, 7, … 0x3FF |
| FrameLayout.LowBitsValue | atmega8a-clock.c:165-167 | the bar over n columns is the number 2^n − 1 |
| FrameLayout.FrameIdleBar | atmega8a-clock.c:164-173 | row 11 holds sleepcounter % 10 + 1 low bits, plus bit 1 once the idle column reaches row 11 at 40 |
| FrameLayout.FrameIdleBarValue | atmega8a-clock.c:164-173 | at every idle count but 40, row 11 reads 2^(sleepcounter % 10 + 1) − 1; from 41 on the column's bit 1 falls inside the bar |
| FrameLayout.LowBitsHasBit1 | atmega8a-clock.c:165-167 | a bar of two or more bits already has bit 1 lit |
| FrameLayout.FrameIdleColumn | atmega8a-clock.c:169-173 | bit 1 of row 8 + j is lit exactly when j < sleepcounter / 10 |
| FrameLayout.DecodeBandOfGlyphs | atmega8a-clock.c:137-162 | three rows carrying a two-digit number's glyphs read back as that number |
| FrameLayout.DecodeBandOfFrame | atmega8a-clock.c:137-162 | each band of the frame reads back as its counter |
| FrameLayout.DecodeTimeOfFrame | atmega8a-clock.c:308-315 | the frame shows the time it was built from, whatever the modes and the idle count |
| FrameLayout.NineDecodes | atmega8a-clock.c:29 | a units digit 9 in the second band, at any second ending in 9, lights 111, 111, 001 |
| Timekeeping.U32Add | atmega8a-clock.c:358-360 | defines the `uint32_t` add, wrapping at 2^32 |
| Timekeeping.FireTotal | atmega8a-clock.c:360 | defines the accumulator after one interrupt period is added |
| Timekeeping.FireGain | atmega8a-clock.c:361-364 | defines the seconds the loop releases: how many whole seconds the accumulator holds |
| Timekeeping.FireResidue | atmega8a-clock.c:361-364 | defines what the accumulator keeps after the loop |
| Timekeeping.FireAccounting | atmega8a-clock.c:358-364 | the 32-bit add never wraps; one fire releases one second, or two exactly when the residual is at least 999,960,000; the residual stays below a second; no nanosecond is lost |
| Timekeeping.Conservation | atmega8a-clock.c:358-364 | after any number of fires the residual is below a second, and residual plus released seconds equal the interrupt periods elapsed |
| Timekeeping.DriftCycle | atmega8a-clock.c:357-364 | 25,000 overflows from an empty accumulator release 25,001 seconds and leave it empty again |
| Timekeeping.Rollover | atmega8a-clock.c:366-378 | defines the carries as written: second to minute only on `sec == 60`, minute to hour on `min == 60`, hour to 0 on `hour == 24` |
| Timekeeping.FireCounters | atmega8a-clock.c:355-379 | defines the time-keeping block: seconds released by the accumulator, then the carries, the residual kept |
| Timekeeping.Timer2Fire | atmega8a-clock.c:352-384 | defines the timer-2 interrupt: the block outside set mode, then the idle count while the display is on and no set mode is active |
| Timekeeping.FireFrozenInSetMode | atmega8a-clock.c:355-383 | in either set mode an overflow changes nothing: time and idle count stand still |
| Timekeeping.FireIdleCount | atmega8a-clock.c:381-383 | the idle count grows by one exactly when the display is on and no set mode is active; the modes and the display flag never change |
| Timekeeping.FireCountersInv | atmega8a-clock.c:355-379 | the time-keeping block keeps the invariant and touches only the time and the accumulator |
| Timekeeping.FirePreservesInv | atmega8a-clock.c:352-384 | an overflow keeps hour < 24, minute < 60, at most one set mode and a residual below a second; outside set mode the accumulator gains exactly one interrupt period |
| Timekeeping.FireAdvancesTime | atmega8a-clock.c:355-379 | when the released seconds do not step past 60, an overflow keeps a valid time and adds those seconds to the time of day, modulo a day |
| Timekeeping.MidnightRollover | atmega8a-clock.c:366-378 | 23:59:59 plus one second is 00:00:00 |
| Timekeeping.SecondSkipsRollover | atmega8a-clock.c:360-369 | a two-second overflow at second 59 leaves 61 seconds and no minute carry |
| Timekeeping.StuckPastSixty | atmega8a-clock.c:360-369 | past 60 the seconds only grow, and minute and hour stand still |
| Timekeeping.RolloverCorrected | atmega8a-clock.c:366-378 | defines the intended carries: a second count at or past 60 loses 60 and carries into the minute |
| Timekeeping.FireCountersCorrected | atmega8a-clock.c:355-379 | defines the time-keeping block with the intended carries |
| Timekeeping.Timer2FireCorrected | atmega8a-clock.c:352-384 | defines the timer-2 interrupt with the intended carries |
| Timekeeping.CorrectedFireAdvancesTime | atmega8a-clock.c:355-383 | with the corrected carry, every overflow keeps a valid time and advances the time of day by the released seconds, frozen in set mode |
| Timekeeping.CorrectedFireAgrees | atmega8a-clock.c:366-378 | where the as-written test does not miss, the corrected overflow equals the as-written one |
| Timekeeping.CorrectedFiresKeepTime | atmega8a-clock.c:352-384 | over any number of corrected overflows the time stays valid, the residual follows the accumulator, and the time of day advances by all released seconds |
| Timekeeping.DriftCycleOnClock | atmega8a-clock.c:355-379 | 25,000 corrected overflows move the time of day forward by 25,001 seconds |
| Timekeeping.BumpHour | atmega8a-clock.c:331-337 | defines `incrementHour`: hour + 1, 24 becomes 0, seconds to 0 |
| Timekeeping.BumpMinute | atmega8a-clock.c:320-326 | defines `incrementMinute`: minute + 1, 60 becomes 0, seconds to 0 |
| Timekeeping.BumpHourWraps | atmega8a-clock.c:331-337 | the hour steps modulo 24 and the seconds restart; nothing else changes |
| Timekeeping.BumpMinuteWraps | atmega8a-clock.c:320-326 | the minute steps modulo 60 with no carry into the hour, and the seconds restart |
| Timekeeping.LeadingPresses | atmega8a-clock.c:256-257 | defines the number of leading samples the button reads pressed, and ensures it is at most the number of samples |
| Timekeeping.HoldLength | atmega8a-clock.c:256-258 | defines what the hold loop counts: the leading presses, capped at 126 by the `<= 125` test |
| Timekeeping.LeadingPressesMeaning | atmega8a-clock.c:256-258 | the counted samples all read pressed, and the next one, if any, reads released |
| Timekeeping.HoldLoopExit | atmega8a-clock.c:256-258 | wherever the hold loop stops (first release, end of input, or the cap), it has counted the hold length |
| Timekeeping.HoldLengthBounds | atmega8a-clock.c:256-260 | the hold count is at most 126 and reaches 125 exactly when the first 125 samples are all pressed |
| Timekeeping.ModeAfterHold | atmega8a-clock.c:260-267 | defines the three mode transitions on a hold of 125 or more |
| Timekeeping.MainStep | atmega8a-clock.c:254-283 | defines one main-loop iteration: mode switch, short-press bump with the idle count restarted, then the display off at idle count 30 |
| Timekeeping.Wake | atmega8a-clock.c:389-392 | defines the `INT0` interrupt: display on, idle count 0 |
| Timekeeping.ModeCycle | atmega8a-clock.c:260-267 | a long hold moves normal → set hour → set minute → normal, a shorter hold keeps the mode, and both modes are never on together |
| Timekeeping.ThreeLongHolds | atmega8a-clock.c:260-267 | three long holds from normal mode pass through set hour and set minute and return to normal |
| Timekeeping.ShortPressSetsHour | atmega8a-clock.c:269-271 | a hold of 2-29 samples in set-hour mode bumps the hour modulo 24, zeroes seconds and idle count, and changes nothing else |
| Timekeeping.ShortPressSetsMinute | atmega8a-clock.c:272-275 | a hold of 2-29 samples in set-minute mode bumps the minute modulo 60, zeroes seconds and idle count, and changes nothing else |
| Timekeeping.OtherHoldsOnlySleep | atmega8a-clock.c:254-283 | any other hold shorter than 125 changes at most the display flag, which goes off exactly at idle count 30 |
| Timekeeping.MainStepSleeps | atmega8a-clock.c:277-282 | an iteration turns the display off exactly when its final idle count is 30, and never turns it on |
| Timekeeping.SleepThenWake | atmega8a-clock.c:279-282 | at idle count 30 an iteration puts the display out, and the wake interrupt brings it back with a fresh idle count |
| Timekeeping.ShortPressExamples | atmega8a-clock.c:269-271 | setting the hour from 5 with a 15-sample hold gives 6; a 50-sample hold leaves 5 |
| Timekeeping.StepPreservesInv | atmega8a-clock.c:254-392 | a timer-2 overflow, a main-loop iteration and a wake each keep the invariant |
| Timekeeping.RunPreservesInv | atmega8a-clock.c:254-392 | every interleaving of the three contexts keeps the invariant |
| Timekeeping.RunCorrectedKeepsTime | atmega8a-clock.c:254-392 | with the corrected carry, every interleaving keeps a valid time of day |
| ClockDevice.MissedCarryOutrunsFrame | atmega8a-clock.c:360-369 | as written, the overflow from second 109 reaches second 110 or more, a state the frame builder cannot draw without reading past `charset` |
| ClockDevice.HoldLoop | atmega8a-clock.c:256-258 | the hold loop counts the leading pressed samples, capped at 126 |
| ClockDevice.Clock.constructor | atmega8a-clock.c:11-46 | the power-up state is 11:59:50 with the display on, no set mode, an empty accumulator and a dark buffer |
| ClockDevice.Clock.ResetDisplayBuffer | atmega8a-clock.c:186-190 | all twelve rows are dark |
| ClockDevice.Clock.DrawHourBand | atmega8a-clock.c:137-143 | rows 0-2 gain both digit segments and, on even seconds, the colon; the other rows are unchanged |
| ClockDevice.Clock.DrawMinuteBand | atmega8a-clock.c:146-153 | rows 4-6 gain both digit segments and, on even seconds, the colon; the other rows are unchanged |
| ClockDevice.Clock.DrawSecondBand | atmega8a-clock.c:155-162 | rows 8-10 gain both digit segments, never a colon; the other rows are unchanged |
| ClockDevice.Clock.DrawBands | atmega8a-clock.c:136-162 | every row gains its band part of the reference layout |
| ClockDevice.Clock.DrawIdleBar | atmega8a-clock.c:164-167 | row 11 gains sleepcounter % 10 + 1 low bits; the other rows are unchanged |
| ClockDevice.Clock.DrawIdleColumn | atmega8a-clock.c:169-173 | bit 1 is ORed into rows 8 .. 8 + sleepcounter / 10 − 1; the other rows are unchanged |
| ClockDevice.Clock.DrawMarker | atmega8a-clock.c:175-180 | bit 0 is ORed into row 0 in set-hour mode, else into row 1 in set-minute mode |
| ClockDevice.Clock.PrepareFrame | atmega8a-clock.c:131-181 | every row gains the bands, colon, idle bar, idle column and marker of the reference layout, ORed onto its old value |
| ClockDevice.Clock.RefreshFrame | atmega8a-clock.c:308-315 | the buffer becomes exactly the reference frame of the current counters and modes, whatever it held before |
| ClockDevice.Clock.Multiplex | atmega8a-clock.c:290-299 | rows 0-10 are written to the ports in turn, and the pins show each row's ten low bits |
| ClockDevice.Clock.Timer0Overflow | atmega8a-clock.c:342-347 | with the display on, the old rows are scanned out and the buffer becomes the frame of the current state; with it off, nothing happens, for any state |
| ClockDevice.Clock.IncrementMinute | atmega8a-clock.c:320-326 | the minute bumps as the reference bump says, and the seconds restart |
| ClockDevice.Clock.IncrementHour | atmega8a-clock.c:331-337 | the hour bumps as the reference bump says, and the seconds restart |
| ClockDevice.Clock.AdvanceTime | atmega8a-clock.c:355-379 | the time-keeping block gives the reference counters, and the nanosecond accounting holds across the fire |
| ClockDevice.Clock.Timer2Overflow | atmega8a-clock.c:352-384 | the new state is the reference overflow of the old one; the invariant and the accounting are kept |
| ClockDevice.Clock.PowersaveSleep | atmega8a-clock.c:226-232 | the display is switched off |
| ClockDevice.Clock.MainIteration | atmega8a-clock.c:254-283 | the new state is the reference iteration for the counted hold; the invariant is kept |
| ClockDevice.Clock.Int0Wake | atmega8a-clock.c:389-392 | the display comes back on and the idle count restarts; the invariant is kept |

## Left out

- Hardware set-up is not modelled: `setup`, `initregister`, the shift-register pulses (`clock`, `str`, `shiftline`, `resetIO`), and the end-of-scan `PB4` pulse in `multiplex` (lines 295-302). `Multiplex` returns the three port images after each row instead.
- The `TCNT2` reload (line 353) is a hardware register write and is not modelled.
- The halt inside `powersave_sleep`, and its `GICR` and sleep-mode register writes, are not modelled. `PowersaveSleep` only switches the display off. In the firmware the main loop resumes after any interrupt, the timer-2 overflow included, since timer 2 keeps running in power-save (lines 77 and 82); with the display off and the idle count at 30 the next iteration goes back to sleep, and only `INT0` turns the display on. The atomic steps of `Run` cover these resumptions.
- `powerdown_sleep` is not called by the firmware and is not modelled.
- The button is a finite sequence of pin samples, and samples past its end read released. The hold loop's timing is not modelled.
- Concurrency: every interrupt and every main-loop iteration is one atomic step. `Run` covers every interleaving of whole steps, but main-loop code interrupted half-way between two statements is not modelled.
- Integer widths: the firmware's 16-bit `int` counters are unbounded integers, and the 32-bit accumulator is modelled with its wrap-around. The invariant bounds hour and minute but not the seconds: after a missed carry (see Findings) the as-written overflow raises `sec` by one or two every second without bound, and the model matches the C only while `sec` stays below 32768, where the C's signed 16-bit `sec` overflows (undefined behaviour, a wrap in practice). The idle count stays small because the main loop sleeps at 30.
- The display rows are `bv16`, as the 16-bit `int` buffer is. The sign of the C `int` does not matter, because every row value stays below 1024.
- ClockDevice.Clock.DrawHourBand and DrawMinuteBand build each row in a local and store it once. They OR the colon unconditionally, and `ColonRow` is 0 on odd seconds. The result equals the C's guarded OR into the array.
- ClockDevice.Clock.AdvanceTime works on copies of the counters and stores them at its end. This is the same as the C's in-place updates, because the interrupt runs with interrupts disabled.
- ClockDevice.Clock.MainIteration: `btntimer` is a local. `main` zeroes it at the end of every iteration and it starts at 0, so every iteration begins with 0.
- ClockDevice.Clock.RefreshFrame requires `Renderable`: counters below 110 and fewer than 50 idle seconds; ClockDevice.Clock.Timer0Overflow requires it only while the display is on, since it does nothing otherwise. From 50 idle seconds on, the column loop of `prepareFrame` writes past the 12-row buffer, and the main loop sleeps at 30. From second 110 on, `getDigit` yields tens digit 11 and `prepareFrame` reads `charset[11]`, past the table (undefined behaviour in C). Hour and minute never get there, but the seconds do: about 50 seconds after the missed carry of the finding below, as `ClockDevice.MissedCarryOutrunsFrame` shows. The model does not say what the display shows then.
- Where the comments and the code differ, the model follows the code:
  - `multiplex` scans rows 0-10, so row 11 (the idle bar) is never sent to the LEDs;
  - the correction constant is 40 ppm, not the 20 ppm its comment gives;
  - the tens digit sits at bits 7-9, not 10-8 as the comment says.

## Findings

| source | as written | input that shows it | evidently intended | confidence | as-written member | corrected member |
|---|---|---|---|---|---|---|
| atmega8a-clock.c:366 | the second carry tests `sec == 60`, but one overflow can add two seconds | second 59 with the accumulator at 999,960,000 ns: the fire releases two seconds, so sec becomes 61, the test misses, and the seconds then count up while minute and hour stand still until the time is set by hand | carry whenever sec reaches 60 or more (`sec >= 60`, then subtract 60) | not executed | Timekeeping.SecondSkipsRollover | Timekeeping.CorrectedFireAdvancesTime |

`Timekeeping.StuckPastSixty` shows that in the model, with unbounded integers, the seconds never recover; in the firmware they grow until the 16-bit `sec` overflows at 32768 (see "## Left out"), and from second 110 on the frame builder already reads past `charset` (`ClockDevice.MissedCarryOutrunsFrame`). `Timekeeping.Timer2Fire` and `ClockDevice.Clock.Timer2Overflow` follow the code as written. `Timekeeping.Timer2FireCorrected` uses the corrected carry. The long-run results `CorrectedFiresKeepTime`, `DriftCycleOnClock` and `RunCorrectedKeepsTime` are proved about the corrected overflow. `CorrectedFireAgrees` shows that the two versions differ only on such fires.
