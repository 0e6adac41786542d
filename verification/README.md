# H2S_Logger core, modelled in Dafny

H2S_Logger is an M5Stack sketch (`src/main.cpp`). It reads a DFRobot H2S
sensor once per cycle and draws a 320-column scrolling strip chart of recent
readings. A button click starts or stops logging to `/log.csv` on the SD card.
This project models the sketch's deterministic logic and proves properties
of it:

- `Scaler` (`scaler.dfy`): `conv_value`, the scaling of a reading to a chart
  value. It truncates toward zero like C's float-to-`int16_t` conversion, clamps,
  then converts to `uint16_t`.
- `StripChart` (`stripchart.dfy`): the history ring `val[X]` seen as a
  chronological window, and the 320-column traversal with its second cursor
  `p` and grid rows.
- `LogSession` (`logsession.dfy`): the logging toggle as pure functions over
  `fLogging`, `t0` and the sequence of calls made on `logFile`. Also the
  `uint32_t` elapsed-time subtraction, the per-cycle data row and the status
  text of `ShowStatus`.
- `Sketch` (`sketch.dfy`): the globals as a class `H2SLogger` with the ring as
  an `array<int>`. Its methods mirror `loop()`: record the sample, traverse the
  columns, write the data row, and poll the button for up to 100 slices, leaving
  the loop early after the first handled click.

Points where the sketch's behaviour is easy to misread:

- `conv_value` clamps to the domain bounds `[min, max]` (0 and 100 in the only
  call), not to the chart's row range `[0, 240]`. The model keeps this clamp.
  `ConvH2S` proves that no chart value exceeds 100. `ConvH2SMidReading` shows
  that a reading of 50 scales to 120 and comes back as 100.
- The data row is written to `logFile` on every cycle, whether or not logging
  is on. A write while stopped goes to a closed `File`, which writes nothing.
  The model writes the row every cycle. `Persisted` gives the rows that actually reach the file,
  treating a write to a closed `File` as a no-op. `WriteRowPersists` then
  proves that a row reaches the file exactly when logging is on.
- The result of `SD.open` is not checked. The session becomes "Logging" even
  if the open fails. The model assumes the open succeeds.

## Model

| member | source | states |
|---|---|---|
| Scaler.TruncToInt | src/main.cpp:81 | the float-to-`int16_t` conversion drops the fraction toward zero: the result is within 1 of the value, on the same side of zero |
| Scaler.ToUint16 | src/main.cpp:84 | returning the `int16_t` as `uint16_t` is reduction modulo 65536; values already in range are unchanged |
| Scaler.ConvValue | src/main.cpp:80-85 | the result is always a `uint16_t`; for integer bounds 0 <= min < max it lies in [min, max]: truncated scaled values at or below min give min, at or above max give max, and in between are returned unchanged; with reversed bounds 0 <= max < min the result is min exactly when the scaled value is below min, and max otherwise |
| Scaler.Scaled | src/main.cpp:81 | the pre-clamp value (value - min) / (max - min) * 240, truncated toward zero: within 1 of the exact value and on the same side of zero |
| Scaler.ConvH2S | src/main.cpp:100 | the call with domain [0, MAX_conH2S] always yields a value in [0, 100], so it never reaches the upper rows of the 240-row chart |
| Scaler.TruncMonotone | src/main.cpp:81 | truncation toward zero is monotonic |
| Scaler.ScaledMonotone | src/main.cpp:81 | a larger reading never gives a smaller truncated scaled value |
| Scaler.ConvValueMonotone | src/main.cpp:80-85 | `conv_value` is monotonic in the reading for non-negative domains |
| Scaler.ConvValueBelowDomain | src/main.cpp:82 | every reading at or below min gives the same result as min itself, namely min |
| Scaler.ConvH2SMidReading | src/main.cpp:80-85 | a reading of 50 scales to 120 but is clamped to 100 |
| Scaler.ConvH2SSaturates | src/main.cpp:83 | every reading of at least 100·100/240 returns 100 |
| StripChart.Window | src/main.cpp:75-77 | the chronological view of a ring of n slots always has exactly n entries |
| StripChart.WindowAt | src/main.cpp:100-101 | the newest min(n, number recorded) window entries are the most recent samples, newest last; older entries are the initial zeros |
| StripChart.WindowSnoc | src/main.cpp:100-101 | recording a sample drops the window's oldest entry and appends the new sample |
| StripChart.WindowScenario | src/main.cpp:100-101 | samples 10, 20, 30 in a zero-filled 5-slot ring give the window 0, 0, 10, 20, 30 |
| StripChart.SlotAt | src/main.cpp:103-117 | the slot read at a column is a valid index of the ring |
| StripChart.ColumnOf | src/main.cpp:103-117 | the column that shows a slot is a valid screen column |
| StripChart.TraversalIsBijection | src/main.cpp:102-118 | the 320 columns visit every slot exactly once: `SlotAt` and `ColumnOf` are inverse, so `SlotAt` is injective |
| StripChart.NewestInLastColumn | src/main.cpp:100-118 | once the cursor has advanced past slot w, the rightmost column 319 shows w, the sample just written |
| StripChart.AdvanceShiftsColumns | src/main.cpp:101-117 | advancing the cursor moves each column one slot on in the ring; no column but the last shows the slot just written |
| StripChart.ColumnSteps | src/main.cpp:106-111 | each column is first cleared; every column gets a grid pixel at row 120; rows 60 and 180 get one exactly when x % 4 == 0; no other rows are drawn |
| StripChart.Traverse | src/main.cpp:102-118 | the loop that advances `p` modulo 320 shows slot (px + x) % 320 at column x and draws the grid of `ColumnSteps` |
| LogSession.IsOpen | src/main.cpp:129-142 | whether `logFile` is open is decided by the last open or close call |
| LogSession.Persisted | src/main.cpp:124 | the rows that reach the file are the ones written while it is open |
| LogSession.Elapsed | src/main.cpp:123 | `millis() - t0` wraps modulo 2^32: the result is a `uint32_t`, adding it to t0 modulo 2^32 gives now back, and it is the plain difference when now >= t0 |
| LogSession.Click | src/main.cpp:128-142 | a click flips the flag; from stopped it records t0 = now and appends an open of `/log.csv` and the header row `time[ms],H2S,temp`; from logging it appends a close and keeps t0 |
| LogSession.WriteRow | src/main.cpp:123-124 | each cycle appends exactly one data row holding the wrapped elapsed time and the readings, whatever the flag |
| LogSession.StatusText | src/main.cpp:33-44 | the status reads "Logging" exactly when logging, otherwise "Stopped" |
| LogSession.FirstClick | src/main.cpp:126-145 | the first slice with a click: no click before it, and a click at it unless no slice had one |
| LogSession.ClickTwiceRestoresFlag | src/main.cpp:129-142 | two clicks restore both the flag and whether the file is open |
| LogSession.ClickConsistent | src/main.cpp:129-142 | a click keeps the flag equal to "the file is open" |
| LogSession.WriteRowConsistent | src/main.cpp:124 | the data row keeps the flag equal to "the file is open" |
| LogSession.ClickPersists | src/main.cpp:132-138 | a click while stopped adds exactly the header row to the file; a click while logging adds nothing |
| LogSession.WriteRowPersists | src/main.cpp:123-124 | the row written each cycle reaches the file exactly when logging |
| LogSession.NothingPersistedWhileNeverOpened | src/main.cpp:27-31 | before any click, writes reach no file and the file is not open |
| LogSession.InitialInvariant | src/main.cpp:27-31 | the power-on state satisfies the session invariant |
| LogSession.ClickKeepsInvariant | src/main.cpp:128-142 | a click keeps the invariant: the flag matches the file, the header is in the file while logging, and the file starts with a header |
| LogSession.WriteRowKeepsInvariant | src/main.cpp:123-124 | the per-cycle data row keeps the same invariant |
| Sketch.H2SLogger.constructor | src/main.cpp:75-77 | power-on: a zeroed 320-slot ring and cursor 0 (lines 75-77); with the logging globals of lines 27-31, logging stopped, t0 = 0 and nothing written |
| Sketch.H2SLogger.Record | src/main.cpp:100-101 | stores the scaled sample at the old cursor, changes no other slot, sets px to (px + 1) % 320, and keeps the ring equal to the window of the history |
| Sketch.H2SLogger.Redraw | src/main.cpp:102-118 | column x shows window entry x in chronological order, and the last column shows the newest recorded sample |
| Sketch.H2SLogger.WriteDataRow | src/main.cpp:123-124 | the session becomes exactly `WriteRow` of the old one, and the session invariant is kept |
| Sketch.H2SLogger.PollPhase | src/main.cpp:126-145 | with no click it runs all 100 slices and changes nothing; otherwise it acts on the first click only, as `Click` with that slice's clock, and ends after that slice |
| Sketch.H2SLogger.Cycle | src/main.cpp:89-146 | one pass of `loop()`: the sample enters the ring; column x shows window entry x and column 319 shows the new sample; one data row is written; at most one click is acted on; the status shown matches the flag |

## Left out

- Sensor driver calls (`gas.begin`, `readGasConcentrationPPM`, `readTempC`, `changeAcquireMode`, `setTempCompensation`): foreign I2C code. Readings are inputs of `Cycle`.
- The retry loops of `setup()` for the sensor and the SD card: I/O polling with delays.
- All display calls (`drawFastVLine`, `drawPixel`, cursors, colours, text, scrolling) and the `printf` formatting of floats and of the data row. Columns are modelled as the slot they read plus their grid steps.
- The per-channel plot loop (`t` from 4 to 7): it reads `val[px][t]` and `color[t]` out of bounds and applies `isnan` to a `uint16_t`. That is undefined behaviour, so the plotted pixel is not modelled.
- `delay`, `millis` and `M5.update` debouncing. The clock reading and the click of each poll slice are inputs (`Slice`).
- Scaler.ConvValue: the float arithmetic is exact over the reals, so IEEE rounding is not modelled. A scaled value outside the `int16_t` range (undefined in C) is kept as an unbounded integer instead. The bounds are integers that fit `int16_t` and differ (the only call passes 0 and 100). Fractional float bounds, for which `v = min` truncates and the result can fall outside [min, max], are not modelled. Neither are NaN readings: converting NaN to `int16_t` is undefined, and the raw reading goes into the data row as is.
- The success or failure of `SD.open`: the source does not check it. The model assumes the open succeeds.
- The `%d` conversion of the `uint32_t` elapsed time: the row holds the unsigned value. How values of 2^31 ms or more would print is not modelled.
- The example header comment (lines 1-13 and 22) and the commented-out debug prints in `loop()` (lines 90-91).
