# MeadowClockGraphics in Dafny

A model of the analog clock application for a Meadow F7 board driving a
240 by 240 ST7789 display (`MeadowApp.cs`). The model covers three parts of
that application:

- **The hand tracker** (`UpdateClock` and the `previousHour`,
  `previousMinute` and `previousSecond` fields). The tracker never reads
  pixels back; it keeps the hour, minute and second it last drew
  (MeadowApp.cs:148-150, 224-226). It erases those hands
  by drawing the same lines again in the face colour (white). It then draws
  the new hour and minute hands in black and the second hand in red, shows
  the frame once, and remembers the new time.
- **The watch face** (`DrawWatchFace`): a clear, two frames, a white dial of
  radius 100, twelve numerals on a circle of radius 80, and one show.
- **The main loop's dispatch.** Each loop iteration asks whether the
  time-sync signal is set. While it is not, the loop runs the random shape
  animation. On the first set tick the loop draws the face. On every set
  tick it updates the hands.

The graphics library is modelled as the trace of commands the application
issues to it (`Canvas.Command`). No pixel is rasterised. Every property is
stated over that trace:

- which lines are drawn and in which colour;
- in what order;
- how often the frame is shown;
- which hand strokes remain once the trace is replayed at stroke level
  (`Canvas.Replay`). In that replay:
  - a black or red line adds its segment;
  - a white line removes one identical segment;
  - a clear removes all segments, and so does one run of the animation,
    which begins by clearing the screen (`MeadowApp.cs:258`) and draws no
    hand strokes.

Sine, cosine and the `(int)` truncations are left abstract. Every endpoint is
computed by an `Endpoint` function that the caller passes in. Its arguments
are kept exactly as the application writes them:
- the length;
- the value (hour, minute, second, or position index);
- the divisor of pi.

All proofs hold for every such function. Erasing works because both passes
call the same function on the same arguments, not because of any property of
floating-point arithmetic.

`Geometry` states exact-angle facts about those arguments. An argument
`value * pi / divisor` with divisor 6 or 30 points `value * 30 / divisor`
sixtieths of a turn clockwise from twelve. The hour tails sit a quarter turn
from the hour tip. The minute tails are written with divisor 6 while the
minute tip uses divisor 30. As a result, the minute tails sit a quarter turn
from the tip only on the quarter hours (`Geometry.MinuteTailsSquareOnlyOnQuarters`).
The hand is still drawn, and erased, consistently. The model keeps this as the
application writes it.

Modules, in dependency order:

- `Canvas`: colours, commands, the line filters `LinesIn`, `Erased` and
  `Drawn`, and the stroke replay.
- `Geometry`: endpoint arguments and exact directions.
- `HandTracker`: the tracker state, `UpdateClock`, and `Track` (a run over a
  sequence of sampled times).
- `WatchFace`: the reference layout `FaceTrace`, and the loop `DrawWatchFace`
  proved to produce it.
- `Dispatcher`: one loop iteration (`Tick`) and a run over any pattern of
  the signal (`Run`).

## Model

| member | source | states |
|---|---|---|
| `HandTracker.UpdateClock` | MeadowApp.cs:152-227 | After any call the remembered fields are exactly the hour, minute and second read. The hour is kept unreduced (0 to 23), and no field is left at the -1 sentinel. |
| `HandTracker.PreviousStrokes` | MeadowApp.cs:164-195 | The strokes to erase are the remembered hour's two strokes (only if an hour is remembered), then the minute's two, then the second's one stroke from the centre. Their number counts exactly the remembered hands, and from the initial state there are none. |
| `HandTracker.UpdateOrder` | MeadowApp.cs:162-222 | Every call issues all its white erase lines before any black or red hand line. It shows the frame exactly once, as its last command. |
| `HandTracker.UpdateStrokes` | MeadowApp.cs:164-220 | The erase lines are exactly the strokes of the remembered hands. The black lines are the two hour strokes, then the two minute strokes. The red line is the one second stroke. |
| `HandTracker.FirstUpdateErasesNothing` | MeadowApp.cs:148-150 | From the initial state (all fields -1), no line in the face colour is issued: the erase phase is skipped entirely. |
| `HandTracker.TrackingUpdateCounts` | MeadowApp.cs:164-222 | Once all fields are set, a call erases exactly five lines and draws four black lines and one red line. Its whole trace is eleven commands. |
| `HandTracker.NoGhosting` | MeadowApp.cs:166-220 | For consecutive calls, the second call's erase lines equal the first call's hand lines, segment for segment and in order. |
| `HandTracker.SecondHandFromCentre` | MeadowApp.cs:190-220 | Every red line starts at (119, 119). When a second hand was remembered, the last erase line also starts there. |
| `HandTracker.UpdateReplay` | MeadowApp.cs:162-222 | Replaying a call over the strokes the state remembers leaves exactly the five strokes of the new time. |
| `HandTracker.Track` | MeadowApp.cs:224-226 | After a run over a sequence of times, the tracker remembers the last time. After an empty run it keeps its initial state. |
| `HandTracker.TrackLeavesOnlyLastHands` | MeadowApp.cs:164-226 | Starting from a blank face, after any sequence of calls the only hand strokes left are the five strokes of the last time. |
| `Geometry.TwoStrokes` | MeadowApp.cs:198-205 | An hour or minute hand is two segments, in the order of its tails. Each starts at the point computed from its own tail's arguments, and both end at the same tip computed from the tip arguments. |
| `Geometry.HourTails` | MeadowApp.cs:168-172 | An hour hand has two 3-pixel tails, measured with divisor 6, that point half a turn apart. |
| `Geometry.MinuteTails` | MeadowApp.cs:181-185 | A minute hand has two 3-pixel tails, measured with divisor 6, that point half a turn apart. |
| `Geometry.HourHalfDay` | MeadowApp.cs:158 | An unreduced hour h + 12 points the same way as h. |
| `Geometry.HourTailsSquare` | MeadowApp.cs:198-205 | Both hour tails, at hour -/+ 3 over divisor 6, sit a quarter turn from the hour tip. |
| `Geometry.MinuteTailsSquareOnlyOnQuarters` | MeadowApp.cs:208-215 | Both minute tails, at minute -/+ 15 over divisor 6, sit a quarter turn from the minute tip (minute over divisor 30) if and only if the minute is a multiple of 15. |
| `WatchFace.DrawWatchFace` | MeadowApp.cs:121-146 | The loop over the sixty positions, with a label counter that starts at 12 and wraps to 1, issues exactly the reference face layout. |
| `WatchFace.FaceCommands` | MeadowApp.cs:123-131 | The face is the clear, the 239 by 239 frame at the origin, the 229 by 229 frame at (5, 5), the filled white dial of radius 100 at (119, 119), twelve numerals, and a final show. |
| `WatchFace.FaceLabels` | MeadowApp.cs:137-142 | Exactly twelve numerals are drawn, reading 12, 1, 2, ..., 11 in drawing order. |
| `WatchFace.FaceOffsets` | MeadowApp.cs:134-140 | The k-th numeral is black. It is placed at its anchor on radius 80 at position 5k of sixty, 5 pixels up, and 10 pixels left for labels above 9 (5 pixels otherwise). |
| `WatchFace.FaceLayout` | MeadowApp.cs:123-145 | The face starts with a clear and shows once, at the end. Its frames and dial are centred on the hands' pivot. It issues no line, so no hand stroke survives it. |
| `WatchFace.DecimalRoundTrip` | MeadowApp.cs:140 | The label text is the decimal rendering of the counter: it reads back as the same number and uses only digits. |
| `Dispatcher.Tick` | MeadowApp.cs:63-92 | An unset tick issues one run of the animation (which clears the screen itself) and changes nothing. A set tick records the time it read as the hands' new state and marks the face as drawn. |
| `Dispatcher.Run` | MeadowApp.cs:56-93 | After any pattern of the signal, the face is still pending exactly when no tick was set. Otherwise the hands' remembered state is the time read on the last set tick. |
| `Dispatcher.RunState` | MeadowApp.cs:56-92 | For any pattern of the signal, the face is still pending exactly when no tick was set. Otherwise the hands' remembered state is the one the tracker reaches over the set ticks' times, which is that of the last set tick. |
| `Dispatcher.RunCounts` | MeadowApp.cs:56-92 | For any pattern of the signal, the face (its clear and its dial) is drawn once if some tick was set and never otherwise. The animation, which clears the screen itself, runs once per unset tick. |
| `Dispatcher.TickCounts` | MeadowApp.cs:63-92 | A tick draws the face (its clear and its dial) only when it is set and the face is pending. It runs the animation, and with it the animation's own clear, only when it is unset. |
| `Dispatcher.RunPhases` | MeadowApp.cs:56-92 | Under a signal that is never reset, a run is animation ticks only. Then, from the first set tick, it is the face followed by the tracker's own trace. So the face precedes every hand update. |
| `Dispatcher.RunShowsOnlyCurrentHands` | MeadowApp.cs:56-92 | Under a signal that is never reset, once a tick was set the only hand strokes left are those of the last time read. Before that, an empty run leaves the strokes untouched, and any unset tick wipes them all, because the animation clears the screen. |
| `Canvas.ReplayLines` | MeadowApp.cs:170-173 | Replaying a block of lines in the face colour removes exactly its segments. In a hand colour it adds exactly its segments. |

## Left out

- Sine, cosine and the `(int)` casts of every endpoint (MeadowApp.cs:134-135, 166-219) are floating-point numerics. They are an `Endpoint` parameter. The model does not say which pixels a hand covers.
- Pixel-level overwriting is not modelled. The 70-pixel second hand can reach numeral boxes at radius 80, and erasing a hand in white can wipe pixels of numerals beneath it. The hands stay between 49 and 189 on both axes, well inside the frames at 0, 5, 234 and 239. The replay tracks hand strokes only.
- Construction of the display and its SPI bus, the rotation, and the internals of `GraphicsLibrary` (MeadowApp.cs:23-35) are hardware and library code. The font choice (MeadowApp.cs:130) is not modelled either.
- The Wi-Fi connection, its `WiFiConnected` callback, and the `ManualResetEvent` (MeadowApp.cs:39-52, 98) are I/O and concurrency. The signal is a per-tick boolean input. `Dispatcher.RunPhases` and `Dispatcher.RunShowsOnlyCurrentHands` assume it is never reset once set.
- `Thread.Sleep(1000)` and the clock read by `DateTime.Now` (MeadowApp.cs:59, 85) are inputs. A tick carries the time it read.
- Time-zone setup and every `Console.WriteLine` (MeadowApp.cs:61, 70-82, 86) have no effect on the display.
- `DrawTexts` (MeadowApp.cs:229-252) is a start-up demo. `DrawShapes` (MeadowApp.cs:254-304) is a random animation. The model keeps it as one `Shapes` command per unset tick that removes every stroke, as its opening `graphics.Clear(true)` (MeadowApp.cs:258) does. The circles, rectangles and lines it then draws in random colours are not hand strokes and are not replayed.
- `ScanForAccessPoints` (MeadowApp.cs:99-119) is commented out and never called.
- Surface faults are not modelled. The application catches no failure: an exception from `GraphicsLibrary` would end the loop. `UpdateClock` records the new time only after it has shown the frame (MeadowApp.cs:222-226).
- Every tick with all fields remembered issues five erase lines and five draw lines, one line per stroke, as the code does. The remembered hour is the unreduced 0 to 23, as read from `dt.Hour`.
