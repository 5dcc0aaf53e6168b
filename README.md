# rpi-gpio-mock-runner, modelled in Dafny

rpi-gpio-mock-runner runs Raspberry Pi GPIO programs against a mocked GPIO
library. It records every GPIO/PWM call as a time-stamped log entry and lets
users replay the run in a web front end or as text. This project models the
logic at the heart of that pipeline:

- **`GpioParser`** (`gpio_parser.dfy`): the front end's `parseGpioState`. It
  replays log entries up to a time and builds a per-pin map of the output
  value and the PWM frequency. The loop is a method proved against a pure
  fold (`Replay`). Lemmas say which entry decides each field and how a later
  query time extends an earlier one.
- **`Playback`** (`playback.dfy`): the `usePlayback` hook, modelled as a class
  `PlaybackClock`. Its fields are the cursor, the play flag, the speed and the
  previous animation-frame timestamp. Its methods are the animation frame,
  play/pause, stop, seek and speed change. All are proved to keep the cursor
  inside `[0, duration]`, provided frame timestamps never run backwards. Pure functions `Advance` and `Run` describe the
  cursor over any sequence of frames. The run-length fallback of the app
  (`FallbackDuration`) sits here too.
- **`PinMapping`** (`pin_mapping.dfy`): the pin-mapping panel. It covers:
  - the available-pin computation and the "every used pin has an owner"
    validity test;
  - auto-assignment on `addComponent`, for a one-pin part and for the
    four-digit display's standard wiring;
  - `removeComponent`, `updateComponentPin` and the pin options of a
    drop-down.
  Lemmas state when a configuration keeps every pin with at most one owner,
  and show that the display's auto-wiring does not keep it.
- **`ClockLog`** (`clock_log.dfy`): what the two text replayers share: the
  display's pin wiring, `draw_digit`, the active-digit test, and the
  last-write-wins pin map built from entries.
- **`GroupedReplay`** (`grouped_replay.dfy`): `format_clock_log_grouped.py`.
  Entries are merged into frames by `group_logs`, the frames' changes are
  carried over a running state, and each frame is rendered. `GroupLogs` is
  proved against a specification by groups (`Gather`). Those groups partition
  the log: each group stays within the threshold of its first entry, and
  neighbouring groups are more than the threshold apart.
- **`BatchReplay`** (`batch_replay.dfy`): `replay_clock_log.py`. The display is
  pictured whenever an entry's time moves more than 1 ms from the previous
  entry's. The loop is proved against `Emitted`, which says which state each
  shot shows; see "Findings".
- **`Devices`** (`devices.dfy`): the virtual devices behind the mock GPIO
  library. These are the default device (ignores everything, owns no pin) and
  the HC-SR04 ultrasonic sensor. The sensor remembers its last trigger and
  answers echo reads with a pulse whose width encodes the distance.
- **`Wrappers`** (`wrappers.dfy`): `Option`.

Log times and distances are `real`; pins and values are `int`.

## Model

| member | source | states |
|---|---|---|
| GpioParser.Apply | frontend/src/utils/gpioParser.ts:36-56 | one entry adds its pin to the map exactly when its action is recognised, leaves other pins alone, writes `value` for output/duty-cycle/start, 0 for stop, `frequency` for init/change-frequency, and creates missing pins at value 0 |
| GpioParser.ApplyEntry | frontend/src/utils/gpioParser.ts:36-56 | the in-place update of the loop body equals `Apply` |
| GpioParser.ParseGpioState | frontend/src/utils/gpioParser.ts:27-60 | the loop stops at the first entry later than the query time and returns the replay of exactly the entries before it |
| GpioParser.AppliedCount | frontend/src/utils/gpioParser.ts:33-34 | the number of entries processed: all of them at or before the query time, and the next one (if any) later |
| GpioParser.ReplayKeys | frontend/src/utils/gpioParser.ts:37-56 | a pin is in the result iff it was in the start state or some entry with a recognised action names it |
| GpioParser.ReplayValue | frontend/src/utils/gpioParser.ts:37-40 | a pin's value is the value written by its last value-writing entry (0 for a stop) |
| GpioParser.ReplayValueUnwritten | frontend/src/utils/gpioParser.ts:42-50 | a pin that only ever had its frequency set reads value 0 |
| GpioParser.ReplayFrequency | frontend/src/utils/gpioParser.ts:42-50 | a pin's frequency is the one of its last frequency-setting entry |
| GpioParser.ReplayFrequencyUnwritten | frontend/src/utils/gpioParser.ts:37-40 | a pin whose frequency was never set has none |
| GpioParser.ReplayAppend | frontend/src/utils/gpioParser.ts:33-57 | replaying two stretches of log in a row equals replaying their concatenation |
| GpioParser.ReplayKeepsKeys | frontend/src/utils/gpioParser.ts:38-54 | replay never removes a pin |
| GpioParser.LaterQueryExtends | frontend/src/utils/gpioParser.ts:33-34 | a later query applies a prefix at least as long, its state is the earlier state with the entries in between replayed on top, and on a sorted log those entries lie between the two times |
| GpioParser.StopsAtFirstLater | frontend/src/utils/gpioParser.ts:34 | entries after the first one later than the query are never looked at, even when they are earlier again |
| GpioParser.FirstLaterCount | frontend/src/utils/gpioParser.ts:34 | the count of applied entries is the index of the first entry later than the query |
| GpioParser.BeforeFirstEntryIsEmpty | frontend/src/utils/gpioParser.ts:28-34 | before the first entry's time the state is empty |
| Playback.Clamp | frontend/src/hooks/usePlayback.ts:69 | `max(0, min(t, duration))` lies in `[0, duration]`, is `t` inside the range, 0 below it and `duration` above it |
| Playback.Advance | frontend/src/hooks/usePlayback.ts:18-24 | one frame keeps playing iff the new cursor is short of the end, moves the cursor by exactly the distance while playing, and stops it at the end otherwise |
| Playback.TotalNonNegative | frontend/src/hooks/usePlayback.ts:17-19 | frames of non-negative length add up to a non-negative distance |
| Playback.RunReachesEnd | frontend/src/hooks/usePlayback.ts:15-31 | a run of frames keeps playing iff the start plus the total distance is short of the end, and then lands exactly there; otherwise it stops at the end |
| Playback.RunSnoc | frontend/src/hooks/usePlayback.ts:15-31 | a frame after a run takes the step `Animate` takes (an `Advance` from where the run left the cursor) while the run still plays, and changes nothing once it has ended |
| Playback.ScaledTotal | frontend/src/hooks/usePlayback.ts:19 | the total distance at a fixed speed is the total elapsed time times the speed |
| Playback.FallbackDuration | frontend/src/App.tsx:65-66 | the fallback run length is at least 5 s and at least half a second past every entry, and it is either 5 s or half a second past some entry |
| Playback.LatestTime | frontend/src/App.tsx:65 | the reduce with start value 0 is non-negative, bounds every entry's time, and is 0 or one of those times |
| Playback.PlaybackClock.constructor | frontend/src/hooks/usePlayback.ts:9-11 | a new hook starts at cursor 0, paused, at speed 1 |
| Playback.PlaybackClock.Tick | frontend/src/hooks/usePlayback.ts:18-25 | the state update follows `Advance` with elapsed time times speed; the cursor never moves back nor past the end |
| Playback.PlaybackClock.Animate | frontend/src/hooks/usePlayback.ts:15-48 | a frame converts milliseconds to seconds, advances the cursor, records its timestamp while still playing, drops the timer once playback ended, and keeps the invariant |
| Playback.PlaybackClock.TogglePlay | frontend/src/hooks/usePlayback.ts:56-61 | play/pause flips the flag, rewinds a cursor at or past the end to 0, starts or drops the frame timer, and keeps the invariant |
| Playback.PlaybackClock.Stop | frontend/src/hooks/usePlayback.ts:63-66 | stop pauses, rewinds to 0 and drops the frame timer |
| Playback.PlaybackClock.Seek | frontend/src/hooks/usePlayback.ts:68-70 | seek sets the cursor to the clamped time |
| Playback.PlaybackClock.SetPlaybackSpeed | frontend/src/hooks/usePlayback.ts:33-48 | the speed changes, the cursor and the play flag do not, and a running animation restarts its frame timer when the speed really changed |
| PinMapping.Assigned | frontend/src/components/PinMapping.tsx:21-22 | the assigned set holds exactly the pins some component's slot holds |
| PinMapping.Unclaimed | frontend/src/components/PinMapping.tsx:23 | the filter keeps exactly the used pins nobody holds and never lengthens the list |
| PinMapping.UnclaimedAppend | frontend/src/components/PinMapping.tsx:23 | the filter works on each part of the list separately, so the kept pins stay in the order of the used pins |
| PinMapping.UnclaimedSnoc | frontend/src/components/PinMapping.tsx:23 | one more used pin is added at the end of the result, unless somebody holds it |
| PinMapping.UnclaimedOne | frontend/src/components/PinMapping.tsx:23 | a single used pin is kept iff nobody holds it |
| PinMapping.UnclaimedFirst | frontend/src/components/PinMapping.tsx:23-62 | the first available pin, which a one-pin part receives, is the first used pin nobody holds |
| PinMapping.CollectAssigned | frontend/src/components/PinMapping.tsx:21-22 | the nested `forEach` collects the assigned set |
| PinMapping.AvailablePins | frontend/src/components/PinMapping.tsx:19-24 | the available pins are the used pins that no component holds |
| PinMapping.IsConfigValid | frontend/src/components/PinMapping.tsx:92-98 | the configuration is valid iff every used pin is held by some component |
| PinMapping.ValidIffNothingAvailable | frontend/src/components/PinMapping.tsx:92-98 | the configuration is valid iff no pin is left available |
| PinMapping.ClaimSegments | frontend/src/components/PinMapping.tsx:48-50 | segment slot i gets the i-th standard segment pin, and nothing else is set |
| PinMapping.ClaimDigits | frontend/src/components/PinMapping.tsx:51-53 | digit slot i gets the i-th standard digit pin, and the segments stay |
| PinMapping.AutoAssign | frontend/src/components/PinMapping.tsx:33-64 | a display gets the twelve standard slots iff all twelve standard pins are in use (else none); an ultrasonic sensor gets none; a one-pin part gets the first available pin, if any |
| PinMapping.AddComponent | frontend/src/components/PinMapping.tsx:26-67 | the list grows by one component at the end with the given id and kind and the auto-assigned slots; the others are unchanged |
| PinMapping.Removed | frontend/src/components/PinMapping.tsx:69-71 | removal never lengthens the list |
| PinMapping.RemovedMembers | frontend/src/components/PinMapping.tsx:70 | exactly the components whose id differs survive |
| PinMapping.RemovedAppend | frontend/src/components/PinMapping.tsx:70 | removal filters each part of a list separately, so survivors keep their order |
| PinMapping.Updated | frontend/src/components/PinMapping.tsx:73-80 | every component with the id gets the slot set to the pin, its other slots and every other component stay, and ids and kinds are kept |
| PinMapping.PinOptions | frontend/src/components/PinMapping.tsx:82-90 | the options are the available pins in order, plus the current pin at the end when it is set, non-zero and not available |
| PinMapping.UpdatedElsewhere | frontend/src/components/PinMapping.tsx:74-78 | after an update, every other slot holds what it held before |
| PinMapping.UpdateFreePinKeepsExclusive | frontend/src/components/PinMapping.tsx:73-80 | giving a slot a pin nobody holds keeps every pin with at most one owner |
| PinMapping.UpdateOwnPinChangesNothing | frontend/src/components/PinMapping.tsx:73-80 | giving a slot the pin it already holds changes nothing |
| PinMapping.UpdateFromOptionsKeepsExclusive | frontend/src/components/PinMapping.tsx:73-90 | a pin chosen from the pins the drop-down of that slot lists keeps every pin with at most one owner |
| PinMapping.BlankOptionShares | frontend/src/components/PinMapping.tsx:145-150 | the drop-down's blank option assigns pin 0, so clearing two LEDs that own different pins leaves both on pin 0 |
| PinMapping.ClearKeepsExclusive | frontend/src/components/PinMapping.tsx:145-150 | clearing a slot as evidently meant keeps every component's place, id and kind, empties that slot, leaves every other slot's pin, holds no new pin, and keeps every pin with at most one owner |
| PinMapping.AddKeepsExclusive | frontend/src/components/PinMapping.tsx:57-66 | adding a one-pin part or a sensor with its auto-assigned slots keeps every pin with at most one owner |
| PinMapping.StandardPinsDistinct | frontend/src/components/PinMapping.tsx:38-40 | the twelve slots of the standard wiring hold twelve different pins |
| PinMapping.StandardListDistinct | frontend/src/components/PinMapping.tsx:38-40 | the twelve standard pins are pairwise different |
| PinMapping.DisplayWiringCanShare | frontend/src/components/PinMapping.tsx:43-53 | one auto-wired display owns its pins alone, yet a second display added to the same run is wired to the same twelve pins, so two components share them |
| ClockLog.DrawDigit | format_clock_log_grouped.py:11-16 | three rows of three characters, forming the drawing of an 8 with the unlit strokes blanked: each cell is its stroke or blank, the corners are blank, each of a..g reads back from its stroke position, and the decimal point is not drawn |
| ClockLog.StencilDetermines | format_clock_log_grouped.py:11-16 | two such drawings that show the same segments are the same drawing, so the contract of `DrawDigit` fixes every character |
| ClockLog.Rows | format_clock_log_grouped.py:29 | an eleven-character picture splits into a 3x3 grid |
| ClockLog.JoinGrid | format_clock_log_grouped.py:29 | joining three rows with newlines gives eleven characters with newlines at 3 and 7, which split back into the same rows |
| ClockLog.Picture | format_clock_log_grouped.py:26-29 | the joined picture has eleven characters with newlines at 3 and 7; its rows are the drawing of an 8 with the unlit strokes blanked, and show exactly the segments flagged lit |
| ClockLog.ActiveDigits | format_clock_log_grouped.py:21 | a pin is listed iff it is a digit select reading 0 (missing reads 1); the list is empty iff no digit select reads 0 |
| ClockLog.PinValuesLastWrite | replay_clock_log.py:50 | the pin map's keys are the pins the entries name, each with the value of its last entry |
| ClockLog.PinValuesAppend | format_clock_log_grouped.py:79-80 | entries of a later stretch override those of an earlier one |
| GroupedReplay.RenderDisplay | format_clock_log_grouped.py:19-29 | nothing is rendered iff no digit select reads 0 |
| GroupedReplay.RenderedSegments | format_clock_log_grouped.py:26-29 | segment k is drawn iff its pin reads 0, with a missing pin reading 0 |
| GroupedReplay.Gather | format_clock_log_grouped.py:40-56 | there are no more groups than entries, groups exist iff entries do, and no group is empty |
| GroupedReplay.FramesOfChanges | format_clock_log_grouped.py:52-60 | the changes of a frame name exactly the pins of its group, each with the value of its last entry in the group |
| GroupedReplay.GrowFlatten | format_clock_log_grouped.py:50-56 | handing an entry to the grouping appends it to the flattened groups |
| GroupedReplay.GrowWithin | format_clock_log_grouped.py:50-56 | the step keeps every group within the threshold of its first entry |
| GroupedReplay.GrowApart | format_clock_log_grouped.py:50-54 | the step keeps neighbouring groups' first entries more than the threshold apart |
| GroupedReplay.GatherFlatten | format_clock_log_grouped.py:40-56 | the groups hold the log's entries in order |
| GroupedReplay.GatherWithin | format_clock_log_grouped.py:50-56 | every entry lies within the threshold of its group's first entry |
| GroupedReplay.GatherApart | format_clock_log_grouped.py:50-54 | a new group starts only more than the threshold away from the previous group's start |
| GroupedReplay.GroupsPartition | format_clock_log_grouped.py:32-62 | the groups are consecutive non-empty pieces of the log, each within the threshold of its first entry, and each next piece starts beyond the threshold |
| GroupedReplay.FrameTimesClimb | format_clock_log_grouped.py:50-54 | on a time-ordered log, frame times climb by more than the threshold each |
| GroupedReplay.FlattenOrder | format_clock_log_grouped.py:69 | in a sorted log a group starts no later than the next group |
| GroupedReplay.FramesOfSnoc | format_clock_log_grouped.py:52-60 | closing a group appends its frame |
| GroupedReplay.TakeTracks | format_clock_log_grouped.py:40-56 | one pass of the loop body moves the open frame and the closed frames along with the grouping |
| GroupedReplay.CloseTracks | format_clock_log_grouped.py:58-60 | the open frame is non-empty iff there was an entry, and appending it completes the frames of all groups |
| GroupedReplay.TakeEntry | format_clock_log_grouped.py:41-56 | the loop body's in-place update equals the pure step `Take` |
| GroupedReplay.GroupLogs | format_clock_log_grouped.py:32-62 | `group_logs` returns one frame per group of the partition, with its first time and the last value of each pin in it |
| GroupedReplay.CarriedIsLastWrite | format_clock_log_grouped.py:75-80 | the state a frame is rendered from is the last value of each pin over all entries up to the end of that frame |
| GroupedReplay.RenderFrames | format_clock_log_grouped.py:75-84 | the rendering loop carries each frame's changes into the running state and emits a shot for each frame whose state shows a digit |
| GroupedReplay.FormatClockLog | format_clock_log_grouped.py:64-84 | the formatter's output is the rendering of the frames merged at 10 ms |
| BatchReplay.RenderDisplay | replay_clock_log.py:16-32 | nothing is rendered iff no digit select reads 0 |
| BatchReplay.RenderedSegments | replay_clock_log.py:26-32 | segment k is drawn iff its pin is non-zero, with a missing pin reading 0 |
| BatchReplay.EmptyShowsNothing | replay_clock_log.py:20-22 | the empty state shows nothing |
| BatchReplay.EmittedStep | replay_clock_log.py:46-57 | an entry that changes the time by more than 1 ms adds the shot of the state after it, stamped with the previous time; any other entry adds nothing |
| BatchReplay.ScanAllMeaning | replay_clock_log.py:40-57 | after the loop, the map holds each pin's last value, the previous time is the last entry's, and the shots are those of the batch boundaries |
| BatchReplay.Feed | replay_clock_log.py:47-57 | one pass of the loop body equals the pure step |
| BatchReplay.ReplayEntries | replay_clock_log.py:40-57 | the loop equals the fold of the step over the log |
| BatchReplay.ReplayClockLog | replay_clock_log.py:34-62 | the output is the boundary shots, then the final state stamped with the last time |
| BatchReplay.ShotOfShowsState | replay_clock_log.py:54-56 | a shot of the state at its own stamp shows that state |
| BatchReplay.ShowsAppend | replay_clock_log.py:56 | shots that show their stamps' state can be concatenated |
| BatchReplay.StateAtBoundary | replay_clock_log.py:53-57 | in a sorted log, the state at the entry before a boundary holds exactly the entries before the boundary |
| BatchReplay.StateAtEnd | replay_clock_log.py:60-62 | in a sorted log, the state at the last time holds every entry |
| BatchReplay.FixedEmittedShowsState | replay_clock_log.py:50-57 | with the picture taken before the boundary entry is applied, every boundary shot shows the state at its stamp |
| BatchReplay.FixedShowsStateAtStamp | replay_clock_log.py:46-62 | the corrected replayer on a sorted log: every shot, the final one included, shows the state at its stamp |
| BatchReplay.BlinkIsMissed | replay_clock_log.py:50-57 | on a log where DIG1 is active at 0 s and released at 1 s, the display is lit at 0 s, yet the replayer as written emits no shot; the corrected one emits one at 0 s |
| Devices.VirtualDevice.HandleOutput | devices/base.py:5-12 | a GPIO write changes nothing |
| Devices.VirtualDevice.HandleInput | devices/base.py:14-21 | the default device answers no read |
| Devices.VirtualDevice.HandlePwm | devices/base.py:23-25 | a PWM change changes nothing |
| Devices.Echo | devices/hc_sr04.py:30-37 | the echo level is 0 or 1, and 1 exactly from the start delay until one pulse width after it |
| Devices.PulseGivesDistance | devices/hc_sr04.py:23-24 | the pulse width read back with distance = width x 34300 / 2 gives the distance |
| Devices.EchoLongerWhenFarther | devices/hc_sr04.py:24-37 | a farther object keeps the echo high whenever a nearer one does |
| Devices.HCSR04.constructor | devices/hc_sr04.py:5-9 | a new sensor has the given pins and distance (50 cm when none is given) and a last trigger time of 0 |
| Devices.HCSR04.HandleOutput | devices/hc_sr04.py:13-17 | writing 1 on the trigger pin records the time; any other write leaves it |
| Devices.HCSR04.HandleInput | devices/hc_sr04.py:19-43 | only reads of the echo pin are answered, always with 0 or 1, and with 1 exactly inside the echo window after the last trigger |
| Devices.HCSR04.HandlePwm | devices/base.py:23-25 | the sensor ignores PWM changes |

## Left out

- Reading and writing the JSON log files, printing, and formatting stamps as `[t=...s]` are not modelled. The replayers return shots (time and picture) instead of text lines.
- Sorting the log by time (`logs.sort`) is not modelled. The replayers take the log as given, and properties that need it require `GpioParser.Sorted`.
- Floating-point arithmetic is modelled as exact `real` arithmetic. This covers the 1 ms and 10 ms thresholds, the pulse width and the frame deltas.
- Log values are modelled as `int`. Fractional duty cycles and `None` values from the runner are not.
- `requestAnimationFrame`, `performance.now`, React state batching and effect scheduling are left out. The frame timestamp is a parameter, and the effect that starts and stops the animation is folded into the methods that change `isPlaying` and `playbackSpeed`.
- `onTimeUpdate` and the raw `setCurrentTime` the hook exports are left out. Neither changes the hook's own logic.
- The random component id of `addComponent` is a parameter.
- The JSX rendering of the panel, the board, the timeline and the other components is left out, as are the gRPC/HTTP servers, the mock runner's dispatch to devices, and the example programs.
- Devices.HCSR04.HandleInput: the `except` branch (answering 0 after printing the error) is not modelled, because the arithmetic in the `try` cannot raise on real numbers. The debug prints to stderr are left out.
- Devices.VirtualDevice: the sensor is a separate class rather than a subclass, because traits are not part of this model.
- Playback.PlaybackClock: `duration` is fixed for the life of a clock. In the hook it is a parameter that the app changes between runs, on a hook that lives across runs. The model therefore does not capture that the playback speed carries over into the next run (a fresh clock starts at speed 1), nor that the cursor is not clamped again when the duration changes. The app stops playback before each run, so the cursor is back at 0 by then.
- Playback.PlaybackClock.Animate: requires the frame timestamp to be no earlier than the previous one. The first frame's delta subtracts a `performance.now()` reading from an animation-frame timestamp, and nothing in the code orders these two clocks. A negative first delta, which the model excludes, would move the cursor below 0.
- PinMapping.UpdateFromOptionsKeepsExclusive: covers only the pins the drop-down lists. The blank first option writes pin 0, which can give two slots the same pin (`BlankOptionShares`; see "Findings").
- GroupedReplay.GroupLogs: requires a non-negative threshold. With a negative one, the first entry would open an empty frame, and that case is not modelled.
- GroupedReplay.RenderFrames: the running state starts as a plain map, not a `defaultdict(lambda: 1)`. `render_display` reads it only through `.get`, so the factory default never shows.
- PinMapping.Updated: a pin held by another slot should be refused until that slot lets it go, but the code of `updateComponentPin` checks nothing. The model follows the code and lets a slot take a pin another slot holds. `UpdateFromOptionsKeepsExclusive` gives the condition under which that cannot happen: the pin is picked from that slot's drop-down.
- PinMapping.AutoAssign: the display's auto-wiring tests the used pins, not the available ones, as the code does. It can therefore hand out pins another component already owns (`DisplayWiringCanShare`). That breaks the rule that every pin has exactly one owner. An ultrasonic sensor gets no slots at all; its two pins are chosen by hand.

## Findings

| source | as written | input that shows it | evidently intended | confidence | as-written member | corrected member |
|---|---|---|---|---|---|---|
| replay_clock_log.py:50-57 | the entry that opens a new batch is stored in the state before the closed batch is pictured, so each boundary shot is stamped with the old time but shows the new entry's effect | `DigitBlinkLog`: DIG1 (pin 11) set to 0 at 0 s, then to 1 at 1 s; the display is lit at 0 s, but the replayer emits no shot at all | picture the closed batch before applying the entry that opens the next one, so each shot shows the state at its stamp | not executed | BatchReplay.BlinkIsMissed | BatchReplay.FixedShowsStateAtStamp |
| frontend/src/components/PinMapping.tsx:145-150 | the blank "Select..." option has the value `""`, and `Number("")` is 0, so choosing it assigns GPIO 0 to the slot rather than emptying it; pin 0 then counts as assigned | two LEDs owning pins 17 and 27, both cleared: both hold pin 0, so one pin has two owners (and a used pin 0 would drop out of the available list) | choosing the blank option empties the slot, which frees its pin and takes no other | not executed | PinMapping.BlankOptionShares | PinMapping.ClearKeepsExclusive |
