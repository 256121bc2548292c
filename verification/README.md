# Voice recorder core, modelled in Dafny

This is a browser voice-memo recorder. One page records from the microphone and lists the saved recordings. A second page plays a recording back with a live waveform. Most of the app is DOM and browser-API wiring. This project models the pure logic underneath:

- **Recorder** (`script.js`). The record, pause/resume and stop handlers form a state machine over the `isRecording` and `isPaused` flags, the timer fields `startTimestamp` and `elapsedBeforePause`, the 100 ms readout refresh and the `MediaRecorder`. Each handler is a pure transition on an immutable `RecorderState`. The clock is an explicit natural number of milliseconds standing in for `performance.now()`. The model also covers the `mm:ss.d` readout (`formatTime`), the record that `onstop` saves, the export file name and the newest-first list order.
- **RecordButton** (`script.js`). The record handler split at its `await`. It shows how a double click starts two recorders, and that re-checking `isRecording` after the `await` prevents it (see Findings).
- **Playback** (`playback.js`). The `mm:ss` clock on seconds, the five-second skips, the playback-rate cycle, the volume icon and the download name.
- **Waveform** (`playback.js`). `drawWave` maps each time-domain byte to a canvas point. It is guarded by the presence of the analyser. `stopDraw` cancels the pending frame.
- Support modules. `JsMath` holds JavaScript's number domain, truncation and the sign-of-dividend `%`; `Math.floor` is Dafny's `.Floor` on reals and `/` on integers. `Decimal` holds `String(n)`, `padStart` and a digit reader. `FileNames` holds `replace(/\s+/g, "_")`. `Library` holds the saved record and the sort. `Optional` holds an option type.

Times and canvas coordinates in the playback modules are exact rationals. Bytes are naturals below 256. The source's floating-point rounding is therefore not modelled; exact arithmetic stands in for it.

The model follows the code as written, including where a recorder might be expected to behave otherwise:

- Stop does not add the open interval to the banked time; it resets `elapsedBeforePause` to 0.
- `isPaused` is cleared only by the next start.
- The saved record has no duration field.
- The waveform's centre line is the byte value 128, not 0, because the analyser's bytes are offset by 128.

## Model

| member | source | states |
|---|---|---|
| Recorder.Elapsed | script.js:98 | The running elapsed time is the banked time at the moment the interval opens and at least the banked time afterwards |
| Recorder.ElapsedAdvances | script.js:96-99 | Between two refreshes the elapsed time advances by exactly the clock difference |
| Recorder.Initial | script.js:64-70 | The page starts not recording, with nothing banked, and satisfies the controller invariant `Valid` |
| Recorder.PressRecord | script.js:122-149 | Ignored while recording, and nothing changes when the microphone is refused; otherwise recording, not paused, timer and capture running, interval opened at `now`, banked time kept, chunks emptied; preserves `Valid` |
| Recorder.StartCapture | script.js:125-148 | The work after the permission: new capturing recorder, empty chunk list, `startTimestamp = now`, banked time untouched |
| Recorder.PressPause | script.js:151-164 | Ignored unless recording; otherwise flips `isPaused`. Pausing banks `now - startTimestamp`, keeps `startTimestamp`, and suspends the device and the refresh. Resuming sets `startTimestamp = now` and keeps the banked time. Preserves `Valid` |
| Recorder.PressStop | script.js:166-173 | Ignored unless recording; otherwise not recording, device inactive, refresh stopped, banked time reset to 0 without folding in the open interval, readout `00:00.0`, `isPaused` and `startTimestamp` unchanged; preserves `Valid` |
| Recorder.Tick | script.js:96-100 | A refresh shows `formatTime(elapsedBeforePause + now - startTimestamp)` while the interval is scheduled and changes nothing else |
| Recorder.DataAvailable | script.js:128 | Every delivered chunk is appended, whatever the state, and nothing else changes |
| Recorder.SavedRecord | script.js:129-137 | The saved record has the given id, name and creation time and an `audio/webm` blob; there is no duration field |
| Recorder.Join | script.js:130 | The blob's bytes start with the first chunk |
| Recorder.DataExtendsSavedAudio | script.js:128-130 | A chunk delivered before `onstop` is appended at the end of the saved audio, in delivery order |
| Recorder.StopRightAfterStart | script.js:122-173 | Stopping straight after starting leaves a valid stopped state; the final chunk `stop()` delivers before `onstop` is exactly the saved `audio/webm` audio, and with no chunk delivered the record is empty |
| Recorder.ExportName | script.js:241 | The export name has no whitespace, ends in `.webm`, and before the extension is the collapsed record name |
| Recorder.FormatTime | script.js:87-93 | The readout is at least `mm:ss.d` long and starts with `-` exactly when `ms` is negative |
| Recorder.NegativeReadout | script.js:87-93 | A negative time is shown field by field with truncating `%`: `formatTime(-999)` is `-1:-1.-10` |
| Recorder.ReadoutAtThreeSeconds | script.js:87-93 | `formatTime(3000)` is `00:03.0` |
| Recorder.ReadoutAt2499 | script.js:87-93 | `formatTime(2499)` is `00:02.4`: the tenths are truncated, not rounded |
| Recorder.FormatTimeRoundTrip | script.js:87-92 | For `ms >= 0` the readout parses back to minutes `ms/1000/60`, seconds `ms/1000 % 60 < 60` and tenths `ms % 1000 / 100 < 10`, with `min*60000 + sec*1000 + dec*100 <= ms < that + 100` |
| Recorder.FormatTimeShape | script.js:87-92 | For `ms >= 0` each field is `String(n).padStart(2, "0")` and the tenths are one digit |
| Recorder.TogglesAccumulate | script.js:102-113 | From a running recording, after pause/resume presses at `ts` the banked time grows by the active-interval sum, `isPaused` is the parity of the presses, and after an even number `startTimestamp` is the last press |
| Recorder.SessionBanksActiveTime | script.js:94-113 | Start at `t0`, then toggles at `ts`: the banked time equals the sum of completed active intervals, and while running the refresh shows that sum plus `now` minus the last resume |
| Recorder.TogglesValid | script.js:151-164 | Any sequence of pause/resume presses preserves `Valid` |
| Recorder.ActiveSumBounds | script.js:98-104 | With a monotone clock the active time is at least 0 and at most the wall time since the start |
| Recorder.ActiveSumShift | script.js:104-107 | Moving a whole session later by `d` leaves its active time unchanged |
| Recorder.PauseLengthIgnored | script.js:104-107 | Lengthening any pause (delaying a resume and everything after it) leaves the active time unchanged, so paused time never counts |
| Recorder.PauseFreezesReadout | script.js:102-105 | At the moment of pausing, the banked time equals the running elapsed time, and later refreshes change nothing |
| Recorder.ResumeContinues | script.js:106-113 | After resuming at `now`, elapsed time is the frozen value at `now` and grows from it afterwards |
| Recorder.StopIdempotent | script.js:166-170 | A second stop changes nothing |
| Recorder.PauseResumeScenario | script.js:94-119 | Start at 0, pause at 2 s, resume at 7 s: at 8 s the readout is `00:03.0`; stop then resets it to `00:00.0` with nothing banked |
| RecordButton.Click | script.js:122-124 | A click while recording returns at the guard; otherwise one more handler waits at the `await` |
| RecordButton.Deny | script.js:124 | A refused permission ends one waiting handler and changes nothing else |
| RecordButton.GrantAsWritten | script.js:94-148 | As written, a granted handler always starts a new recorder, even over a running one, and when a refresh is already scheduled `startTimer` overwrites its id, so one more refresh becomes unreachable |
| RecordButton.Grant | script.js:122-148 | Corrected handler: it re-checks `isRecording` after the `await` and gives up when a recording started meanwhile; when it does start, an already scheduled refresh becomes unreachable exactly as in the as-written handler; it keeps one live recorder per recording, no unreachable refresh and a valid controller |
| RecordButton.Stop | script.js:166-173 | Stop stops the current recorder, is `PressStop` on the controller, cannot reach an overwritten refresh, and keeps one live recorder per recording |
| RecordButton.Pause | script.js:151-164 | Pause/resume is `PressPause` on the controller and never starts or stops a recorder or an overwritten refresh |
| RecordButton.Refresh | script.js:96-100 | The current refresh is `Tick` on the controller, leaves recorders, waiting handlers and overwritten refreshes as they are, and keeps the page settled |
| RecordButton.LeakedRefresh | script.js:96-100 | An overwritten refresh still writes `formatTime` of the elapsed time from the shared timer fields, and nothing else changes |
| RecordButton.Start | script.js:64-70 | The page opens with no recorder, no pending handler, no unreachable refresh and a valid controller |
| RecordButton.Step | script.js:96-173 | Every event under the corrected handler, refreshes included, keeps the page settled |
| RecordButton.DoubleClickOrphansRecorder | script.js:94-149 | As written: two clicks, two grants, then stop leave a recorder capturing and a refresh scheduled while the page says it is not recording; at 2.5 s that refresh overwrites the reset readout with `00:02.4` |
| RecordButton.ButtonKeepsOneRecorder | script.js:96-173 | Under the corrected handler, any event sequence keeps exactly one live recorder per recording, no unreachable refresh and a valid controller |
| RecordButton.ImmediateGrantIsPressRecord | script.js:122-149 | A click answered at once gives exactly `PressRecord` |
| Library.Insert | script.js:179 | Inserting into a newest-first list keeps it newest first and adds exactly the one record |
| Library.SortNewestFirst | script.js:179 | The sorted list is a permutation of the stored records and `created` never increases along it |
| Library.SortIsStable | script.js:179 | Records created at the same instant keep their stored relative order, as the stable `Array.prototype.sort` does |
| Library.InsertKeepsTies | script.js:179 | Inserting places the record before every other record created at the same instant, and leaves ties among the rest in order |
| Library.PrependNewest | script.js:179 | A record at least as new as the head of a newest-first list can be put in front |
| FileNames.SpaceClass | script.js:241 | `\s` is the ASCII space and tab to carriage return, plus Unicode spaces such as no-break space, the line and paragraph separators, the byte-order mark and the ideographic space; `_` and `.` are not spaces |
| FileNames.SkipSpaces | script.js:241 | The greedy `\s+` match: it drops only whitespace and stops at a non-space |
| FileNames.Collapse | script.js:241 | `replace(/\s+/g, "_")` leaves no whitespace and never lengthens the name |
| FileNames.WebmName | playback.js:332 | The download name ends in `.webm`, has no whitespace, and before the extension is the collapsed name |
| FileNames.CollapseIsPerCharacter | script.js:241 | The regular-expression rule equals a per-character rule: keep non-spaces, write `_` for a space that opens a run, drop a space that continues one |
| FileNames.CollapseSuffix | script.js:241 | The same equality for every suffix that starts at a run boundary |
| FileNames.RunEmitsNothing | script.js:241 | The rest of a whitespace run after its first character contributes nothing |
| FileNames.CollapseKeepsSpaceFree | script.js:241 | A name without whitespace is unchanged |
| FileNames.CollapseIdempotent | script.js:241 | Collapsing twice equals collapsing once |
| Decimal.NatToString | script.js:89-90 | `String(n)`: digits only, no leading zero, one character exactly when `n < 10`, at most two exactly when `n < 100` |
| Decimal.IntToString | script.js:89-91 | `String(i)` starts with `-` exactly when `i` is negative, and is then followed by `String(-i)` |
| Decimal.PadStart | script.js:89-90 | `padStart` reaches the width, keeps the string as its suffix and fills only in front |
| Decimal.ParseNatToString | script.js:89-90 | Reading `String(n)` back gives `n` |
| Decimal.ParseLeadingZeros | script.js:89-90 | Zeros added in front do not change a digit string's value |
| Decimal.TwoDigitsRoundTrip | playback.js:72-73 | A padded field is at least two digits, exactly two below 100, and reads back as its value |
| Decimal.ParseTwoDigits | playback.js:73 | A two-digit field is worth ten times its first digit plus its second |
| JsMath.Trunc | playback.js:73 | Truncation rounds toward zero and is the floor for non-negative values |
| JsMath.RemReal | playback.js:73 | For a positive divisor `b`, `a % b` differs from `a` by a whole number of divisors and lies in `[0, b)` for non-negative `a` and in `(-b, 0]` for negative `a` |
| JsMath.RemInt | script.js:90-91 | The integer `%` is the remainder of the quotient truncated toward zero (`a == q*b + r`), equals the Euclidean remainder for a non-negative dividend and lies in `(-b, 0]` for a negative one |
| JsMath.Min | playback.js:259 | `Math.min` with a finite second argument: NaN exactly when the first is NaN, the smaller value when finite, the second when the first is `+Infinity` |
| Playback.FormatTime | playback.js:70-71 | A non-finite time shows `00:00` |
| Playback.ClockFields | playback.js:72-73 | Minutes are `floor(t/60)`, seconds are below 60, and `min*60 + sec <= t < min*60 + sec + 1` |
| Playback.FormatTimeRoundTrip | playback.js:70-75 | For finite `t >= 0` the clock reads back as exactly those fields |
| Playback.FormatTimeShape | playback.js:72-74 | Each field is `String(n).padStart(2, "0")` |
| Playback.ParseClockFields | playback.js:74 | A clock built from padded fields reads back as their values |
| Playback.SkipBack | playback.js:255 | The result is never negative, never more than 5 below `cur`, equals 0 or `cur - 5`, and never exceeds a non-negative `cur` |
| Playback.SkipForward | playback.js:259 | The `Math.min` value: with a finite duration at most the duration, at most `cur + 5`, and equal to one of them; with an infinite duration `cur + 5`; NaN exactly when the duration is NaN |
| Playback.ForwardPosition | playback.js:257-260 | The position after the forward button: the `Math.min` value when the duration is finite, `cur + 5` when it is infinite, and the old position when it is NaN, because assigning NaN to `currentTime` throws |
| Playback.SkipMonotone | playback.js:253-260 | Both skips are monotone in the current position |
| Playback.SkipRoundTrip | playback.js:253-260 | Away from both ends, forward then back (and back then forward) returns to the start position |
| Playback.IndexOf | playback.js:281 | `indexOf` is -1 exactly for an absent value; otherwise it is the first position holding it |
| Playback.NextSpeed | playback.js:280-282 | The next rate is always one of 1, 1.25, 1.5, 2, and an unlisted rate goes to 1 |
| Playback.SpeedCycle | playback.js:280-282 | The cycle is 1 → 1.25 → 1.5 → 2 → 1 |
| Playback.FourPressesReturn | playback.js:280-282 | Four presses from a listed rate return to it |
| Playback.PressesStayListed | playback.js:280-282 | After at least one press the rate is listed, whatever it started at |
| Playback.IconName | playback.js:272-274 | Every icon's text is a `volume_` name with a non-empty suffix |
| Playback.IconFor | playback.js:271-275 | `volume_off` exactly when `v == 0`, `volume_down` exactly when `v` is non-zero and below 0.5, `volume_up` exactly when `v >= 0.5` |
| Playback.IconMonotone | playback.js:271-275 | On the slider's range a louder setting never shows a quieter icon |
| Playback.IconNamesDistinct | playback.js:272-274 | The three icons show three different names |
| Playback.DownloadName | playback.js:332 | The download name has no whitespace, ends in `.webm`, and before the extension is the collapsed name |
| Playback.DownloadMatchesListExport | playback.js:332 | The playback page names a download the same way the list's export does |
| Waveform.TracePath | playback.js:118-128 | The loop that accumulates `x += w/n` produces the reference path: sample `i` at `(i*w/n, data[i]/128*h/2)`, a move first, lines after, then a line to `(w, h/2)` |
| Waveform.DrawWave | playback.js:107-139 | Without an analyser nothing is drawn and nothing is scheduled. With one, the frame is the reference path plus the centre line, and the new frame id is pending |
| Waveform.StopDraw | playback.js:142-145 | Afterwards no frame is pending. A pending truthy id is cancelled and nothing else is |
| Waveform.StopDrawIdempotent | playback.js:142-145 | Calling `stopDraw` twice equals calling it once; the second call cancels nothing |
| Waveform.SampleX | playback.js:119-126 | Sample `i` of `n` sits at `x = i*w/n`: the first at 0, every one within `[0, w)` |
| Waveform.SampleY | playback.js:122-123 | Every byte 0..255 maps to `0 <= y < h` |
| Waveform.SilenceOnCentre | playback.js:122-123 | Byte 128 maps to the centre line `h/2` |
| Waveform.SampleAcrossWidth | playback.js:119-126 | Consecutive sample points are spaced `w/n` apart |
| Waveform.PathShape | playback.js:118-128 | The path has one command per sample plus one. It opens with a move at `x = 0`, continues with lines, and ends at `(w, h/2)` |
| Waveform.FlatWindowDrawsCentreLine | playback.js:118-128 | A window of all-128 bytes draws every point on the centre line |
| Waveform.PathInsideCanvas | playback.js:118-128 | Every point of the path lies within the canvas height |

## Left out

- IndexedDB helpers (`openDB`, `saveRecording`, `getAllRecordings`, `getRecording`, `deleteRecording` in both files). They are promise wrappers over the browser store with no logic of their own.
- `getUserMedia`, `MediaRecorder`, `AudioContext` and analyser setup are foreign device APIs. The permission answer is a parameter (`micGranted`, `Granted`/`Denied`), the recorder's state is the `Device` field, and the analyser's bytes are the `data` argument.
- Timer and frame scheduling. `setInterval`, `requestAnimationFrame` and the asynchronous `onstop` save are events (`Tick`, `DrawWave`, `SavedRecord`) rather than a scheduler. In particular, the model does not cover an `onstop` that runs after a new start has emptied the chunk list.
- Record id and name generation (`Date.now`, `Math.random`, `toLocaleTimeString`). It is non-deterministic and locale-dependent, so `SavedRecord` takes them as parameters.
- Recorder.FormatTime: the clock counts whole milliseconds, while `performance.now()` is fractional. For `ms >= 0` every field depends only on `floor(ms)`, so the integer model gives the same readout; fractional negative times are not modelled.
- Decimal.NatToString: JavaScript switches to exponent notation at 1e21. The model always writes plain digits, which only differs once the minutes reach 1e21, that is beyond 6·10^22 seconds (about 1.9·10^15 years), on either page's clock.
- Playback.ForwardPosition: a finite assignment to `currentTime` starts a seek that the media element clamps to its seekable ranges; the model takes the assigned value as the new position, which only matters for a stream whose seekable range ends before `cur + 5`.
- Playback.IconFor: the slider value is a rational. `parseFloat` of a range input is never NaN, so the NaN case is not modelled.
- Library.SortNewestFirst: `created` is a number of milliseconds. An invalid `Date` (a NaN comparator result) is not modelled.
- The initial readout text comes from the page markup, which is not part of this model. `Initial` assumes `00:00.0`, the value stop writes.
- UI code is not modelled: button labels (`pause` / `play_arrow`), visibility classes, menus, modals, ripples, the splash screen and `innerHTML` templates. The same goes for the `playbackRate + 'x'` label and `updateTime`'s `cur / total` text.
- Canvas calls, `resizeCanvas` and the `Math.sin` placeholder bars are floating-point drawing, not modelled.
- service-worker.js is cache plumbing, not modelled.
- The microphone stream is never released after stop (no `track.stop()`). The model has no stream handle, so this is not represented.

## Findings

| source | as written | input that shows it | evidently intended | confidence | as-written member | corrected member |
|---|---|---|---|---|---|---|
| script.js:122-124 | `isRecording` is checked before `await getUserMedia(...)` and not after | click record twice before the permission prompt resolves, grant both, then press stop | a second click while a start is pending must not start a second recorder | medium, not executed | RecordButton.DoubleClickOrphansRecorder | RecordButton.ButtonKeepsOneRecorder |

In the as-written case, both suspended handlers resume. The second `new MediaRecorder` replaces the first without stopping it. The second `startTimer` also overwrites `timerInterval`, so the first refresh can no longer be cleared. Stop then stops only the second recorder and the second refresh. The first recorder keeps capturing, and the first refresh keeps firing: it reads the reset `elapsedBeforePause` and the second start time, so 2.5 s after the start it overwrites the `00:00.0` that stop wrote with `00:02.4`. The corrected handler (`RecordButton.Grant`) re-checks `isRecording` after the `await`. With that re-check, every event sequence keeps exactly one live recorder per recording. `Recorder.PressRecord` is the atomic form of the corrected handler (`RecordButton.ImmediateGrantIsPressRecord`).
