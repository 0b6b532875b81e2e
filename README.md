# Soccer clock controller — a Dafny model

`Soccer-clock.py` is a desktop control panel for a football pitch. It runs
a match clock toward a configured duration. It mirrors time, status and
score to a second "scoreboard" window. Within the last minute it can start
a randomly chosen audio cue once. For the loaded cue it draws a waveform
envelope and a playback progress bar.

This project models the controller object `FussballTimer`: its match clock,
its scores, its scoreboard gate, its cue library and player flags, and its
waveform pipeline. The modules are:

- `MatchClock` (match_clock.dfy): the clock as a value `Clock(seconds, running, target, triggered)`.
  It holds the one-second step, START, STOP and RESET, and runs of many ticks.
  It also holds the desired-duration rule, the score rule and the clock colour.
- `TimeText` (time_text.dfy): the panel's `m:ss` and the scoreboard's `mm:ss` texts.
  A parser reads them back.
- `Display` (display.dfy): colours, the scoreboard frame, and the publication gate.
  The gate passes when the scoreboard is switched on, or when the caption
  contains "BEREIT" or "ENDE".
- `Waveform` (waveform.dfy): the decode and the stride, the amplitude rule per
  sample width, the block-maximum reduction, and the drawing scale.
- `Playback` (playback.dfy): the progress-bar percentage.
- `Controller` (controller.dfy): the whole controller as a value `State`.
  It has one function per event handler and the lemmas stating what each
  event promises.
- `SoccerClock` (fussball_timer.dfy): the class `FussballTimer` with the same
  fields, updated in place.
  - Each event handler is a method.
  - Each method is proved to leave exactly the state that the matching
    `Controller` function computes (`Snap() == C.OnTick(old(Snap()), …)`).
  - Every event handler requires the controller's invariant (`Valid()`) and keeps it.
    `StopJingle`, which `_tick` and `reset_timer` also call part-way through, keeps it whenever it held before.

Inputs that the handlers read from outside the object are parameters:

- the scoreboard check box (`scoreboardOn`);
- the auto-cue check box (`autoJingle`);
- the minutes field (`minutes`; `None` when reading it raises);
- the random choice (`pick`);
- the audio engine's answers (`playOk`, `busy`, `engineLength`);
- the wall clock: `now` at the event, and `pollNow` for the second reading taken by the poll that
  `_start_audio_playback` runs at once (lines 604 and 626);
- the WAV reader's outcome (`Option<WavFile>`).

Each call of `Tick` or `UpdateLoop` is one scheduled callback. Its result
says whether the source schedules the next one. The ghost field `log`
records three things: every frame handed to the scoreboard, every
automatic cue request, and every decode handed to the worker.

Where the code departs from what a match clock is usually expected to do, the
model follows the code:

- There are no halves, no mode switch and no generation tags on decode results.
- A RESET keeps the current target duration. Only START from second 0 re-reads it.
- The final tick publishes twice: the red running frame, then the orange "SPIEL ENDE" frame.
- The envelope can hold up to `2 * 400 - 1` values, not at most 400.
- The progress percentage is not clamped and passes 100 when the engine
  reports the cue still playing after its nominal duration.
- The final tick (lines 417-424) does not stop a cue that is still playing. Playback and the bar go on
  until the engine reports it idle, or until STOP (audio) or RESET.

Some quirks of the code are stated as lemmas:

- START counts the first second at once (`MatchClock.MatchRun`).
- Resuming after a pause keeps the panel's "PAUSE" caption (`Controller.StartFollowsClock`).
- A START after the end without a RESET counts one more second and stops again
  at `target + 1` (`MatchClock.RestartAfterEnd`).
- STOP does not cancel the pending tick, so STOP then START within a second leaves
  two tick chains (`MatchClock.StopStartKeepsStaleTick`). RESET calls STOP and cancels nothing
  either, so RESET then START within a second does the same.

## Model

| member | source | states |
|---|---|---|
| MatchClock.DesiredMatchSeconds | Soccer-clock.py:344-349 | the target is `max(1, minutes) * 60`, 45 minutes when the field cannot be read; always at least 60 and a multiple of 60 |
| MatchClock.Tick | Soccer-clock.py:392-426 | a stopped clock is unchanged; a running one gains exactly one second, keeps its target and is settled afterwards (running only below the target) |
| MatchClock.StoppedTicks | Soccer-clock.py:392-393 | any number of ticks on a stopped clock change nothing and request no cue |
| MatchClock.RunningTicks | Soccer-clock.py:392-426 | n ticks from a running clock below target reach `min(seconds + n, target)`, run on exactly while below target, and request a cue exactly once iff the last-minute threshold is reached, cueing is allowed and none was requested yet |
| MatchClock.MatchRun | Soccer-clock.py:354-426 | from 0, START plus k-1 further ticks counts `min(k, target)` seconds with the re-read target; the clock runs iff k < target; the cue fires once iff allowed and the threshold is reached |
| MatchClock.EndsOnTargetTick | Soccer-clock.py:417-424 | from 0 the clock still runs after target-1 ticks (START's included) and stops with seconds == target on the target-th |
| MatchClock.CueTick | Soccer-clock.py:404-410 | with cueing allowed the cue fires on exactly one tick, the one reaching `max(1, target - 60)` |
| MatchClock.RestartAfterEnd | Soccer-clock.py:354-364 | START after the end (no RESET) counts one more second and stops again at target + 1, target unchanged |
| MatchClock.StopStartKeepsStaleTick | Soccer-clock.py:354-370 | after STOP and START on a running clock, START schedules its own tick and the tick scheduled before STOP still counts a second and reschedules, so two chains run |
| MatchClock.ZeroScores | Soccer-clock.py:385 | RESET's scores are the two teams', both 0 |
| MatchClock.UpdatedScores | Soccer-clock.py:443-452 | the chosen team ("Home" is the home team, any other key the away team) gets `max(0, old + val)`; the other team is unchanged; scores stay non-negative |
| MatchClock.IncrementThenDecrement | Soccer-clock.py:443-452 | +1 then -1 on the same team restores the scores |
| MatchClock.DecrementAtZero | Soccer-clock.py:452 | -1 on a team at 0 changes nothing |
| MatchClock.TickColor | Soccer-clock.py:399-405 | the clock is red iff `seconds >= target - 60`, blue otherwise |
| MatchClock.TickPublicationsShape | Soccer-clock.py:415-423 | a running tick publishes once iff the scoreboard is on; the final tick ends with the orange "SPIEL ENDE" frame and publishes twice when the scoreboard is on |
| Display.Emit | Soccer-clock.py:429 | a frame is handed over (exactly once) iff the gate passes |
| Display.ReadyAndEndAlwaysPublished | Soccer-clock.py:429 | "SPIEL BEREIT" and "SPIEL ENDE" pass the gate whatever the check box |
| Display.OthersPublishedOnlyWhenEnabled | Soccer-clock.py:429 | running and pause captions pass iff the scoreboard is on |
| Display.GatedByScoreboard | Soccer-clock.py:429 | a caption with no "B" and no "D" passes iff the scoreboard is on |
| TimeText.DecimalShape | Soccer-clock.py:412 | the minutes are written in decimal with no leading zero, one digit iff below 10 |
| TimeText.DecimalRoundTrip | Soccer-clock.py:412 | the decimal digits read back to the number |
| TimeText.Pad2Shape | Soccer-clock.py:432 | `:02` gives at least two digits, exactly two below 100, reading back to the number |
| TimeText.ClockTextRoundTrip | Soccer-clock.py:412 | the panel's `m:ss` text parses back to the seconds |
| TimeText.BoardTextRoundTrip | Soccer-clock.py:432 | the scoreboard's `mm:ss` text parses back to the seconds |
| TimeText.ClockTextInjective | Soccer-clock.py:412 | different seconds give different panel texts and different scoreboard texts |
| TimeText.TimeTextShape | Soccer-clock.py:432 | the colon sits three characters from the end of both texts; the board text is exactly five characters below 100 minutes |
| TimeText.ZeroTexts | Soccer-clock.py:382 | second 0 reads "0:00" on the panel and "00:00" on the scoreboard |
| Playback.ProgressPercent | Soccer-clock.py:626-628 | the percentage is `elapsed / duration * 100`, with duration 1 when it is not positive |
| Playback.ProgressWithinTrack | Soccer-clock.py:626-628 | within the track the bar lies in [0, 100] and is 100 exactly at the end |
| Playback.ProgressOvershoots | Soccer-clock.py:626-628 | past the nominal duration the bar exceeds 100 (no clamping) |
| Playback.ProgressMonotone | Soccer-clock.py:626-628 | the bar never goes back as time passes |
| Waveform.MaxSpec | Soccer-clock.py:537 | `max` returns an element that no element exceeds |
| Waveform.Stride | Soccer-clock.py:492 | the stride is `max(1, frames // 3000)` |
| Waveform.EveryKthSpec | Soccer-clock.py:512 | `xs[::k]` keeps `ceil(n / k)` samples, the j-th being `xs[j * k]` |
| Waveform.Amplitude | Soccer-clock.py:496-518 | width 1: `abs(s - 128) / 128` (0 gives 1, 128 gives 0); width 2: `abs(s) / 32768`; width 4: `abs(s)`; in [0, 1] for in-range samples |
| Waveform.DecodeSpec | Soccer-clock.py:492-518 | kept samples sit at multiples of `channels * stride` (of `stride` for one channel), `ceil(total / step)` of them, each mapped by width |
| Waveform.BlocksPartition | Soccer-clock.py:533-537 | the blocks cover the input exactly once, in order, each of size b except a shorter last one, `ceil(n / b)` of them |
| Waveform.BlockMaxesAt | Soccer-clock.py:535-537 | output j is the maximum of block j, one output per block |
| Waveform.MaxesFromBlockMaxes | Soccer-clock.py:535-537 | walking the input by index from `i` gives the block maxima of the suffix from `i` |
| Waveform.ReduceStep | Soccer-clock.py:535-537 | one pass of the loop keeps "output so far + maxima still to come = all maxima" |
| Waveform.BlockMaxesKeepMax | Soccer-clock.py:537 | the maximum of the block maxima is the maximum of the input |
| Waveform.BlockMaxesFromInput | Soccer-clock.py:537 | every output value is an input value |
| Waveform.ReducedSpec | Soccer-clock.py:531-538 | `ceil(n / b)` outputs, at most `2 * count - 1`, at least `count` when n >= count, overall maximum kept, only input values |
| Waveform.ReducedIdentity | Soccer-clock.py:531-538 | fewer than `2 * count` samples come back unchanged (block size 1) |
| Waveform.BlockMaxesSingletons | Soccer-clock.py:533-537 | with block size 1 every sample is its own block |
| Waveform.ReducedCanExceedCount | Soccer-clock.py:531-538 | 799 samples reduce to 799 values, more than 400 |
| Waveform.ReduceSamples | Soccer-clock.py:531-538 | the loop's output is the specified reduction, empty for empty input |
| Waveform.CollectBlockMaxes | Soccer-clock.py:534-538 | the `for i in range(0, n, block)` loop appends exactly the block maxima |
| Waveform.Analyze | Soccer-clock.py:483-524 | every failure (unreadable file, zero rate, unsupported width, short data) gives `([], 0)`; the duration is never negative |
| Waveform.AnalyzeDuration | Soccer-clock.py:490 | a successful analysis reports `frames / rate` seconds |
| Waveform.AnalyzeSpec | Soccer-clock.py:523 | the envelope is the reduction of the decoded samples to 400 blocks, at most 799 long, keeping their maximum |
| Waveform.AnalyzeBounded | Soccer-clock.py:496-518 | with in-range samples every envelope value is in [0, 1] |
| Waveform.PerformWavAnalysis | Soccer-clock.py:483-524 | the step-by-step analysis returns exactly `Analyze` of the file |
| Waveform.ScaleFor | Soccer-clock.py:554-557 | the scale is the envelope's maximum when some value exceeds 0.001, otherwise 1.0; always positive |
| Waveform.ScaleNormalizes | Soccer-clock.py:554-557 | no envelope value divided by the scale exceeds 1 |
| Controller.Pick | Soccer-clock.py:408 | the randomly chosen file is in the library |
| Controller.InitialValid | Soccer-clock.py:119-167 | the opened controller satisfies the invariant and has published "00:00" |
| Controller.ShowSpec | Soccer-clock.py:428-440 | `_update_scoreboard_display` changes only the board and the log, appending the `mm:ss` frame iff the gate passes |
| Controller.ShowKeepsInv | Soccer-clock.py:428-440 | publishing keeps the invariant (board == last published frame) |
| Controller.CueStepSpec | Soccer-clock.py:404-410 | the cue fires iff the threshold is reached, it was not triggered, files exist and auto-cue is on; then it stops the player, logs one load and one cue request and sets the flag, nothing else |
| Controller.CueStepKeepsConsistent | Soccer-clock.py:404-410 | the cue step keeps "one cue request since the last RESET iff triggered" |
| Controller.RunStepSpec | Soccer-clock.py:392-415 | the running part of a tick: one second more, the flag set iff the cue fires, the `m:ss` text in the threshold colour, one running frame published iff the scoreboard is on, the rest unchanged |
| Controller.RunStepCue | Soccer-clock.py:404-410 | within a tick the cue request, the load and the stop of the player happen iff the cue fires |
| Controller.RunStepKeepsInv | Soccer-clock.py:392-415 | the running part of a tick keeps the invariant |
| Controller.AdvanceKeepsConsistent | Soccer-clock.py:394-410 | counting a second with the cue check keeps the consistency part of the invariant |
| Controller.ShowTimeKeepsInv | Soccer-clock.py:412-415 | showing the new time restores the panel text and keeps the invariant |
| Controller.EndStepSpec | Soccer-clock.py:417-424 | at the target the clock stops, the panel turns orange with "SPIEL ENDE" and the end frame is always published; below it nothing changes |
| Controller.TickFollowsClock | Soccer-clock.py:392-426 | a tick moves the clock exactly as `MatchClock.Tick` and leaves scores, library and waveform alone |
| Controller.TickPublishes | Soccer-clock.py:392-426 | a tick appends exactly the publications `TickPublications` describes; a stopped tick changes nothing |
| Controller.TickPanel | Soccer-clock.py:412-421 | after a running tick the panel shows the new `m:ss` in the threshold colour, or orange "SPIEL ENDE" when it ended |
| Controller.TickCue | Soccer-clock.py:404-410 | a tick logs one cue request at the new second, one load and a stopped player iff the cue fires, nothing otherwise |
| Controller.TickKeepsValid | Soccer-clock.py:392-426 | after any tick the invariant holds and a running clock is below its target |
| Controller.StartFollowsClock | Soccer-clock.py:354-364 | START moves the clock as `MatchClock.Start`, is a no-op while running, and sets the running caption only from second 0 |
| Controller.ArmKeepsInv | Soccer-clock.py:355-361 | arming keeps the invariant |
| Controller.StartKeepsValid | Soccer-clock.py:354-364 | START keeps the invariant |
| Controller.StopSpec | Soccer-clock.py:366-370 | STOP pauses only a running clock, never changes seconds or target, shows "PAUSE" and publishes "SPIEL PAUSE" iff the scoreboard is on |
| Controller.ResetSpec | Soccer-clock.py:376-389 | after RESET: stopped, second 0, flag cleared, target kept, scores 0:0, player stopped, panel "0:00" ready, the ready frame always published last |
| Controller.ScoreSpec | Soccer-clock.py:443-455 | a score change updates the scores as `UpdatedScores` and republishes with the panel's colour and caption |
| Controller.ToggleSpec | Soccer-clock.py:457-461 | the space bar stops a running clock and starts a stopped one |
| Controller.ScoreboardToggleSpec | Soccer-clock.py:224-229 | switching the scoreboard on republishes the panel's state; switching it off changes nothing |
| Controller.ChooseSpec | Soccer-clock.py:464-477 | an empty selection changes nothing; otherwise it becomes the library and its first file is decoded for display |
| Controller.PlaySpec | Soccer-clock.py:608-611 | PLAY with an empty library does nothing; otherwise a library file is loaded for playback after stopping the player |
| Controller.StopJingleSpec | Soccer-clock.py:613-618 | `stop_jingle` stops the player and zeroes the bar, keeps the start time, changes nothing else and keeps the invariant |
| Controller.PollSpec | Soccer-clock.py:620-629 | a poll does nothing when idle, stops the player when the engine is idle, and otherwise sets the bar to `elapsed / duration * 100` (divisor 1 when the duration is not positive, so `elapsed * 100`); only the player changes and the start time is kept |
| Controller.StartAudioSpec | Soccer-clock.py:599-606 | a refused file changes nothing; an accepted one records `now` as the start time, plays iff the engine is busy, and sets the bar to the percentage elapsed at the poll's own time reading (`pollNow - now`), or 0 when the engine is idle |
| Controller.FinishSpec | Soccer-clock.py:540-568 | the result becomes the current waveform; a zero duration becomes the engine's length in seconds when a path is given and the engine reports a positive length, and stays 0 otherwise; the scale bounds the envelope; the player is untouched unless playback is asked for and accepted, and then it starts at `now` and plays iff the engine is busy |
| Controller.InstallKeepsValid | Soccer-clock.py:540-557 | installing a decode result keeps the invariant |
| Controller.AnalyzeAndFinish | Soccer-clock.py:526-528 | the worker's result is installed as decoded, at most 799 values in [0, 1] for in-range samples |
| SoccerClock.FussballTimer.constructor | Soccer-clock.py:119-167 | the new object is the initial controller state and valid |
| SoccerClock.FussballTimer.UpdateScoreboardDisplay | Soccer-clock.py:428-440 | the gated `mm:ss` publication, as `Controller.OnShow` |
| SoccerClock.FussballTimer.StopJingle | Soccer-clock.py:613-618 | the player stops and the bar returns to 0, as `Controller.OnStopJingle`; valid afterwards when valid before |
| SoccerClock.FussballTimer.StartJingleLoadAndPlay | Soccer-clock.py:570-574 | a new cue stops the playing one, then is handed to the decoder |
| SoccerClock.FussballTimer.Tick | Soccer-clock.py:392-426 | `_tick` in place, as `Controller.OnTick`; it reschedules iff the clock still runs; valid afterwards |
| SoccerClock.FussballTimer.AdvanceSecond | Soccer-clock.py:394-415 | the running part of `_tick` in place, as `Controller.RunStep` |
| SoccerClock.FussballTimer.CountSecond | Soccer-clock.py:394-410 | one second on with the cue check, as `Controller.Advance`, returning the threshold colour |
| SoccerClock.FussballTimer.ShowSecond | Soccer-clock.py:412-415 | the new time on the panel and the running frame, as `Controller.ShowTime` |
| SoccerClock.FussballTimer.CueIfDue | Soccer-clock.py:404-410 | the one-shot automatic cue in place, as `Controller.CueStep` |
| SoccerClock.FussballTimer.EndIfReached | Soccer-clock.py:417-424 | the end check in place, as `Controller.EndStep`; it reports the end and stops the clock iff the target is reached |
| SoccerClock.FussballTimer.StartTimer | Soccer-clock.py:354-364 | `start_timer` in place, as `Controller.OnStart`; it schedules a tick iff it started a clock that still runs |
| SoccerClock.FussballTimer.Arm | Soccer-clock.py:355-361 | the part of `start_timer` before its tick, as `Controller.OnArm` |
| SoccerClock.FussballTimer.StopTimer | Soccer-clock.py:366-370 | `stop_timer` in place, as `Controller.OnStop`; valid afterwards |
| SoccerClock.FussballTimer.ResetTimer | Soccer-clock.py:376-389 | `reset_timer` in place, as `Controller.OnReset`; valid afterwards |
| SoccerClock.FussballTimer.ClearMatch | Soccer-clock.py:379-385 | second 0, flag cleared, the cue log marked, panel "0:00" ready, both scores 0 |
| SoccerClock.FussballTimer.UpdateScore | Soccer-clock.py:443-455 | `update_score` in place, as `Controller.OnScore`; valid afterwards |
| SoccerClock.FussballTimer.ToggleTimer | Soccer-clock.py:457-461 | `toggle_timer` in place, as `Controller.OnToggle`; it schedules a tick iff it started the clock and the clock still runs; valid afterwards |
| SoccerClock.FussballTimer.ToggleScoreboard | Soccer-clock.py:224-229 | `_toggle_scoreboard` in place, as `Controller.OnScoreboardToggle` |
| SoccerClock.FussballTimer.ChooseJingle | Soccer-clock.py:464-477 | `choose_jingle` in place, as `Controller.OnChoose` |
| SoccerClock.FussballTimer.PlayJingle | Soccer-clock.py:608-611 | `play_jingle` in place, as `Controller.OnPlay` |
| SoccerClock.FussballTimer.UpdateLoop | Soccer-clock.py:620-634 | `_update_loop` in place, as `Controller.OnPoll`; it polls again iff the cue plays and the engine is busy |
| SoccerClock.FussballTimer.StartAudioPlayback | Soccer-clock.py:599-606 | `_start_audio_playback` in place, as `Controller.OnStartAudio`; it schedules a poll iff the engine accepted the file and is busy |
| SoccerClock.FussballTimer.FinishLoading | Soccer-clock.py:540-568 | `_finish_loading` in place, as `Controller.OnFinish`; it schedules a poll iff playback was asked for, accepted, and the engine is busy |
| SoccerClock.FussballTimer.InstallWave | Soccer-clock.py:540-557 | the waveform attributes with the duration fallback and the scale, as `Controller.OnInstall` |
| SoccerClock.FussballTimer.SetWave | Soccer-clock.py:541-543 | the four waveform attributes take the given values |
| SoccerClock.FussballTimer.AnalyzeWavThread | Soccer-clock.py:526-528 | the worker's decode installed, as `Controller.OnFinish` of `Analyze`; it schedules a poll iff playback was asked for, accepted, and the engine is busy |

## Left out

- The tkinter widgets are left out: construction, layout, fonts, and the score labels' texts (`lbl.config(text=str(...))`, lines 386-387 and 453).
  Also left out are the file label text and the canvas texts ("Lade …", "Visualisierung nicht unterstützt").
  These are presentation only.
- The scoreboard window's `show`/`hide` calls are left out (lines 362-363, 371-373, 226 and 229). So is the pixel drawing in `ScoreboardDisplay.update`.
  They change what is visible, not the controller's state. The frame handed to `update` is modelled (`board` and the log).
- The pygame mixer (init, load, play, stop, get_busy, get_length) is foreign code.
  Its answers are parameters: `playOk` (load and play did not raise), `busy`, and `engineLength` (`None` when asking raises).
  A failed mixer init only shows a message. The error message boxes are not modelled.
  pygame documents `get_length` on `Sound` objects, not on the `mixer.music` module. So the call at line 548 most likely raises.
  The `except` swallows that, `engineLength` is then always `None`, and the zero-duration fallback never fires in practice.
  The parameter is kept so that both branches of lines 545-550 are stated.
- `threading.Thread` and `root.after` are left out.
  The decode is a direct call (`AnalyzeWavThread`), and each scheduled callback is one method call that returns whether the next one is scheduled.
  Interleavings of concurrent decodes (the last callback wins) are not modelled.
- `wave.open` and `struct.unpack` are left out.
  The reader's outcome is a `WavFile` value with the unpacked samples as reals.
  An unreadable file is `None`. Short data (where `unpack` raises) is a length mismatch.
- Float rounding, NaN and infinities are not modelled. Reals are exact, including the 32-bit float samples of width 4.
- `random.choice` is modelled as a caller-supplied index `pick` (taken modulo the library size). `time.time()` is the parameter `now`, and `pollNow` for the poll's own reading.
- `_draw_waveform`, `_on_resize`, the playhead line and the bar geometry are left out (lines 576-597 and 630-633). `ScaleNormalizes` states the bound the drawing relies on.
- The `else` branch of `choose_jingle` (lines 478-481) cannot run after the early return on an empty selection, so it is left out.
- The auto-cue check box, the scoreboard check box and the minutes field are read at each event, so they are parameters and not fields.
- The three ghost logs are kept in one ghost field `log` of type `Logs`. `Snap` maps it back to the fields of `Controller.State`.
- Controller.FinishSpec: states the scale's upper-bound property only when some value exceeds 0.001. The exact scale is stated by `Waveform.ScaleFor`.
- `_after_id` (line 426) is stored but never cancelled, and the pending callbacks are not modelled as state.
  Each scheduling result (`rescheduled`, `again`) says only whether one more callback is queued.
  So the model does not show the doubled ticking after STOP then START within a second.
  `MatchClock.StopStartKeepsStaleTick` states the step that causes it.
