/**
 * The controller object itself: the fields `FussballTimer` updates in
 * place and one method per event handler. Every method is proved to leave
 * the object in exactly the state the matching event function of
 * `Controller` computes from the state before it, and to keep the
 * controller's invariant; what the events promise is proved there.
 *
 * Inputs the handlers read from outside are parameters: the scoreboard
 * check box (`scoreboardOn`), the auto-cue check box (`autoJingle`), the
 * minutes field (`minutes`, `None` when it cannot be read), the random
 * choice (`pick`), the audio engine's answers (`playOk`, `busy`,
 * `engineLength`) and the wall clock (`now`).
 */
module SoccerClock {
  import opened Wrappers
  import opened TimeText
  import opened Display
  import MC = MatchClock
  import opened Waveform
  import C = Controller

  /**
   * The three logs of `Controller.State` kept as one ghost field: updates
   * handed to the scoreboard, automatic cue requests (and where the last
   * RESET left them), decodes handed to the worker.
   */
  datatype Logs = Logs(published: seq<Publication>, cues: seq<C.Cue>, cuesAtReset: nat, loads: seq<C.Load>)

  class FussballTimer {
    // the match clock
    var seconds: nat
    var running: bool
    var currentMatchDurationSeconds: nat
    var jingleTriggered: bool
    var scores: map<string, int>
    // the control panel's labels
    var timerText: string
    var timerColor: Color
    var halfText: string
    // what the scoreboard window shows
    var board: Frame
    // the cue library and the player
    var jinglePaths: seq<string>
    var jinglePlaying: bool
    var jingleStartTime: Option<real>
    var progress: real
    // the loaded waveform
    var waveReduced: Option<seq<real>>
    var waveDuration: real
    var maxAmpScale: real
    var currentJinglePath: Option<string>
    ghost var log: Logs

    /** The object's state as a `Controller.State` value. */
    ghost function Snap(): C.State
      reads this
    {
      C.State(MC.Clock(seconds, running, currentMatchDurationSeconds, jingleTriggered), scores, jinglePaths,
              C.Panel(timerText, timerColor, halfText), board,
              C.Player(jinglePlaying, jingleStartTime, progress),
              C.WaveView(waveReduced, waveDuration, maxAmpScale, currentJinglePath),
              log.published, log.cues, log.cuesAtReset, log.loads)
    }

    ghost predicate Inv()
      reads this
    {
      C.StateInv(Snap())
    }

    ghost predicate Valid()
      reads this
    {
      C.StateValid(Snap())
    }

    /** `__init__`: 45 minutes, 0:0, nothing loaded, the ready state handed to the scoreboard. */
    constructor()
      ensures Snap() == C.Initial() && Valid()
    {
      seconds := 0;
      running := false;
      currentMatchDurationSeconds := 45 * 60;
      jingleTriggered := false;
      scores := map[MC.HomeTeam := 0, MC.AwayTeam := 0];
      timerText := "0:00";
      timerColor := RskBlue;
      halfText := ReadyLabel;
      board := Frame("00:00", 0, 0, RskBlue);
      jinglePaths := [];
      jinglePlaying := false;
      jingleStartTime := None;
      progress := 0.0;
      waveReduced := None;
      waveDuration := 0.0;
      maxAmpScale := 1.0;
      currentJinglePath := None;
      log := Logs([], [], 0, []);
      new;
      ZeroTexts();
      ReadyAndEndAlwaysPublished(false);
      UpdateScoreboardDisplay(RskBlue, ReadyLabel, false);
      C.InitialValid();
    }

    /** `_update_scoreboard_display`: the `mm:ss` frame, handed over when the gate lets it through. */
    method UpdateScoreboardDisplay(timeColor: Color, caption: string, scoreboardOn: bool)
      requires MC.ScoresValid(scores)
      modifies this`board, this`log
      ensures Snap() == C.OnShow(old(Snap()), timeColor, caption, scoreboardOn)
    {
      if scoreboardOn || Contains(caption, "BEREIT") || Contains(caption, "ENDE") {
        var minutes := seconds / 60;
        var secondsPart := seconds % 60;
        var timeStr := Pad2(minutes) + ":" + Pad2(secondsPart);
        board := Frame(timeStr, scores[MC.HomeTeam], scores[MC.AwayTeam], timeColor);
        log := log.(published := log.published + [Publication(caption, board)]);
      }
    }

    /** `timer_label.config(text=..., fg=...)`: the panel's clock text and colour. */
    method ConfigTimerLabel(text: string, color: Color)
      modifies this`timerText, this`timerColor
      ensures timerText == text && timerColor == color
    {
      timerText := text;
      timerColor := color;
    }

    /** `timer_label.config(fg=...)`: the panel's clock colour. */
    method ConfigTimerColor(color: Color)
      modifies this`timerColor
      ensures timerColor == color
    {
      timerColor := color;
    }

    /** `half_label.config(text=...)`: the panel's status label. */
    method ConfigHalfLabel(text: string)
      modifies this`halfText
      ensures halfText == text
    {
      halfText := text;
    }

    /** `stop_jingle`: the player stops and the bar returns to 0. */
    method StopJingle()
      modifies this`jinglePlaying, this`progress
      ensures Snap() == C.OnStopJingle(old(Snap()))
      ensures old(Valid()) ==> Valid()
    {
      if Valid() {
        C.StopJingleSpec(Snap());
      }
      jinglePlaying := false;
      progress := 0.0;
    }

    /** `start_jingle_load_and_play`: stops the cue playing, then hands the file to the decoder for playback. */
    method StartJingleLoadAndPlay(path: string)
      modifies this`jinglePlaying, this`progress, this`log
      ensures Snap() == C.OnLoadAndPlay(old(Snap()), path)
    {
      StopJingle();
      log := log.(loads := log.loads + [C.Load(path, true)]);
    }

    /**
     * `_tick`: one scheduled second. `rescheduled` says whether the next
     * tick is scheduled, which happens exactly while the clock keeps running.
     */
    method Tick(scoreboardOn: bool, autoJingle: bool, pick: nat) returns (rescheduled: bool)
      requires Inv()
      modifies this`seconds, this`running, this`jingleTriggered, this`timerText, this`timerColor,
               this`halfText, this`board, this`log, this`jinglePlaying, this`progress
      ensures Snap() == C.OnTick(old(Snap()), scoreboardOn, autoJingle, pick)
      ensures rescheduled == running
      ensures Valid()
    {
      C.TickKeepsValid(Snap(), scoreboardOn, autoJingle, pick);
      rescheduled := false;
      if running {
        AdvanceSecond(scoreboardOn, autoJingle, pick);
        var ended := EndIfReached(scoreboardOn);
        rescheduled := !ended;
      }
    }

    /** The running part of `_tick`: one second on with the cue check, then the new time shown. */
    method AdvanceSecond(scoreboardOn: bool, autoJingle: bool, pick: nat)
      requires MC.ScoresValid(scores)
      modifies this`seconds, this`jingleTriggered, this`timerText, this`timerColor, this`board,
               this`log, this`jinglePlaying, this`progress
      ensures Snap() == C.RunStep(old(Snap()), scoreboardOn, autoJingle, pick)
    {
      var colorToUse := CountSecond(autoJingle, pick);
      ShowSecond(colorToUse, scoreboardOn);
    }

    /** One second on; from the last-minute threshold the clock turns red and the cue check runs. */
    method CountSecond(autoJingle: bool, pick: nat) returns (colorToUse: Color)
      modifies this`seconds, this`jingleTriggered, this`jinglePlaying, this`progress, this`log
      ensures Snap() == C.Advance(old(Snap()), autoJingle, pick)
      ensures colorToUse == MC.TickColor(seconds, currentMatchDurationSeconds)
    {
      seconds := seconds + 1;
      var lastMinuteThreshold := currentMatchDurationSeconds - 60;
      colorToUse := RskBlue;
      if seconds >= lastMinuteThreshold {
        colorToUse := AccentRed;
        CueIfDue(autoJingle, pick);
      }
    }

    /** The `m:ss` time on the panel in the colour chosen, and the running frame handed to the scoreboard. */
    method ShowSecond(colorToUse: Color, scoreboardOn: bool)
      requires MC.ScoresValid(scores)
      requires colorToUse == MC.TickColor(seconds, currentMatchDurationSeconds)
      modifies this`timerText, this`timerColor, this`board, this`log
      ensures Snap() == C.ShowTime(old(Snap()), scoreboardOn)
    {
      var minutes := seconds / 60;
      var secondsPart := seconds % 60;
      ConfigTimerLabel(Decimal(minutes) + ":" + Pad2(secondsPart), colorToUse);
      UpdateScoreboardDisplay(colorToUse, RunningLabel, scoreboardOn);
    }

    /** Inside the last minute: the automatic cue, once, when files are chosen and auto-cue is on. */
    method CueIfDue(autoJingle: bool, pick: nat)
      requires seconds >= currentMatchDurationSeconds - 60
      modifies this`jingleTriggered, this`jinglePlaying, this`progress, this`log
      ensures Snap() == C.CueStep(old(Snap()), autoJingle, pick)
    {
      if !jingleTriggered && |jinglePaths| > 0 && autoJingle {
        var pathToPlay := C.Pick(jinglePaths, pick);
        StartJingleLoadAndPlay(pathToPlay);
        jingleTriggered := true;
        log := log.(cues := log.cues + [C.Cue(seconds, pathToPlay)]);
      }
    }

    /** The end check of `_tick`: at the target the clock stops and the end state is shown and handed over. */
    method EndIfReached(scoreboardOn: bool) returns (ended: bool)
      requires MC.ScoresValid(scores)
      modifies this`running, this`timerColor, this`halfText, this`board, this`log
      ensures Snap() == C.EndStep(old(Snap()), scoreboardOn)
      ensures ended == (seconds >= currentMatchDurationSeconds)
      ensures running == (old(running) && !ended)
    {
      ended := seconds >= currentMatchDurationSeconds;
      if ended {
        ghost var s := Snap();
        running := false;
        var colorToUse := EndOrange;
        ConfigTimerColor(colorToUse);
        ConfigHalfLabel(EndLabel);
        assert Snap() == s.(clock := s.clock.(running := false),
                            panel := s.panel.(timerColor := EndOrange, halfText := EndLabel));
        UpdateScoreboardDisplay(colorToUse, EndLabel, scoreboardOn);
      }
    }

    /**
     * `start_timer`: ignored while running; from second 0 the target is
     * re-read, and the first second is counted at once.
     */
    method StartTimer(minutes: Option<int>, scoreboardOn: bool, autoJingle: bool, pick: nat)
      returns (rescheduled: bool)
      requires Valid()
      modifies this`seconds, this`running, this`jingleTriggered, this`timerText, this`timerColor,
               this`halfText, this`board, this`log, this`jinglePlaying, this`progress,
               this`currentMatchDurationSeconds
      ensures Snap() == C.OnStart(old(Snap()), minutes, scoreboardOn, autoJingle, pick)
      ensures rescheduled == (!old(running) && running)
      ensures Valid()
    {
      rescheduled := false;
      if !running {
        C.ArmKeepsInv(Snap(), minutes);
        Arm(minutes);
        rescheduled := Tick(scoreboardOn, autoJingle, pick);
      }
    }

    /** What `start_timer` does before its tick: from second 0 the target is re-read and the panel reset. */
    method Arm(minutes: Option<int>)
      modifies this`currentMatchDurationSeconds, this`halfText, this`timerColor, this`running
      ensures Snap() == C.OnArm(old(Snap()), minutes)
    {
      if seconds == 0 {
        currentMatchDurationSeconds := MC.DesiredMatchSeconds(minutes);
        halfText := RunningLabel;
        timerColor := RskBlue;
      }
      running := true;
    }

    /** `stop_timer`: pauses a running clock and hands the pause state to the scoreboard. */
    method StopTimer(scoreboardOn: bool)
      requires Valid()
      modifies this`running, this`halfText, this`board, this`log
      ensures Snap() == C.OnStop(old(Snap()), scoreboardOn)
      ensures Valid()
    {
      C.StopSpec(Snap(), scoreboardOn);
      if running {
        running := false;
        halfText := PanelPauseLabel;
        UpdateScoreboardDisplay(timerColor, PauseLabel, scoreboardOn);
      }
    }

    /** `reset_timer`: stops the cue and the clock, back to 0:00, scores 0:0, the cue re-armed. */
    method ResetTimer(scoreboardOn: bool)
      requires Valid()
      modifies this`running, this`halfText, this`board, this`log, this`jinglePlaying, this`progress,
               this`seconds, this`jingleTriggered, this`timerText, this`timerColor, this`scores
      ensures Snap() == C.OnReset(old(Snap()), scoreboardOn)
      ensures Valid()
    {
      ghost var s := Snap();
      StopJingle();
      StopTimer(scoreboardOn);
      ghost var s1 := Snap();
      assert s1 == C.OnStop(C.OnStopJingle(s), scoreboardOn);
      ClearMatch();
      assert Snap() == C.Cleared(s1);
      UpdateScoreboardDisplay(RskBlue, ReadyLabel, scoreboardOn);
      C.ResetSpec(s, scoreboardOn);
    }

    /** The middle of `reset_timer`: second 0, the cue re-armed, the panel at "0:00" and ready, both scores 0. */
    method ClearMatch()
      modifies this`seconds, this`jingleTriggered, this`log, this`timerText, this`timerColor,
               this`halfText, this`scores
      ensures seconds == 0 && !jingleTriggered && log == old(log).(cuesAtReset := |old(log).cues|)
      ensures timerText == "0:00" && timerColor == RskBlue && halfText == ReadyLabel
      ensures scores == MC.ZeroScores()
    {
      seconds := 0;
      jingleTriggered := false;
      log := log.(cuesAtReset := |log.cues|);
      ConfigTimerLabel("0:00", RskBlue);
      ConfigHalfLabel(ReadyLabel);
      scores := map[MC.HomeTeam := 0, MC.AwayTeam := 0];
    }

    /** `update_score`: "Home" names the home team, any other key the away team; never below 0. */
    method UpdateScore(teamKey: string, val: int, scoreboardOn: bool)
      requires Valid()
      modifies this`scores, this`board, this`log
      ensures Snap() == C.OnScore(old(Snap()), teamKey, val, scoreboardOn)
      ensures Valid()
    {
      ghost var s := Snap();
      var teamName;
      if teamKey == "Home" {
        teamName := MC.HomeTeam;
      } else {
        teamName := MC.AwayTeam;
      }
      var updated := scores[teamName] + val;
      scores := scores[teamName := if updated >= 0 then updated else 0];
      assert Snap() == s.(scores := MC.UpdatedScores(s.scores, teamKey, val));
      UpdateScoreboardDisplay(timerColor, halfText, scoreboardOn);
      C.ScoreSpec(s, teamKey, val, scoreboardOn);
    }

    /** `toggle_timer`, bound to the space bar. */
    method ToggleTimer(minutes: Option<int>, scoreboardOn: bool, autoJingle: bool, pick: nat)
      returns (rescheduled: bool)
      requires Valid()
      modifies this`seconds, this`running, this`jingleTriggered, this`timerText, this`timerColor,
               this`halfText, this`board, this`log, this`jinglePlaying, this`progress,
               this`currentMatchDurationSeconds
      ensures Snap() == C.OnToggle(old(Snap()), minutes, scoreboardOn, autoJingle, pick)
      ensures rescheduled == (!old(running) && running)
      ensures Valid()
    {
      C.ToggleSpec(Snap(), minutes, scoreboardOn, autoJingle, pick);
      if running {
        StopTimer(scoreboardOn);
        rescheduled := false;
      } else {
        rescheduled := StartTimer(minutes, scoreboardOn, autoJingle, pick);
      }
    }

    /** `_toggle_scoreboard`: switching the second window on republishes the panel's state. */
    method ToggleScoreboard(scoreboardOn: bool)
      requires Valid()
      modifies this`board, this`log
      ensures Snap() == C.OnScoreboardToggle(old(Snap()), scoreboardOn)
      ensures Valid()
    {
      C.ScoreboardToggleSpec(Snap(), scoreboardOn);
      if scoreboardOn {
        UpdateScoreboardDisplay(timerColor, halfText, true);
      }
    }

    /** `choose_jingle`: a non-empty selection becomes the library and its first file is decoded for display. */
    method ChooseJingle(selection: seq<string>)
      requires Valid()
      modifies this`jinglePaths, this`currentJinglePath, this`log
      ensures Snap() == C.OnChoose(old(Snap()), selection)
      ensures Valid()
    {
      C.ChooseSpec(Snap(), selection);
      if |selection| > 0 {
        jinglePaths := selection;
        if |jinglePaths| > 0 {
          var pathToAnalyze := jinglePaths[0];
          currentJinglePath := Some(pathToAnalyze);
          log := log.(loads := log.loads + [C.Load(pathToAnalyze, false)]);
        }
      }
    }

    /** `play_jingle`: a random file of the library, if there is one. */
    method PlayJingle(pick: nat)
      requires Valid()
      modifies this`jinglePlaying, this`progress, this`log
      ensures Snap() == C.OnPlay(old(Snap()), pick)
      ensures Valid()
    {
      C.PlaySpec(Snap(), pick);
      if |jinglePaths| > 0 {
        var pathToPlay := C.Pick(jinglePaths, pick);
        StartJingleLoadAndPlay(pathToPlay);
      }
    }

    /**
     * `_update_loop`: one poll of the player. `again` says whether the next
     * poll is scheduled: only while the cue plays and the engine is busy.
     */
    method UpdateLoop(busy: bool, now: real) returns (again: bool)
      requires Valid()
      modifies this`jinglePlaying, this`progress
      ensures Snap() == C.OnPoll(old(Snap()), busy, now)
      ensures again == (old(jinglePlaying) && busy)
      ensures Valid()
    {
      C.PollSpec(Snap(), busy, now);
      again := false;
      if jinglePlaying {
        if !busy {
          StopJingle();
        } else {
          var elapsed := now - jingleStartTime.value;
          var dur := if waveDuration > 0.0 then waveDuration else 1.0;
          progress := (elapsed / dur) * 100.0;
          again := true;
        }
      }
    }

    /** `_start_audio_playback`: `playOk` is false when the engine refuses the file. */
    method StartAudioPlayback(playOk: bool, busy: bool, now: real, pollNow: real) returns (again: bool)
      requires Valid()
      modifies this`jinglePlaying, this`jingleStartTime, this`progress
      ensures Snap() == C.OnStartAudio(old(Snap()), playOk, busy, now, pollNow)
      ensures again == (playOk && busy)
      ensures Valid()
    {
      again := false;
      if playOk {
        jinglePlaying := true;
        jingleStartTime := Some(now);
        again := UpdateLoop(busy, pollNow);
      }
    }

    /** `_finish_loading`: installs a decode result and, for a cue, starts playback. */
    method FinishLoading(reduced: seq<real>, duration: real, path: string, startAudio: bool,
                         engineLength: Option<real>, playOk: bool, busy: bool, now: real, pollNow: real)
      returns (again: bool)
      requires Valid() && duration >= 0.0
      modifies this`waveReduced, this`waveDuration, this`currentJinglePath, this`maxAmpScale,
               this`jinglePlaying, this`jingleStartTime, this`progress
      ensures Snap() == C.OnFinish(old(Snap()), reduced, duration, path, startAudio, engineLength, playOk, busy, now, pollNow)
      ensures again == (startAudio && playOk && busy)
      ensures Valid()
    {
      C.InstallKeepsValid(Snap(), reduced, duration, path, engineLength);
      InstallWave(reduced, duration, path, engineLength);
      again := false;
      if startAudio {
        again := StartAudioPlayback(playOk, busy, now, pollNow);
      }
    }

    /** The first part of `_finish_loading`: envelope, duration (with the engine's fallback), file and scale. */
    method InstallWave(reduced: seq<real>, duration: real, path: string, engineLength: Option<real>)
      modifies this`waveReduced, this`waveDuration, this`currentJinglePath, this`maxAmpScale
      ensures Snap() == C.OnInstall(old(Snap()), reduced, duration, path, engineLength)
    {
      var d := duration;
      if d == 0.0 && |path| > 0 {
        if engineLength.Some? && engineLength.value > 0.0 {
          d := engineLength.value / 1000.0;
        }
      }
      SetWave(Some(reduced), d, ScaleFor(reduced), Some(path));
    }

    /** The four attributes of the loaded waveform, set together. */
    method SetWave(data: Option<seq<real>>, duration: real, scale: real, path: Option<string>)
      modifies this`waveReduced, this`waveDuration, this`currentJinglePath, this`maxAmpScale
      ensures waveReduced == data && waveDuration == duration
      ensures maxAmpScale == scale && currentJinglePath == path
    {
      waveReduced, waveDuration, maxAmpScale, currentJinglePath := data, duration, scale, path;
    }

    /** `_analyze_wav_thread`: decode the file, then install the result. */
    method AnalyzeWavThread(path: string, file: Option<WavFile>, startAudio: bool,
                            engineLength: Option<real>, playOk: bool, busy: bool, now: real, pollNow: real)
      returns (again: bool)
      requires Valid()
      modifies this`waveReduced, this`waveDuration, this`currentJinglePath, this`maxAmpScale,
               this`jinglePlaying, this`jingleStartTime, this`progress
      ensures var a := Analyze(file);
        Snap() == C.OnFinish(old(Snap()), a.envelope, a.duration, path, startAudio, engineLength, playOk, busy, now, pollNow)
      ensures again == (startAudio && playOk && busy)
      ensures Valid()
    {
      var reduced, duration := PerformWavAnalysis(file);
      again := FinishLoading(reduced, duration, path, startAudio, engineLength, playOk, busy, now, pollNow);
    }
  }
}
