/**
 * The controller of the match clock as a value: the clock and the scores,
 * the labels of its own panel, what the second window (the scoreboard)
 * shows, the cue library and player, and the loaded waveform. There is one
 * function per event (a button, a scheduled tick, a finished decode, a
 * playback poll) giving the state after it; the class in `SoccerClock`
 * performs each event in place and is proved equal to the function here.
 *
 * Three logs record what the fields alone do not show: every update handed
 * to the scoreboard (`published`), every automatic cue request (`cues`,
 * with `cuesAtReset` marking where the last RESET left it) and every
 * decode handed to the worker (`loads`).
 */
module Controller {
  import opened Wrappers
  import opened TimeText
  import opened Display
  import MC = MatchClock
  import opened Waveform
  import opened Playback

  /** A decode handed to the worker: the file and whether playback follows it. */
  datatype Load = Load(path: string, startAudio: bool)

  /** An automatic cue request: the second it was made at and the file picked. */
  datatype Cue = Cue(second: nat, path: string)

  /** The controller's own timer and status labels. */
  datatype Panel = Panel(timerText: string, timerColor: Color, halfText: string)

  /** The cue player: whether it plays, when it started, the progress bar value. */
  datatype Player = Player(playing: bool, startTime: Option<real>, progress: real)

  /** The loaded waveform: envelope, duration, drawing scale and the file it belongs to. */
  datatype WaveView = WaveView(reduced: Option<seq<real>>, duration: real, scale: real, path: Option<string>)

  datatype State = State(
    clock: MC.Clock,
    scores: map<string, int>,
    paths: seq<string>,
    panel: Panel,
    board: Frame,
    player: Player,
    wave: WaveView,
    published: seq<Publication>,
    cues: seq<Cue>,
    cuesAtReset: nat,
    loads: seq<Load>)

  /** `random.choice` on a non-empty list; the caller supplies the choice. */
  function Pick(paths: seq<string>, pick: nat): (p: string)
    requires |paths| > 0
    ensures p in paths
  {
    paths[pick % |paths|]
  }

  /** The scoreboard's initial frame and the one RESET publishes. */
  const ReadyFrame := Frame("00:00", 0, 0, RskBlue)

  /** The controller as it opens: 45 minutes, ready, 0:0, the ready state handed to the scoreboard. */
  function Initial(): State
  {
    State(MC.Clock(0, false, MC.DefaultMatchSeconds, false), MC.ZeroScores(), [],
          Panel("0:00", RskBlue, ReadyLabel), ReadyFrame, Player(false, None, 0.0),
          WaveView(None, 0.0, 1.0, None), [Publication(ReadyLabel, ReadyFrame)], [], 0, [])
  }

  /**
   * What holds at every event boundary, except that a running clock may
   * momentarily have reached its target (see `StateValid`): the panel shows
   * the clock's time, and the rest of `Consistent`.
   */
  predicate StateInv(s: State)
  {
    Consistent(s) && s.panel.timerText == ClockText(s.clock.seconds)
  }

  /**
   * The target is whole minutes, the scores are the two teams' and not
   * negative, the scoreboard shows the last frame handed to it, the cue log
   * agrees with the one-shot flag, a playing cue has a start time, and the
   * waveform's scale is positive and its duration not negative.
   */
  predicate Consistent(s: State)
  {
    && MC.ClockInv(s.clock)
    && MC.ScoresValid(s.scores)
    && |s.published| > 0 && s.board == s.published[|s.published| - 1].frame
    && CuesAccounted(s)
    && (s.player.playing ==> s.player.startTime.Some?)
    && s.wave.scale > 0.0 && s.wave.duration >= 0.0
  }

  /** Since the last RESET, one cue request if the one-shot flag is set and none otherwise. */
  predicate CuesAccounted(s: State)
  {
    s.cuesAtReset <= |s.cues| && |s.cues| - s.cuesAtReset == (if s.clock.triggered then 1 else 0)
  }

  predicate StateValid(s: State)
  {
    StateInv(s) && MC.Settled(s.clock)
  }

  // ---- the clock and the scoreboard ----

  /** The frame the scoreboard would show now with the given clock colour. */
  function BoardFrame(s: State, color: Color): Frame
    requires MC.ScoresValid(s.scores)
  {
    Frame(BoardText(s.clock.seconds), s.scores[MC.HomeTeam], s.scores[MC.AwayTeam], color)
  }

  /** `_update_scoreboard_display`: hands the frame over when the gate lets it through. */
  function OnShow(s: State, color: Color, caption: string, scoreboardOn: bool): State
    requires MC.ScoresValid(s.scores)
  {
    if Publishes(scoreboardOn, caption) then
      s.(board := BoardFrame(s, color), published := s.published + [Publication(caption, BoardFrame(s, color))])
    else s
  }

  /** `stop_jingle`. */
  function OnStopJingle(s: State): State
  {
    s.(player := s.player.(playing := false, progress := 0.0))
  }

  /** `start_jingle_load_and_play`: a new cue first stops the one playing. */
  function OnLoadAndPlay(s: State, path: string): State
  {
    OnStopJingle(s).(loads := s.loads + [Load(path, true)])
  }

  /**
   * The automatic cue inside a tick (the clock already advanced): from the
   * last-minute threshold on, once, when the library is not empty and
   * auto-cue is on.
   */
  function CueStep(s: State, autoJingle: bool, pick: nat): State
  {
    if s.clock.seconds >= s.clock.target - 60 && !s.clock.triggered && |s.paths| > 0 && autoJingle then
      var path := Pick(s.paths, pick);
      var t := OnLoadAndPlay(s, path);
      t.(clock := t.clock.(triggered := true), cues := t.cues + [Cue(s.clock.seconds, path)])
    else s
  }

  /** The end of a tick: on reaching the target the clock stops and the end state is shown and published. */
  function EndStep(s: State, scoreboardOn: bool): State
    requires MC.ScoresValid(s.scores)
  {
    if s.clock.seconds >= s.clock.target then
      OnShow(s.(clock := s.clock.(running := false),
                panel := s.panel.(timerColor := EndOrange, halfText := EndLabel)),
             EndOrange, EndLabel, scoreboardOn)
    else s
  }

  /** The first half of a running tick: one second more, then the automatic cue check. */
  function Advance(s: State, autoJingle: bool, pick: nat): (r: State)
    ensures r.scores == s.scores
  {
    CueStep(s.(clock := s.clock.(seconds := s.clock.seconds + 1)), autoJingle, pick)
  }

  /** The second half: the time on the panel, red from the last minute on, and the running frame handed over. */
  function ShowTime(s: State, scoreboardOn: bool): State
    requires MC.ScoresValid(s.scores)
  {
    var color := MC.TickColor(s.clock.seconds, s.clock.target);
    OnShow(s.(panel := s.panel.(timerText := ClockText(s.clock.seconds), timerColor := color)),
           color, RunningLabel, scoreboardOn)
  }

  /** The running part of a tick, before the end check. */
  function RunStep(s: State, scoreboardOn: bool, autoJingle: bool, pick: nat): State
    requires MC.ScoresValid(s.scores)
  {
    ShowTime(Advance(s, autoJingle, pick), scoreboardOn)
  }

  /** `_tick`. */
  function OnTick(s: State, scoreboardOn: bool, autoJingle: bool, pick: nat): State
    requires MC.ScoresValid(s.scores)
  {
    if !s.clock.running then s
    else EndStep(RunStep(s, scoreboardOn, autoJingle, pick), scoreboardOn)
  }

  /** What START does before its immediate tick. */
  function OnArm(s: State, minutes: Option<int>): State
  {
    var s1 :=
      if s.clock.seconds == 0 then
        s.(clock := s.clock.(target := MC.DesiredMatchSeconds(minutes)),
           panel := s.panel.(halfText := RunningLabel, timerColor := RskBlue))
      else s;
    s1.(clock := s1.clock.(running := true))
  }

  /** `start_timer`. */
  function OnStart(s: State, minutes: Option<int>, scoreboardOn: bool, autoJingle: bool, pick: nat): State
    requires MC.ScoresValid(s.scores)
  {
    if s.clock.running then s else OnTick(OnArm(s, minutes), scoreboardOn, autoJingle, pick)
  }

  /** `stop_timer`. */
  function OnStop(s: State, scoreboardOn: bool): State
    requires MC.ScoresValid(s.scores)
  {
    if s.clock.running then
      OnShow(s.(clock := s.clock.(running := false), panel := s.panel.(halfText := PanelPauseLabel)),
             s.panel.timerColor, PauseLabel, scoreboardOn)
    else s
  }

  /** `reset_timer`. */
  function OnReset(s: State, scoreboardOn: bool): State
    requires MC.ScoresValid(s.scores)
  {
    OnShow(Cleared(OnStop(OnStopJingle(s), scoreboardOn)), RskBlue, ReadyLabel, scoreboardOn)
  }

  /** What RESET clears once the cue and the clock are stopped: second 0, the cue re-armed, the panel and the scores. */
  function Cleared(s: State): State
  {
    s.(clock := s.clock.(seconds := 0, triggered := false), cuesAtReset := |s.cues|,
       panel := Panel("0:00", RskBlue, ReadyLabel), scores := MC.ZeroScores())
  }

  /** `update_score`. */
  function OnScore(s: State, teamKey: string, val: int, scoreboardOn: bool): State
    requires MC.ScoresValid(s.scores)
  {
    OnShow(s.(scores := MC.UpdatedScores(s.scores, teamKey, val)), s.panel.timerColor, s.panel.halfText, scoreboardOn)
  }

  /** `toggle_timer` (the space bar). */
  function OnToggle(s: State, minutes: Option<int>, scoreboardOn: bool, autoJingle: bool, pick: nat): State
    requires MC.ScoresValid(s.scores)
  {
    if s.clock.running then OnStop(s, scoreboardOn) else OnStart(s, minutes, scoreboardOn, autoJingle, pick)
  }

  /** `_toggle_scoreboard`: switching the second window on republishes the panel's state. */
  function OnScoreboardToggle(s: State, scoreboardOn: bool): State
    requires MC.ScoresValid(s.scores)
  {
    if scoreboardOn then OnShow(s, s.panel.timerColor, s.panel.halfText, true) else s
  }

  // ---- the cue player ----

  /** `choose_jingle`. */
  function OnChoose(s: State, selection: seq<string>): State
  {
    if |selection| == 0 then s
    else s.(paths := selection, wave := s.wave.(path := Some(selection[0])),
            loads := s.loads + [Load(selection[0], false)])
  }

  /** `play_jingle`. */
  function OnPlay(s: State, pick: nat): State
  {
    if |s.paths| == 0 then s else OnLoadAndPlay(s, Pick(s.paths, pick))
  }

  /** `_update_loop` at wall-clock time `now`, with `busy` the engine's answer. */
  function OnPoll(s: State, busy: bool, now: real): State
    requires s.player.playing ==> s.player.startTime.Some?
  {
    if !s.player.playing then s
    else if !busy then OnStopJingle(s)
    else s.(player := s.player.(progress := ProgressPercent(now - s.player.startTime.value, s.wave.duration)))
  }

  /**
   * `_start_audio_playback`; `playOk` says whether the engine accepted the
   * file. The start time is read at `now`, the first poll reads the clock
   * again at `pollNow`.
   */
  function OnStartAudio(s: State, playOk: bool, busy: bool, now: real, pollNow: real): State
  {
    if playOk then OnPoll(s.(player := s.player.(playing := true, startTime := Some(now))), busy, pollNow)
    else s
  }

  /**
   * The duration `_finish_loading` keeps: a zero duration of a named file
   * falls back to the engine's length in milliseconds when that is positive
   * (`engineLength` is `None` when asking raises).
   */
  function FallbackDuration(duration: real, path: string, engineLength: Option<real>): real
  {
    if duration == 0.0 && |path| > 0 && engineLength.Some? && engineLength.value > 0.0
    then engineLength.value / 1000.0 else duration
  }

  /** What `_finish_loading` does before it starts playback: the decode result becomes the current waveform. */
  function OnInstall(s: State, reduced: seq<real>, duration: real, path: string, engineLength: Option<real>): State
  {
    s.(wave := WaveView(Some(reduced), FallbackDuration(duration, path, engineLength), ScaleFor(reduced), Some(path)))
  }

  /** `_finish_loading`. */
  function OnFinish(s: State, reduced: seq<real>, duration: real, path: string, startAudio: bool,
                    engineLength: Option<real>, playOk: bool, busy: bool, now: real, pollNow: real): State
  {
    var s1 := OnInstall(s, reduced, duration, path, engineLength);
    if startAudio then OnStartAudio(s1, playOk, busy, now, pollNow) else s1
  }

  // ---- what the events promise ----

  lemma InitialValid()
    ensures StateValid(Initial())
    ensures Initial().published[0].frame.time == BoardText(0)
  {
    ZeroTexts();
  }

  /** The gate decides alone whether a frame is handed over, and nothing but the board and its log change. */
  lemma ShowSpec(s: State, color: Color, caption: string, scoreboardOn: bool)
    requires MC.ScoresValid(s.scores)
    ensures var r := OnShow(s, color, caption, scoreboardOn);
      && r.published == s.published + Emit(scoreboardOn, caption, BoardFrame(s, color))
      && r == s.(board := r.board, published := r.published)
  {
  }

  /** The scoreboard always shows the last frame handed to it. */
  lemma ShowKeepsInv(s: State, color: Color, caption: string, scoreboardOn: bool)
    requires StateInv(s)
    ensures StateInv(OnShow(s, color, caption, scoreboardOn))
  {
  }

  /** The cue step changes the one-shot flag, the cue log, the decode log and the player, and only when it fires. */
  lemma CueStepSpec(s: State, autoJingle: bool, pick: nat)
    ensures var r := CueStep(s, autoJingle, pick);
      var fires := s.clock.seconds >= s.clock.target - 60 && !s.clock.triggered && |s.paths| > 0 && autoJingle;
      && (!fires ==> r == s)
      && (fires ==>
            && r == s.(clock := s.clock.(triggered := true), cues := r.cues, loads := r.loads, player := r.player)
            && r.cues == s.cues + [Cue(s.clock.seconds, Pick(s.paths, pick))]
            && r.loads == s.loads + [Load(Pick(s.paths, pick), true)]
            && r.player == s.player.(playing := false, progress := 0.0))
  {
  }

  lemma CueStepKeepsConsistent(s: State, autoJingle: bool, pick: nat)
    requires Consistent(s)
    ensures var r := CueStep(s, autoJingle, pick);
      Consistent(r) && r.clock.seconds == s.clock.seconds && r.clock.target == s.clock.target
      && r.clock.running == s.clock.running && r.scores == s.scores && r.panel == s.panel
  {
  }

  /**
   * The running part of a tick: one second more, the flag set exactly when
   * the match clock says the cue fires, the new time on the panel and the
   * running frame handed over through the gate.
   */
  lemma RunStepSpec(s: State, scoreboardOn: bool, autoJingle: bool, pick: nat)
    requires MC.ScoresValid(s.scores) && s.clock.running
    ensures var r := RunStep(s, scoreboardOn, autoJingle, pick);
      var sec := s.clock.seconds + 1;
      var color := MC.TickColor(sec, s.clock.target);
      && r.clock == s.clock.(seconds := sec, triggered := s.clock.triggered || MC.CueFires(s.clock, |s.paths| > 0 && autoJingle))
      && r.scores == s.scores && r.paths == s.paths && r.wave == s.wave && r.cuesAtReset == s.cuesAtReset
      && r.panel == Panel(ClockText(sec), color, s.panel.halfText)
      && r.published == s.published
           + Emit(scoreboardOn, RunningLabel, Frame(BoardText(sec), s.scores[MC.HomeTeam], s.scores[MC.AwayTeam], color))
  {
    var s0 := s.(clock := s.clock.(seconds := s.clock.seconds + 1));
    CueStepSpec(s0, autoJingle, pick);
    var s1 := CueStep(s0, autoJingle, pick);
    var color := MC.TickColor(s1.clock.seconds, s1.clock.target);
    ShowSpec(s1.(panel := s1.panel.(timerText := ClockText(s1.clock.seconds), timerColor := color)),
             color, RunningLabel, scoreboardOn);
  }

  /** The cue part of a running tick, in terms of the match clock's firing rule. */
  lemma RunStepCue(s: State, scoreboardOn: bool, autoJingle: bool, pick: nat)
    requires MC.ScoresValid(s.scores) && s.clock.running
    ensures var r := RunStep(s, scoreboardOn, autoJingle, pick);
      var fires := MC.CueFires(s.clock, |s.paths| > 0 && autoJingle);
      && (fires ==>
            && r.cues == s.cues + [Cue(s.clock.seconds + 1, Pick(s.paths, pick))]
            && r.loads == s.loads + [Load(Pick(s.paths, pick), true)]
            && r.player == s.player.(playing := false, progress := 0.0))
      && (!fires ==> r.cues == s.cues && r.loads == s.loads && r.player == s.player)
  {
    var s0 := s.(clock := s.clock.(seconds := s.clock.seconds + 1));
    CueStepSpec(s0, autoJingle, pick);
    var s1 := CueStep(s0, autoJingle, pick);
    var color := MC.TickColor(s1.clock.seconds, s1.clock.target);
    ShowSpec(s1.(panel := s1.panel.(timerText := ClockText(s1.clock.seconds), timerColor := color)),
             color, RunningLabel, scoreboardOn);
  }

  lemma RunStepKeepsInv(s: State, scoreboardOn: bool, autoJingle: bool, pick: nat)
    requires StateInv(s) && s.clock.running
    ensures StateInv(RunStep(s, scoreboardOn, autoJingle, pick))
  {
    AdvanceKeepsConsistent(s, autoJingle, pick);
    ShowTimeKeepsInv(Advance(s, autoJingle, pick), scoreboardOn);
  }

  lemma AdvanceKeepsConsistent(s: State, autoJingle: bool, pick: nat)
    requires StateInv(s) && s.clock.running
    ensures Consistent(Advance(s, autoJingle, pick))
  {
    var s0 := s.(clock := s.clock.(seconds := s.clock.seconds + 1));
    assert Consistent(s0);
    CueStepKeepsConsistent(s0, autoJingle, pick);
  }

  /** Showing the time puts the clock's text on the panel, which restores `StateInv`. */
  lemma ShowTimeKeepsInv(s: State, scoreboardOn: bool)
    requires Consistent(s)
    ensures StateInv(ShowTime(s, scoreboardOn))
  {
    var color := MC.TickColor(s.clock.seconds, s.clock.target);
    var s1 := s.(panel := s.panel.(timerText := ClockText(s.clock.seconds), timerColor := color));
    assert StateInv(s1);
    ShowKeepsInv(s1, color, RunningLabel, scoreboardOn);
  }

  /** The end check of a tick: at the target the clock stops, turns orange and publishes the end state. */
  lemma EndStepSpec(s: State, scoreboardOn: bool)
    requires MC.ScoresValid(s.scores)
    ensures var r := EndStep(s, scoreboardOn);
      && (s.clock.seconds < s.clock.target ==> r == s)
      && (s.clock.seconds >= s.clock.target ==>
            && r.clock == s.clock.(running := false)
            && r.panel == s.panel.(timerColor := EndOrange, halfText := EndLabel)
            && r.published == s.published + Emit(scoreboardOn, EndLabel, BoardFrame(s, EndOrange)))
      && r == s.(clock := r.clock, panel := r.panel, board := r.board, published := r.published)
      && (StateInv(s) ==> StateInv(r))
  {
    if s.clock.seconds >= s.clock.target {
      ShowSpec(s.(clock := s.clock.(running := false), panel := s.panel.(timerColor := EndOrange, halfText := EndLabel)),
               EndOrange, EndLabel, scoreboardOn);
    }
  }

  /**
   * A tick moves the clock exactly as the match clock does, with the cue
   * allowed when the library is not empty and auto-cue is on, and leaves
   * the scores, the library and the waveform alone.
   */
  lemma TickFollowsClock(s: State, scoreboardOn: bool, autoJingle: bool, pick: nat)
    requires MC.ScoresValid(s.scores)
    ensures var r := OnTick(s, scoreboardOn, autoJingle, pick);
      && r.clock == MC.Tick(s.clock, |s.paths| > 0 && autoJingle)
      && r.scores == s.scores && r.paths == s.paths && r.wave == s.wave
      && r.cuesAtReset == s.cuesAtReset
  {
    if s.clock.running {
      RunStepSpec(s, scoreboardOn, autoJingle, pick);
      EndStepSpec(RunStep(s, scoreboardOn, autoJingle, pick), scoreboardOn);
    }
  }

  /**
   * A running tick publishes the red or blue running frame and, on the
   * final tick, the orange end frame after it; a stopped clock's tick
   * changes nothing.
   */
  lemma TickPublishes(s: State, scoreboardOn: bool, autoJingle: bool, pick: nat)
    requires MC.ScoresValid(s.scores)
    ensures var r := OnTick(s, scoreboardOn, autoJingle, pick);
      && (!s.clock.running ==> r == s)
      && r.published == s.published +
           if s.clock.running
           then MC.TickPublications(r.clock, scoreboardOn, s.scores[MC.HomeTeam], s.scores[MC.AwayTeam])
           else []
  {
    if s.clock.running {
      TickFollowsClock(s, scoreboardOn, autoJingle, pick);
      RunStepSpec(s, scoreboardOn, autoJingle, pick);
      EndStepSpec(RunStep(s, scoreboardOn, autoJingle, pick), scoreboardOn);
    }
  }

  /**
   * A running tick shows the new time on the panel, red in the last minute;
   * the final tick turns it orange and shows the end label. The status
   * label is otherwise left as it was.
   */
  lemma TickPanel(s: State, scoreboardOn: bool, autoJingle: bool, pick: nat)
    requires MC.ScoresValid(s.scores) && s.clock.running
    ensures var r := OnTick(s, scoreboardOn, autoJingle, pick);
      r.panel ==
        if r.clock.running
        then Panel(ClockText(r.clock.seconds), MC.TickColor(r.clock.seconds, r.clock.target), s.panel.halfText)
        else Panel(ClockText(r.clock.seconds), EndOrange, EndLabel)
  {
    TickFollowsClock(s, scoreboardOn, autoJingle, pick);
    RunStepSpec(s, scoreboardOn, autoJingle, pick);
    EndStepSpec(RunStep(s, scoreboardOn, autoJingle, pick), scoreboardOn);
  }

  /**
   * The automatic cue: exactly when the match clock says it fires, one
   * request is logged at the new second, the picked file is handed to the
   * decoder for playback and the player is stopped first; otherwise the
   * logs and the player are untouched.
   */
  lemma TickCue(s: State, scoreboardOn: bool, autoJingle: bool, pick: nat)
    requires MC.ScoresValid(s.scores)
    ensures var r := OnTick(s, scoreboardOn, autoJingle, pick);
      if MC.CueFires(s.clock, |s.paths| > 0 && autoJingle) then
        && r.cues == s.cues + [Cue(r.clock.seconds, Pick(s.paths, pick))]
        && r.loads == s.loads + [Load(Pick(s.paths, pick), true)]
        && r.player == s.player.(playing := false, progress := 0.0)
      else
        r.cues == s.cues && r.loads == s.loads && r.player == s.player
  {
    if s.clock.running {
      RunStepSpec(s, scoreboardOn, autoJingle, pick);
      RunStepCue(s, scoreboardOn, autoJingle, pick);
      EndStepSpec(RunStep(s, scoreboardOn, autoJingle, pick), scoreboardOn);
    }
  }

  /** A tick from any consistent state ends in a settled one. */
  lemma TickKeepsValid(s: State, scoreboardOn: bool, autoJingle: bool, pick: nat)
    requires StateInv(s)
    ensures StateValid(OnTick(s, scoreboardOn, autoJingle, pick))
  {
    if s.clock.running {
      RunStepSpec(s, scoreboardOn, autoJingle, pick);
      RunStepKeepsInv(s, scoreboardOn, autoJingle, pick);
      EndStepSpec(RunStep(s, scoreboardOn, autoJingle, pick), scoreboardOn);
    }
  }

  /**
   * START follows the match clock's START; from second 0 it shows the
   * running label, from a paused or ended clock it keeps the status label.
   */
  lemma StartFollowsClock(s: State, minutes: Option<int>, scoreboardOn: bool, autoJingle: bool, pick: nat)
    requires MC.ScoresValid(s.scores)
    ensures var r := OnStart(s, minutes, scoreboardOn, autoJingle, pick);
      && r.clock == MC.Start(s.clock, minutes, |s.paths| > 0 && autoJingle)
      && (s.clock.running ==> r == s)
      && (!s.clock.running && r.clock.running ==>
            r.panel.halfText == if s.clock.seconds == 0 then RunningLabel else s.panel.halfText)
  {
    if !s.clock.running {
      TickFollowsClock(OnArm(s, minutes), scoreboardOn, autoJingle, pick);
    }
  }

  /** Arming a stopped clock keeps the invariant, so START's immediate tick starts from a consistent state. */
  lemma ArmKeepsInv(s: State, minutes: Option<int>)
    requires StateValid(s)
    ensures StateInv(OnArm(s, minutes))
  {
  }

  lemma StartKeepsValid(s: State, minutes: Option<int>, scoreboardOn: bool, autoJingle: bool, pick: nat)
    requires StateValid(s)
    ensures StateValid(OnStart(s, minutes, scoreboardOn, autoJingle, pick))
  {
    if !s.clock.running {
      ArmKeepsInv(s, minutes);
      TickKeepsValid(OnArm(s, minutes), scoreboardOn, autoJingle, pick);
    }
  }

  /**
   * STOP pauses a running clock, shows the pause label and publishes the
   * pause state with the current clock colour; on a stopped clock it
   * changes nothing.
   */
  lemma StopSpec(s: State, scoreboardOn: bool)
    requires MC.ScoresValid(s.scores)
    ensures var r := OnStop(s, scoreboardOn);
      && r.clock == MC.Stop(s.clock)
      && (!s.clock.running ==> r == s)
      && (s.clock.running ==>
            && r.panel == s.panel.(halfText := PanelPauseLabel)
            && r.published == s.published + Emit(scoreboardOn, PauseLabel, BoardFrame(s, s.panel.timerColor)))
      && (StateValid(s) ==> StateValid(r))
  {
  }

  /**
   * RESET stops the cue and the clock, re-arms the one-shot cue, zeroes the
   * scores and publishes the ready state; the target duration is kept.
   */
  lemma ResetSpec(s: State, scoreboardOn: bool)
    requires MC.ScoresValid(s.scores)
    ensures var r := OnReset(s, scoreboardOn);
      && r.clock == MC.Reset(s.clock)
      && r.scores == MC.ZeroScores()
      && !r.player.playing && r.player.progress == 0.0
      && r.panel == Panel("0:00", RskBlue, ReadyLabel)
      && r.board == ReadyFrame
      && r.published == s.published
           + (if s.clock.running then Emit(scoreboardOn, PauseLabel, BoardFrame(s, s.panel.timerColor)) else [])
           + [Publication(ReadyLabel, ReadyFrame)]
      && r.cues == s.cues && r.cuesAtReset == |r.cues|
      && (StateValid(s) ==> StateValid(r))
  {
    ZeroTexts();
    ReadyAndEndAlwaysPublished(scoreboardOn);
  }

  /** A score button changes only that team's score (floored at 0) and republishes it. */
  lemma ScoreSpec(s: State, teamKey: string, val: int, scoreboardOn: bool)
    requires MC.ScoresValid(s.scores)
    ensures var r := OnScore(s, teamKey, val, scoreboardOn);
      && r.scores == MC.UpdatedScores(s.scores, teamKey, val)
      && r.clock == s.clock && r.panel == s.panel
      && r.published == s.published
           + Emit(scoreboardOn, s.panel.halfText, BoardFrame(r, s.panel.timerColor))
      && (StateValid(s) ==> StateValid(r))
  {
    ShowSpec(s.(scores := MC.UpdatedScores(s.scores, teamKey, val)), s.panel.timerColor, s.panel.halfText, scoreboardOn);
  }

  /** The space bar is STOP on a running clock and START otherwise. */
  lemma ToggleSpec(s: State, minutes: Option<int>, scoreboardOn: bool, autoJingle: bool, pick: nat)
    requires MC.ScoresValid(s.scores)
    ensures var r := OnToggle(s, minutes, scoreboardOn, autoJingle, pick);
      && r.clock == (if s.clock.running then MC.Stop(s.clock)
                     else MC.Start(s.clock, minutes, |s.paths| > 0 && autoJingle))
      && (StateValid(s) ==> StateValid(r))
  {
    StopSpec(s, scoreboardOn);
    StartFollowsClock(s, minutes, scoreboardOn, autoJingle, pick);
    if StateValid(s) {
      StartKeepsValid(s, minutes, scoreboardOn, autoJingle, pick);
    }
  }

  /** Switching the scoreboard on always hands it the panel's current state. */
  lemma ScoreboardToggleSpec(s: State, scoreboardOn: bool)
    requires MC.ScoresValid(s.scores)
    ensures var r := OnScoreboardToggle(s, scoreboardOn);
      && (scoreboardOn ==> r.published == s.published + [Publication(s.panel.halfText, BoardFrame(s, s.panel.timerColor))]
                           && r.board == BoardFrame(s, s.panel.timerColor))
      && (!scoreboardOn ==> r == s)
      && (StateValid(s) ==> StateValid(r))
  {
  }

  /**
   * Choosing files: an empty selection changes nothing; otherwise the
   * selection replaces the library and its first file is decoded for
   * display only.
   */
  lemma ChooseSpec(s: State, selection: seq<string>)
    ensures var r := OnChoose(s, selection);
      && (|selection| == 0 ==> r == s)
      && (|selection| > 0 ==>
            && r.paths == selection && r.wave.path == Some(selection[0])
            && r.loads == s.loads + [Load(selection[0], false)]
            && r.player == s.player && r.clock == s.clock)
      && (StateValid(s) ==> StateValid(r))
  {
  }

  /** A manual cue plays a file of the library, stopping the one playing first. */
  lemma PlaySpec(s: State, pick: nat)
    ensures var r := OnPlay(s, pick);
      && (|s.paths| == 0 ==> r == s)
      && (|s.paths| > 0 ==>
            && r.loads == s.loads + [Load(Pick(s.paths, pick), true)]
            && Pick(s.paths, pick) in s.paths
            && !r.player.playing && r.player.progress == 0.0)
      && r.cues == s.cues && r.clock == s.clock
      && (StateValid(s) ==> StateValid(r))
  {
  }

  /**
   * A poll of a playing cue: a silent engine ends playback and clears the
   * bar; otherwise the bar shows the elapsed share of the duration, which
   * stays within [0, 100] while the elapsed time is within the track. With
   * no known duration the divisor is 1, so the bar runs at 100 per second.
   * Only the player changes, and the start time is kept.
   */
  lemma PollSpec(s: State, busy: bool, now: real)
    requires StateInv(s)
    ensures var r := OnPoll(s, busy, now);
      && (!s.player.playing ==> r == s)
      && r == s.(player := r.player) && r.player.startTime == s.player.startTime
      && (s.player.playing && !busy ==> !r.player.playing && r.player.progress == 0.0)
      && (s.player.playing && busy ==>
            && r.player.playing
            && r.player.progress == ProgressPercent(now - s.player.startTime.value, s.wave.duration)
            && (s.wave.duration <= 0.0 ==> r.player.progress == (now - s.player.startTime.value) * 100.0)
            && (s.wave.duration > 0.0 ==>
                  r.player.progress * s.wave.duration == (now - s.player.startTime.value) * 100.0)
            && (s.wave.duration > 0.0 && 0.0 <= now - s.player.startTime.value <= s.wave.duration ==>
                  0.0 <= r.player.progress <= 100.0))
      && StateInv(r) && r.clock == s.clock
  {
    if s.player.playing && busy && s.wave.duration > 0.0 && 0.0 <= now - s.player.startTime.value <= s.wave.duration {
      ProgressWithinTrack(now - s.player.startTime.value, s.wave.duration);
    }
  }

  /** `stop_jingle` stops the player and zeroes the bar, touching nothing else, and keeps the invariant. */
  lemma StopJingleSpec(s: State)
    ensures var r := OnStopJingle(s);
      && !r.player.playing && r.player.progress == 0.0 && r.player.startTime == s.player.startTime
      && r == s.(player := r.player)
      && (StateValid(s) ==> StateValid(r))
  {
  }

  /**
   * Starting playback marks the player playing from `now` and polls at
   * once: the bar shows the time passed until that poll, or returns to 0
   * when the engine is already idle. A file the engine refuses changes nothing.
   */
  lemma StartAudioSpec(s: State, playOk: bool, busy: bool, now: real, pollNow: real)
    requires StateInv(s)
    ensures var r := OnStartAudio(s, playOk, busy, now, pollNow);
      && (!playOk ==> r == s)
      && (playOk ==> r.player.startTime == Some(now) && r.player.playing == busy)
      && (playOk && busy ==> r.player.progress == ProgressPercent(pollNow - now, s.wave.duration))
      && (playOk && !busy ==> r.player.progress == 0.0)
      && StateInv(r)
  {
    if playOk {
      PollSpec(s.(player := s.player.(playing := true, startTime := Some(now))), busy, pollNow);
    }
  }

  /**
   * Installing a decode result: the envelope and the file become current;
   * a positive duration is kept, a zero one of a named file falls back to
   * the engine's length in milliseconds when that is positive and stays 0
   * otherwise; the drawing scale is positive and no envelope value exceeds
   * it unless all are negligible; playback starts exactly when asked for
   * and accepted by the engine.
   */
  lemma FinishSpec(s: State, reduced: seq<real>, duration: real, path: string, startAudio: bool,
                   engineLength: Option<real>, playOk: bool, busy: bool, now: real, pollNow: real)
    requires StateValid(s) && duration >= 0.0
    ensures var r := OnFinish(s, reduced, duration, path, startAudio, engineLength, playOk, busy, now, pollNow);
      var engineKnown := |path| > 0 && engineLength.Some? && engineLength.value > 0.0;
      && r.wave.reduced == Some(reduced) && r.wave.path == Some(path)
      && r.wave.duration >= 0.0
      && (duration > 0.0 ==> r.wave.duration == duration)
      && (duration == 0.0 && engineKnown ==> r.wave.duration * 1000.0 == engineLength.value)
      && (duration == 0.0 && !engineKnown ==> r.wave.duration == 0.0)
      && ((exists i :: 0 <= i < |reduced| && reduced[i] > ScaleEpsilon) ==>
            forall i :: 0 <= i < |reduced| ==> reduced[i] <= r.wave.scale)
      && (!startAudio || !playOk ==> r.player == s.player)
      && (startAudio && playOk ==> r.player.startTime == Some(now) && r.player.playing == busy)
      && r.clock == s.clock && r.published == s.published
      && StateValid(r)
  {
    var s1 := OnInstall(s, reduced, duration, path, engineLength);
    InstallKeepsValid(s, reduced, duration, path, engineLength);
    if startAudio {
      StartAudioSpec(s1, playOk, busy, now, pollNow);
    }
  }

  lemma InstallKeepsValid(s: State, reduced: seq<real>, duration: real, path: string, engineLength: Option<real>)
    requires StateValid(s) && duration >= 0.0
    ensures StateValid(OnInstall(s, reduced, duration, path, engineLength))
  {
  }

  /**
   * Decoding a file and installing the result (`_analyze_wav_thread` with
   * its completion): the envelope is the reduced decode, at most 799
   * values, and with every sample in range no value exceeds 1.
   */
  lemma AnalyzeAndFinish(s: State, path: string, file: Option<WavFile>, startAudio: bool,
                         engineLength: Option<real>, playOk: bool, busy: bool, now: real, pollNow: real)
    requires StateValid(s)
    ensures var a := Analyze(file);
      var r := OnFinish(s, a.envelope, a.duration, path, startAudio, engineLength, playOk, busy, now, pollNow);
      && r.wave.reduced == Some(a.envelope)
      && |a.envelope| <= 2 * EnvelopeSize - 1
      && (file.Some? && Decode(file.value).Some? &&
          (forall i :: 0 <= i < |file.value.data| ==> SampleInRange(file.value.sampleWidth, file.value.data[i])) ==>
            forall v :: v in a.envelope ==> 0.0 <= v <= 1.0)
      && StateValid(r)
  {
    var a := Analyze(file);
    FinishSpec(s, a.envelope, a.duration, path, startAudio, engineLength, playOk, busy, now, pollNow);
    if file.Some? && Decode(file.value).Some? {
      AnalyzeSpec(file.value);
      if forall i :: 0 <= i < |file.value.data| ==> SampleInRange(file.value.sampleWidth, file.value.data[i]) {
        AnalyzeBounded(file.value);
      }
    }
  }
}
