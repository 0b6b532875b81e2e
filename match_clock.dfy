/**
 * The match clock as a value: elapsed seconds, whether it runs, the target
 * duration and the one-shot cue flag, with one function per event the
 * controller reacts to. The controller class keeps these four fields and
 * proves each of its methods against the function here; the lemmas below
 * describe whole runs of the clock.
 */
module MatchClock {
  import opened Wrappers
  import opened TimeText
  import opened Display
  import opened Numbers

  const DefaultMatchSeconds: nat := 45 * 60
  const HomeTeam := "Spielplan Links"
  const AwayTeam := "Spielplan Rechts"

  datatype Clock = Clock(seconds: nat, running: bool, target: nat, triggered: bool)

  /**
   * The target duration for a configured number of minutes; `None` is a
   * minutes field that cannot be read, which falls back to 45 minutes.
   */
  function DesiredMatchSeconds(minutes: Option<int>): (r: nat)
    ensures r >= 60 && r % 60 == 0
    ensures minutes.None? ==> r == DefaultMatchSeconds
    ensures minutes.Some? ==> r / 60 == if minutes.value >= 1 then minutes.value else 1
  {
    match minutes
    case None => DefaultMatchSeconds
    case Some(m) => (if m >= 1 then m else 1) * 60
  }

  /** What every reachable clock satisfies: a whole number of minutes, at least one. */
  predicate ClockInv(c: Clock)
  {
    c.target >= 60 && c.target % 60 == 0
  }

  /** Between two events a running clock has not reached its target. */
  predicate Settled(c: Clock)
  {
    c.running ==> c.seconds < c.target
  }

  /** The tick from `c` requests the automatic cue. */
  predicate CueFires(c: Clock, cueAllowed: bool)
  {
    c.running && !c.triggered && cueAllowed && c.seconds + 1 >= c.target - 60
  }

  /**
   * One scheduled tick; `cueAllowed` is "cue files chosen and automatic cue
   * enabled", read at the moment of the tick.
   */
  function Tick(c: Clock, cueAllowed: bool): (r: Clock)
    ensures r.target == c.target
    ensures !c.running ==> r == c
    ensures c.running ==> r.seconds == c.seconds + 1 && Settled(r)
  {
    if !c.running then c
    else
      var s := c.seconds + 1;
      Clock(s, s < c.target, c.target, c.triggered || CueFires(c, cueAllowed))
  }

  /** The clock just before START's immediate tick. */
  function Armed(c: Clock, minutes: Option<int>): Clock
  {
    c.(running := true, target := if c.seconds == 0 then DesiredMatchSeconds(minutes) else c.target)
  }

  /** START: ignored while running; otherwise (re)arms and ticks at once. */
  function Start(c: Clock, minutes: Option<int>, cueAllowed: bool): Clock
  {
    if c.running then c else Tick(Armed(c, minutes), cueAllowed)
  }

  function Stop(c: Clock): Clock
  {
    c.(running := false)
  }

  /** RESET keeps the target duration; only the next START from zero recomputes it. */
  function Reset(c: Clock): Clock
  {
    Clock(0, false, c.target, false)
  }

  /** `n` scheduled ticks in a row. */
  function Ticks(c: Clock, n: nat, cueAllowed: bool): Clock
    decreases n
  {
    if n == 0 then c else Ticks(Tick(c, cueAllowed), n - 1, cueAllowed)
  }

  /** How many of `n` ticks in a row request the cue. */
  function CueCount(c: Clock, n: nat, cueAllowed: bool): nat
    decreases n
  {
    if n == 0 then 0
    else (if CueFires(c, cueAllowed) then 1 else 0) + CueCount(Tick(c, cueAllowed), n - 1, cueAllowed)
  }

  /** A stopped clock ignores ticks and requests nothing. */
  lemma {:induction false} StoppedTicks(c: Clock, n: nat, cueAllowed: bool)
    requires !c.running
    ensures Ticks(c, n, cueAllowed) == c && CueCount(c, n, cueAllowed) == 0
    decreases n
  {
    if n > 0 {
      StoppedTicks(c, n - 1, cueAllowed);
    }
  }

  /**
   * `n` ticks from a running clock: the clock advances one second per tick
   * and stops on reaching the target, and the cue is requested at most once,
   * exactly when the last-minute threshold is reached before the end.
   */
  lemma {:induction false} RunningTicks(c: Clock, n: nat, cueAllowed: bool)
    requires c.running && c.seconds < c.target
    ensures var r := Ticks(c, n, cueAllowed);
      && r.target == c.target
      && r.seconds == Min(c.seconds + n, c.target)
      && (r.running <==> c.seconds + n < c.target)
      && CueCount(c, n, cueAllowed)
         == (if !c.triggered && cueAllowed && n > 0 && Min(c.seconds + n, c.target) >= c.target - 60 then 1 else 0)
      && (r.triggered <==> c.triggered || CueCount(c, n, cueAllowed) == 1)
    decreases n
  {
    if n > 0 {
      var c1 := Tick(c, cueAllowed);
      if c1.running {
        RunningTicks(c1, n - 1, cueAllowed);
      } else {
        StoppedTicks(c1, n - 1, cueAllowed);
      }
    }
  }

  /**
   * A match from the ready state (seconds 0, cue not yet requested): after
   * START and `k - 1` scheduled ticks, `k` seconds are counted up to the
   * target, the clock runs exactly while `k` is below it, and the cue has
   * been requested once if the last minute was reached with the cue allowed,
   * otherwise never. The cue count includes START's own tick.
   */
  lemma MatchRun(c: Clock, minutes: Option<int>, cueAllowed: bool, k: nat)
    requires c.seconds == 0 && !c.running && !c.triggered && k >= 1
    ensures var t := DesiredMatchSeconds(minutes);
      var r := Ticks(Start(c, minutes, cueAllowed), k - 1, cueAllowed);
      && r.target == t
      && r.seconds == Min(k, t)
      && (r.running <==> k < t)
      && CueCount(Armed(c, minutes), k, cueAllowed) == (if cueAllowed && Min(k, t) >= t - 60 then 1 else 0)
      && (r.triggered <==> cueAllowed && Min(k, t) >= t - 60)
  {
    var a := Armed(c, minutes);
    assert Ticks(a, k, cueAllowed) == Ticks(Start(c, minutes, cueAllowed), k - 1, cueAllowed);
    RunningTicks(a, k, cueAllowed);
  }

  /** The clock ends on exactly the target-th tick, counting START's own tick. */
  lemma EndsOnTargetTick(c: Clock, minutes: Option<int>, cueAllowed: bool)
    requires c.seconds == 0 && !c.running && !c.triggered
    ensures var t := DesiredMatchSeconds(minutes);
      && Ticks(Start(c, minutes, cueAllowed), t - 2, cueAllowed).running
      && var e := Ticks(Start(c, minutes, cueAllowed), t - 1, cueAllowed);
         !e.running && e.seconds == t
  {
    var t := DesiredMatchSeconds(minutes);
    MatchRun(c, minutes, cueAllowed, t - 1);
    MatchRun(c, minutes, cueAllowed, t);
  }

  /**
   * With the cue allowed throughout, the cue is requested on tick number
   * `max(1, target - 60)` of the match and on no other tick.
   */
  lemma CueTick(c: Clock, minutes: Option<int>, j: nat)
    requires c.seconds == 0 && !c.running && !c.triggered
    requires 1 <= j <= DesiredMatchSeconds(minutes)
    ensures var t := DesiredMatchSeconds(minutes);
      CueFires(Ticks(Armed(c, minutes), j - 1, true), true) <==> j == (if t - 60 >= 1 then t - 60 else 1)
  {
    var a := Armed(c, minutes);
    if j > 1 {
      RunningTicks(a, j - 1, true);
    }
  }

  /** START after the end ticks once more: one second past the target, stopped again. */
  lemma RestartAfterEnd(c: Clock, minutes: Option<int>, cueAllowed: bool)
    requires ClockInv(c) && !c.running && c.seconds == c.target
    ensures var r := Start(c, minutes, cueAllowed);
      r.seconds == c.target + 1 && !r.running && r.target == c.target
  {
  }

  /**
   * STOP does not cancel the tick already scheduled, and START schedules a
   * new one. So STOP then START within one second leaves two tick chains:
   * the clock START leaves is still running when the stale tick arrives, so
   * that tick counts a second and schedules another. The clock then gains
   * two seconds per second.
   */
  lemma StopStartKeepsStaleTick(c: Clock, minutes: Option<int>, cueAllowed: bool)
    requires ClockInv(c) && c.running && 0 < c.seconds && c.seconds + 2 < c.target
    ensures var r := Start(Stop(c), minutes, cueAllowed);
      && r.running && r.seconds == c.seconds + 1
      && Tick(r, cueAllowed).running && Tick(r, cueAllowed).seconds == c.seconds + 2
  {
  }

  // ---- scores ----

  /** The key the buttons pass is "Home" or "Away"; anything but "Home" means the away team. */
  function TeamOf(key: string): string
  {
    if key == "Home" then HomeTeam else AwayTeam
  }

  predicate ScoresValid(s: map<string, int>)
  {
    s.Keys == {HomeTeam, AwayTeam} && s[HomeTeam] >= 0 && s[AwayTeam] >= 0
  }

  function ZeroScores(): (s: map<string, int>)
    ensures ScoresValid(s) && s[HomeTeam] == 0 && s[AwayTeam] == 0
  {
    map[HomeTeam := 0, AwayTeam := 0]
  }

  /** The score buttons: add `val` to the chosen team, never going below zero. */
  function UpdatedScores(s: map<string, int>, key: string, val: int): (r: map<string, int>)
    requires ScoresValid(s)
    ensures ScoresValid(r)
    ensures r[TeamOf(key)] >= s[TeamOf(key)] + val
    ensures r[TeamOf(key)] > 0 ==> r[TeamOf(key)] == s[TeamOf(key)] + val
    ensures forall t :: t in s && t != TeamOf(key) ==> r[t] == s[t]
  {
    var t := TeamOf(key);
    var v := s[t] + val;
    s[t := if v >= 0 then v else 0]
  }

  /** A "+" followed by a "-" on the same team restores the scores. */
  lemma IncrementThenDecrement(s: map<string, int>, key: string)
    requires ScoresValid(s)
    ensures UpdatedScores(UpdatedScores(s, key, 1), key, -1) == s
  {
    var r := UpdatedScores(UpdatedScores(s, key, 1), key, -1);
    assert forall t :: t in s ==> r[t] == s[t];
  }

  /** A "-" on a team at zero leaves every score as it was. */
  lemma DecrementAtZero(s: map<string, int>, key: string)
    requires ScoresValid(s) && s[TeamOf(key)] == 0
    ensures UpdatedScores(s, key, -1) == s
  {
    var r := UpdatedScores(s, key, -1);
    assert forall t :: t in s ==> r[t] == s[t];
  }

  // ---- what a tick hands to the scoreboard ----

  /** Clock colour of a tick: red from the last-minute threshold on, blue before. */
  function TickColor(seconds: nat, target: nat): (col: Color)
    ensures col == AccentRed <==> seconds + 60 >= target
  {
    if seconds >= target - 60 then AccentRed else RskBlue
  }

  /**
   * The publications of one tick, given the clock after it: the running
   * update, and on the final tick a second, orange "SPIEL ENDE" update.
   */
  function TickPublications(after: Clock, scoreboardOn: bool, home: int, away: int): seq<Publication>
  {
    Emit(scoreboardOn, RunningLabel, Frame(BoardText(after.seconds), home, away, TickColor(after.seconds, after.target)))
    + (if after.running then [] else Emit(scoreboardOn, EndLabel, Frame(BoardText(after.seconds), home, away, EndOrange)))
  }

  /**
   * The final tick always reaches the scoreboard with the orange end frame,
   * after a red running frame when the scoreboard is enabled; an ordinary
   * tick reaches it only when the scoreboard is enabled.
   */
  lemma TickPublicationsShape(after: Clock, scoreboardOn: bool, home: int, away: int)
    ensures var p := TickPublications(after, scoreboardOn, home, away);
      && (after.running ==> (|p| == 1 <==> scoreboardOn) && |p| <= 1)
      && (!after.running ==>
            && |p| == (if scoreboardOn then 2 else 1)
            && p[|p| - 1] == Publication(EndLabel, Frame(BoardText(after.seconds), home, away, EndOrange)))
  {
    ReadyAndEndAlwaysPublished(scoreboardOn);
    OthersPublishedOnlyWhenEnabled(scoreboardOn);
  }
}
