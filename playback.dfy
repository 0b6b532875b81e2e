/**
 * The playback progress shown while a cue plays: wall-clock time since the
 * start over the known duration, in percent. A duration that could not be
 * determined (0) is replaced by one second. The value is not clamped.
 */
module Playback {

  function ProgressPercent(elapsed: real, duration: real): (p: real)
    ensures duration > 0.0 ==> p * duration == elapsed * 100.0
    ensures duration <= 0.0 ==> p == elapsed * 100.0
  {
    (elapsed / (if duration > 0.0 then duration else 1.0)) * 100.0
  }

  /** Within the track the bar runs from 0 to 100, reaching 100 exactly at the end. */
  lemma ProgressWithinTrack(elapsed: real, duration: real)
    requires duration > 0.0 && 0.0 <= elapsed <= duration
    ensures 0.0 <= ProgressPercent(elapsed, duration) <= 100.0
    ensures ProgressPercent(elapsed, duration) == 100.0 <==> elapsed == duration
  {
    var p := ProgressPercent(elapsed, duration);
    assert p * duration == elapsed * 100.0;
  }

  /** Past the nominal end (the engine still reports busy) the value overshoots 100. */
  lemma ProgressOvershoots(elapsed: real, duration: real)
    requires duration > 0.0 && elapsed > duration
    ensures ProgressPercent(elapsed, duration) > 100.0
  {
    var p := ProgressPercent(elapsed, duration);
    assert p * duration == elapsed * 100.0;
  }

  /** Progress never goes backwards while time goes forward. */
  lemma ProgressMonotone(e1: real, e2: real, duration: real)
    requires e1 <= e2
    ensures ProgressPercent(e1, duration) <= ProgressPercent(e2, duration)
  {
    var d := if duration > 0.0 then duration else 1.0;
    assert e1 / d <= e2 / d;
  }
}
