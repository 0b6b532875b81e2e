/**
 * What the controller hands to the second window (the scoreboard), and the
 * gate that decides whether a hand-over happens at all.
 */
module Display {

  /** The three clock colours the controller uses: base blue, last-minute red, end orange. */
  datatype Color = RskBlue | AccentRed | EndOrange

  /** What one scoreboard update shows: the `mm:ss` clock, both scores and the clock colour. */
  datatype Frame = Frame(time: string, home: int, away: int, color: Color)

  /** One update handed to the scoreboard, with the caption text it was handed with. */
  datatype Publication = Publication(caption: string, frame: Frame)

  const ReadyLabel := "SPIEL BEREIT"
  const RunningLabel := "SPIEL LÄUFT"
  const PauseLabel := "SPIEL PAUSE"
  const EndLabel := "SPIEL ENDE"
  /** The control panel's own caption while paused (it differs from the scoreboard's PauseLabel). */
  const PanelPauseLabel := "PAUSE"

  /** `sub` occurs in `s` starting at index `i`. */
  predicate OccursAt(s: string, sub: string, i: int)
  {
    0 <= i <= |s| - |sub| && s[i..i + |sub|] == sub
  }

  /** Python's `sub in s` on strings: some occurrence of `sub` in `s`. */
  predicate Contains(s: string, sub: string)
  {
    exists i | 0 <= i <= |s| - |sub| :: OccursAt(s, sub, i)
  }

  /**
   * The publication gate: the scoreboard is updated when it is enabled, or
   * whatever its state when the caption announces the ready or the end state.
   */
  predicate Publishes(scoreboardOn: bool, caption: string)
  {
    scoreboardOn || Contains(caption, "BEREIT") || Contains(caption, "ENDE")
  }

  /** The publications one update call adds: none, or exactly the one it was given. */
  function Emit(scoreboardOn: bool, caption: string, frame: Frame): (p: seq<Publication>)
    ensures |p| <= 1
    ensures p == [] || p == [Publication(caption, frame)]
    ensures |p| == 1 <==> Publishes(scoreboardOn, caption)
  {
    if Publishes(scoreboardOn, caption) then [Publication(caption, frame)] else []
  }

  /** The ready and the end labels get through the gate whether or not the scoreboard is enabled. */
  lemma ReadyAndEndAlwaysPublished(scoreboardOn: bool)
    ensures Publishes(scoreboardOn, ReadyLabel) && Publishes(scoreboardOn, EndLabel)
  {
    assert ReadyLabel[6..12] == "BEREIT";
    Marked(ReadyLabel, "BEREIT", 6);
    assert EndLabel[6..10] == "ENDE";
    Marked(EndLabel, "ENDE", 6);
  }

  /** The running label and both pause labels get through only with the scoreboard enabled. */
  lemma OthersPublishedOnlyWhenEnabled(scoreboardOn: bool)
    ensures Publishes(scoreboardOn, RunningLabel) <==> scoreboardOn
    ensures Publishes(scoreboardOn, PauseLabel) <==> scoreboardOn
    ensures Publishes(scoreboardOn, PanelPauseLabel) <==> scoreboardOn
  {
    GatedByScoreboard(scoreboardOn, RunningLabel);
    GatedByScoreboard(scoreboardOn, PauseLabel);
    GatedByScoreboard(scoreboardOn, PanelPauseLabel);
  }

  lemma GatedByScoreboard(scoreboardOn: bool, s: string)
    requires 'B' !in s && 'D' !in s
    ensures Publishes(scoreboardOn, s) <==> scoreboardOn
  {
    NoMarker(s);
  }

  lemma Marked(s: string, sub: string, i: nat)
    requires i + |sub| <= |s| && s[i..i + |sub|] == sub
    ensures Contains(s, sub)
  {
    assert OccursAt(s, sub, i);
  }

  /** A label without the letters B and D carries neither marker. */
  lemma NoMarker(s: string)
    requires 'B' !in s && 'D' !in s
    ensures !Contains(s, "BEREIT") && !Contains(s, "ENDE")
  {
    forall i ensures !OccursAt(s, "BEREIT", i) {
      if 0 <= i <= |s| - 6 {
        assert s[i..i + 6][0] == s[i] != 'B';
      }
    }
    forall i ensures !OccursAt(s, "ENDE", i) {
      if 0 <= i <= |s| - 4 {
        assert s[i..i + 4][2] == s[i + 2] != 'D';
      }
    }
  }
}
