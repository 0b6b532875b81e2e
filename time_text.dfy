/**
 * The two clock renderings of the controller.
 *
 * The control panel shows `m:ss` (the minutes in plain decimal, the seconds
 * padded to two digits); the second window shows `mm:ss` (the minutes padded
 * to at least two digits). Both are built from `seconds // 60` and
 * `seconds % 60`. `ParseTime` reads either form back, and the round-trip
 * lemmas show that neither rendering loses information.
 */
module TimeText {
  import opened Wrappers

  predicate IsDigit(c: char) {
    '0' <= c <= '9'
  }

  predicate AllDigits(s: string) {
    forall i :: 0 <= i < |s| ==> IsDigit(s[i])
  }

  function DigitChar(d: nat): (c: char)
    requires d < 10
    ensures IsDigit(c) && DigitValue(c) == d
  {
    ('0' as int + d) as char
  }

  function DigitValue(c: char): nat
    requires IsDigit(c)
  {
    c as int - '0' as int
  }

  /** Decimal rendering without leading zeros (Python's `str(n)` / `f"{n}"`). */
  function Decimal(n: nat): string
  {
    if n < 10 then [DigitChar(n)] else Decimal(n / 10) + [DigitChar(n % 10)]
  }

  /** At least one digit, a single one exactly below 10, and no leading zero. */
  lemma {:induction false} DecimalShape(n: nat)
    ensures var s := Decimal(n);
      && 1 <= |s| && AllDigits(s)
      && (n < 10 <==> |s| == 1)
      && (|s| > 1 ==> s[0] != '0')
  {
    if n >= 10 {
      DecimalShape(n / 10);
    }
  }

  /** The number a string of digits denotes. */
  function DecimalValue(s: string): nat
    requires AllDigits(s)
  {
    if |s| == 0 then 0 else DecimalValue(s[..|s| - 1]) * 10 + DigitValue(s[|s| - 1])
  }

  lemma {:induction false} DecimalRoundTrip(n: nat)
    ensures AllDigits(Decimal(n)) && DecimalValue(Decimal(n)) == n
  {
    DecimalShape(n);
    if n >= 10 {
      DecimalRoundTrip(n / 10);
      var s := Decimal(n);
      assert s[..|s| - 1] == Decimal(n / 10);
    }
  }

  /** Python's `f"{n:02}"`: at least two digits, zero-padded on the left. */
  function Pad2(n: nat): (s: string)
  {
    if n < 10 then "0" + Decimal(n) else Decimal(n)
  }

  lemma Pad2Shape(n: nat)
    ensures AllDigits(Pad2(n)) && |Pad2(n)| >= 2
    ensures n < 100 ==> |Pad2(n)| == 2
    ensures DecimalValue(Pad2(n)) == n
  {
    DecimalRoundTrip(n);
    if n < 10 {
      var s := Pad2(n);
      assert s[..|s| - 1] == "0";
    } else if n < 100 {
      DecimalShape(n / 10);
    }
  }

  /** The control panel's clock, `f"{minutes}:{seconds_part:02}"`. */
  function ClockText(seconds: nat): string
  {
    Decimal(seconds / 60) + ":" + Pad2(seconds % 60)
  }

  /** The second window's clock, `f"{minutes:02}:{seconds_part:02}"`. */
  function BoardText(seconds: nat): string
  {
    Pad2(seconds / 60) + ":" + Pad2(seconds % 60)
  }

  /**
   * Reads `<digits>:<two digits>` back into a number of seconds; the
   * two-digit part must be below 60.
   */
  function ParseTime(t: string): Option<nat>
  {
    if |t| >= 4 && t[|t| - 3] == ':' && AllDigits(t[..|t| - 3]) && AllDigits(t[|t| - 2..])
       && DecimalValue(t[|t| - 2..]) < 60
    then Some(DecimalValue(t[..|t| - 3]) * 60 + DecimalValue(t[|t| - 2..]))
    else None
  }

  lemma SplitAtColon(m: string, s: string)
    requires AllDigits(m) && |m| >= 1 && AllDigits(s) && |s| == 2 && DecimalValue(s) < 60
    ensures var t := m + ":" + s;
      ParseTime(t) == Some(DecimalValue(m) * 60 + DecimalValue(s))
  {
    var t := m + ":" + s;
    assert |t| >= 4 && t[|t| - 3] == ':';
    assert t[..|t| - 3] == m;
    assert t[|t| - 2..] == s;
  }

  /** Whole minutes and the two-digit remainder recompose the second count. */
  lemma MinutesAndSeconds(seconds: nat)
    ensures seconds % 60 < 60 && (seconds / 60) * 60 + seconds % 60 == seconds
  {
  }

  /** The control panel's clock reads back to the seconds it was made from. */
  lemma {:induction false} ClockTextRoundTrip(seconds: nat)
    ensures ParseTime(ClockText(seconds)) == Some(seconds)
  {
    DecimalRoundTrip(seconds / 60);
    DecimalShape(seconds / 60);
    Pad2Shape(seconds % 60);
    MinutesAndSeconds(seconds);
    SplitAtColon(Decimal(seconds / 60), Pad2(seconds % 60));
  }

  /** So does the second window's clock. */
  lemma {:induction false} BoardTextRoundTrip(seconds: nat)
    ensures ParseTime(BoardText(seconds)) == Some(seconds)
  {
    Pad2Shape(seconds / 60);
    Pad2Shape(seconds % 60);
    MinutesAndSeconds(seconds);
    SplitAtColon(Pad2(seconds / 60), Pad2(seconds % 60));
  }

  /** Hence two different second counts never show the same text. */
  lemma ClockTextInjective(a: nat, b: nat)
    requires ClockText(a) == ClockText(b) || BoardText(a) == BoardText(b)
    ensures a == b
  {
    ClockTextRoundTrip(a);
    ClockTextRoundTrip(b);
    BoardTextRoundTrip(a);
    BoardTextRoundTrip(b);
  }

  /** The seconds field of both renderings is exactly two digits wide. */
  lemma {:induction false} TimeTextShape(seconds: nat)
    ensures var t := ClockText(seconds); |t| >= 4 && t[|t| - 3] == ':'
    ensures var t := BoardText(seconds); |t| >= 5 && t[|t| - 3] == ':'
    ensures seconds < 6000 ==> |BoardText(seconds)| == 5
  {
    Pad2Shape(seconds / 60);
    Pad2Shape(seconds % 60);
  }

  /** The renderings of second 0, shown after construction and after RESET. */
  lemma ZeroTexts()
    ensures ClockText(0) == "0:00" && BoardText(0) == "00:00"
  {
    assert Decimal(0) == "0";
  }
}
