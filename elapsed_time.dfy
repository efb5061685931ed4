/**
 * The timer script's `calculateElapsedTime`: the time since the timer started,
 * shown as `"<h>h <m>m <s>s"` with the hours part only when there are whole
 * hours and the minutes part only when there are hours or minutes. The clock
 * reading is a parameter here: the function takes the elapsed milliseconds
 * (`Date.now() - startTime`), which may be negative if the clock stepped back.
 */
module ElapsedTime {
  import opened Wrappers
  import opened Text

  /** Whole hours, remaining minutes and remaining seconds of an elapsed time. */
  datatype Clock = Clock(hours: int, minutes: int, seconds: int)

  /** Division rounded toward zero, the quotient that JavaScript's `%` is defined by. */
  function TruncDiv(a: int, b: int): int
    requires b > 0
  {
    if a >= 0 then a / b else -((-a) / b)
  }

  /** JavaScript's `%`: the remainder of truncating division, with the sign of the dividend. */
  function JsRem(a: int, b: int): (r: int)
    requires b > 0
    ensures a == b * TruncDiv(a, b) + r
    ensures -b < r < b
    ensures a >= 0 ==> r >= 0
    ensures a <= 0 ==> r <= 0
  {
    if a >= 0 then a % b
    else
      var q := (-a) / b;
      assert b * -q == -(b * q);
      -((-a) % b)
  }

  /**
   * The arithmetic of `calculateElapsedTime`. `Math.floor(x / n)` for a positive
   * `n` is Dafny's `x / n`, which rounds down for every sign of `x`.
   */
  function Breakdown(elapsedMs: int): (c: Clock)
    ensures elapsedMs >= 0 ==>
      && c.hours >= 0
      && 0 <= c.minutes < 60
      && 0 <= c.seconds < 60
      && c.hours * 3600 + c.minutes * 60 + c.seconds == elapsedMs / 1000
  {
    var seconds := elapsedMs / 1000;
    var minutes := seconds / 60;
    var hours := minutes / 60;
    Clock(hours, JsRem(minutes, 60), JsRem(seconds, 60))
  }

  /** The `parts` list: hours if any, minutes if there are hours or minutes, then seconds. */
  function Parts(c: Clock): (parts: seq<string>)
    ensures 1 <= |parts| <= 3 && Spaceless(parts)
    ensures parts[|parts| - 1] == ShowInt(c.seconds) + "s"
    ensures |parts| == 3 <==> c.hours > 0
    ensures |parts| >= 2 <==> c.hours > 0 || c.minutes > 0
    ensures c.hours > 0 ==> parts[0] == ShowInt(c.hours) + "h"
    ensures |parts| >= 2 ==> parts[|parts| - 2] == ShowInt(c.minutes) + "m"
  {
    (if c.hours > 0 then [ShowInt(c.hours) + "h"] else [])
    + (if c.minutes > 0 || c.hours > 0 then [ShowInt(c.minutes) + "m"] else [])
    + [ShowInt(c.seconds) + "s"]
  }

  /**
   * `calculateElapsedTime()` for a given elapsed time in milliseconds: the text
   * ends with the seconds part and starts with the hours part when there are
   * whole hours, or else with the minutes part when there are minutes.
   */
  function FormatElapsed(elapsedMs: int): (s: string)
    ensures var c := Breakdown(elapsedMs);
      var sec := ShowInt(c.seconds) + "s";
      |sec| <= |s| && s[|s| - |sec|..] == sec
    ensures var c := Breakdown(elapsedMs);
      c.hours > 0 ==> ShowInt(c.hours) + "h" <= s
    ensures var c := Breakdown(elapsedMs);
      c.hours <= 0 && c.minutes > 0 ==> ShowInt(c.minutes) + "m" <= s
  {
    Join(Parts(Breakdown(elapsedMs)))
  }

  /** Reads one part such as `"12m"`: decimal digits followed by the unit letter. */
  function ReadPart(word: string, unit: char): Option<nat> {
    if |word| >= 2 && word[|word| - 1] == unit then ReadNat(word[..|word| - 1]) else None
  }

  /** Reads the space-separated parts of a formatted elapsed time. */
  function ParseParts(words: seq<string>): Option<Clock>
    requires |words| >= 1
  {
    var n := |words|;
    var s := ReadPart(words[n - 1], 's');
    var m := if n >= 2 then ReadPart(words[n - 2], 'm') else Some(0);
    var h := if n == 3 then ReadPart(words[0], 'h') else Some(0);
    if n > 3 || s.None? || m.None? || h.None? then None
    else Some(Clock(h.value, m.value, s.value))
  }

  /** Reads a formatted elapsed time back into its hours, minutes and seconds. */
  function ParseElapsed(text: string): Option<Clock> {
    ParseParts(Split(text))
  }

  lemma ReadShownPart(x: nat, unit: char)
    requires !IsDigit(unit)
    ensures ReadPart(ShowInt(x) + [unit], unit) == Some(x)
  {
    var word := ShowInt(x) + [unit];
    assert word[..|word| - 1] == Show(x);
    ReadShow(x);
  }

  lemma ParseSeconds(sw: string, sec: nat)
    requires ReadPart(sw, 's') == Some(sec)
    ensures ParseParts([sw]) == Some(Clock(0, 0, sec))
  {
  }

  lemma ParseMinutes(mw: string, sw: string, min: nat, sec: nat)
    requires ReadPart(mw, 'm') == Some(min) && ReadPart(sw, 's') == Some(sec)
    ensures ParseParts([mw, sw]) == Some(Clock(0, min, sec))
  {
  }

  lemma ParseHours(hw: string, mw: string, sw: string, hr: nat, min: nat, sec: nat)
    requires ReadPart(hw, 'h') == Some(hr) && ReadPart(mw, 'm') == Some(min) && ReadPart(sw, 's') == Some(sec)
    ensures ParseParts([hw, mw, sw]) == Some(Clock(hr, min, sec))
  {
  }

  /** Reading the parts of a clock with no negative field gives the clock back. */
  lemma ReadParts(c: Clock)
    requires c.hours >= 0 && c.minutes >= 0 && c.seconds >= 0
    ensures ParseParts(Parts(c)) == Some(c)
  {
    var sw, mw, hw := ShowInt(c.seconds) + "s", ShowInt(c.minutes) + "m", ShowInt(c.hours) + "h";
    ReadShownPart(c.seconds, 's');
    ReadShownPart(c.minutes, 'm');
    ReadShownPart(c.hours, 'h');
    if c.hours > 0 {
      assert Parts(c) == [hw, mw, sw];
      ParseHours(hw, mw, sw, c.hours, c.minutes, c.seconds);
    } else if c.minutes > 0 {
      assert Parts(c) == [mw, sw];
      ParseMinutes(mw, sw, c.minutes, c.seconds);
    } else {
      assert Parts(c) == [sw];
      ParseSeconds(sw, c.seconds);
    }
  }

  /**
   * The text determines the clock it was made from: reading a formatted
   * non-negative elapsed time gives back its hours, minutes and seconds.
   */
  lemma FormatRoundTrip(elapsedMs: int)
    requires elapsedMs >= 0
    ensures ParseElapsed(FormatElapsed(elapsedMs)) == Some(Breakdown(elapsedMs))
  {
    var c := Breakdown(elapsedMs);
    SplitJoin(Parts(c));
    ReadParts(c);
  }

  /** Two non-negative elapsed times with the same text lie in the same whole second. */
  lemma SameTextSameSecond(a: int, b: int)
    requires a >= 0 && b >= 0
    requires FormatElapsed(a) == FormatElapsed(b)
    ensures a / 1000 == b / 1000
  {
    FormatRoundTrip(a);
    FormatRoundTrip(b);
  }

  /** An elapsed time that went negative shows only its seconds part, which is zero or negative. */
  lemma NegativeShowsSecondsOnly(elapsedMs: int)
    requires elapsedMs < 0
    ensures FormatElapsed(elapsedMs) == ShowInt(JsRem(elapsedMs / 1000, 60)) + "s"
  {
  }

  /** One hour and five seconds keeps the zero minutes part. */
  lemma OneHourFiveSeconds()
    ensures FormatElapsed(3_605_000) == "1h 0m 5s"
  {
    var c := Breakdown(3_605_000);
    assert c == Clock(1, 0, 5);
    assert ShowInt(1) + "h" == "1h" && ShowInt(0) + "m" == "0m" && ShowInt(5) + "s" == "5s";
    assert Parts(c) == ["1h", "0m", "5s"];
  }
}
