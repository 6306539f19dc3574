/**
 * The two clock displays: the stopwatch's `HH:MM:SS.CC` / `MM:SS.CC` (hours only
 * from one hour on, centiseconds optional) and the countdown's `MM:SS` with
 * unbounded minutes. All fields come from integer division and remainder of a
 * non-negative millisecond count.
 */
module TimeFormat {
  import opened Options
  import opened Digits

  const MsPerHour: nat := 3600000

  /** The fields of the stopwatch display. */
  datatype Clock = Clock(hours: nat, minutes: nat, seconds: nat, centis: nat)

  /** The whole centiseconds a clock shows. */
  function Centiseconds(c: Clock): nat {
    ((c.hours * 60 + c.minutes) * 60 + c.seconds) * 100 + c.centis
  }

  /** Split `ms` into the displayed fields; only the sub-10 ms part is lost. */
  function ClockOf(ms: nat): (c: Clock)
    ensures c.minutes < 60 && c.seconds < 60 && c.centis < 100
    ensures c.hours > 0 <==> ms >= MsPerHour
    ensures Centiseconds(c) == ms / 10
  {
    var totalSeconds := ms / 1000;
    var c := Clock(totalSeconds / 3600, (totalSeconds % 3600) / 60, totalSeconds % 60, (ms % 1000) / 10);
    SecondsFields(totalSeconds);
    CentisFields(ms);
    c
  }

  /** Hours, minutes and seconds recompose a second count. */
  lemma SecondsFields(s: nat)
    ensures (s % 3600) / 60 < 60 && s % 60 < 60
    ensures (s % 3600) % 60 == s % 60
    ensures s == ((s / 3600) * 60 + (s % 3600) / 60) * 60 + s % 60
  {
    var h, r := s / 3600, s % 3600;
    assert s == h * 3600 + r;
    assert r == (r / 60) * 60 + r % 60;
    assert s == (h * 60) * 60 + r;
    assert r % 60 == s % 60 by {
      assert s == (h * 60 + r / 60) * 60 + r % 60;
    }
  }

  /** Whole seconds and the centiseconds within the second recompose the centisecond count. */
  lemma CentisFields(ms: nat)
    ensures ms / 10 == (ms / 1000) * 100 + (ms % 1000) / 10
  {
    var q, r := ms / 1000, ms % 1000;
    assert ms == q * 1000 + r;
    assert ms == (q * 100 + r / 10) * 10 + r % 10;
  }

  /** The stopwatch display of `ms`, with or without the `.CC` centisecond suffix. */
  function FormatTime(ms: nat, includeMs: bool): string {
    ClockText(ClockOf(ms), includeMs)
  }

  /** The text of a clock's fields: `HH:` only when there are hours, `.CC` only when asked for. */
  function ClockText(c: Clock, includeMs: bool): string {
    if c.hours > 0 then
      if includeMs
      then Pad2(c.hours) + ":" + Pad2(c.minutes) + ":" + Pad2(c.seconds) + "." + Pad2(c.centis)
      else Pad2(c.hours) + ":" + Pad2(c.minutes) + ":" + Pad2(c.seconds)
    else
      if includeMs
      then Pad2(c.minutes) + ":" + Pad2(c.seconds) + "." + Pad2(c.centis)
      else Pad2(c.minutes) + ":" + Pad2(c.seconds)
  }

  /** The countdown display: whole minutes (not reduced modulo 60) and seconds. */
  function FormatTimerTime(ms: nat): string {
    var totalSeconds := ms / 1000;
    Pad2(totalSeconds / 60) + ":" + Pad2(totalSeconds % 60)
  }

  /** Reads the last eight characters of a stopwatch display, `MM:SS.CC`, into minutes, seconds and centiseconds. */
  function ReadMinutesOn(t: string): Option<Clock>
    requires |t| == 8
  {
    if t[2] != ':' || t[5] != '.' || !AllDigits(t[0..2]) || !AllDigits(t[3..5]) || !AllDigits(t[6..]) then None
    else Some(Clock(0, Value(t[0..2]), Value(t[3..5]), Value(t[6..])))
  }

  /**
   * Reads a full stopwatch display back into its fields: `[HH…:]MM:SS.CC`.
   * The hours field, when present, is not zero, has at least two digits and a
   * leading zero only when it has exactly two. Text of any other shape is rejected.
   */
  function ReadClock(s: string): Option<Clock> {
    var n := |s|;
    if n < 8 then None
    else
      var tail := ReadMinutesOn(s[n - 8..]);
      if n == 8 || tail.None? then tail
      else if n <= 10 || s[n - 9] != ':' || !AllDigits(s[..n - 9]) || (n > 11 && s[0] == '0') || Value(s[..n - 9]) == 0 then None
      else Some(tail.value.(hours := Value(s[..n - 9])))
  }

  /**
   * Reads a countdown display `MM…:SS` back into whole seconds: at least two
   * minute digits (a leading zero only when there are exactly two) and seconds
   * below 60.
   */
  function ReadTimerTime(s: string): Option<nat> {
    var n := |s|;
    if n < 5 || s[n - 3] != ':' || !AllDigits(s[..n - 3]) || !AllDigits(s[n - 2..]) then None
    else if (n > 5 && s[0] == '0') || Value(s[n - 2..]) >= 60 then None
    else Some(Value(s[..n - 3]) * 60 + Value(s[n - 2..]))
  }

  /** Reading the `MM:SS.CC` part of a display. */
  lemma {:induction false} ReadMinutesOnFields(m: string, sec: string, cs: string)
    requires AllDigits(m) && AllDigits(sec) && AllDigits(cs)
    requires |m| == 2 && |sec| == 2 && |cs| == 2
    ensures ReadMinutesOn(m + ":" + sec + "." + cs) == Some(Clock(0, Value(m), Value(sec), Value(cs)))
  {
    var t := m + ":" + sec + "." + cs;
    assert t[0..2] == m && t[3..5] == sec && t[6..] == cs;
  }

  /** Reading a display with the hours field, of two or more digits. */
  lemma {:induction false} ReadLongClock(h: string, t: string)
    requires AllDigits(h) && |h| >= 2 && (|h| > 2 ==> h[0] != '0') && Value(h) != 0
    requires |t| == 8 && ReadMinutesOn(t).Some?
    ensures ReadClock(h + ":" + t) == Some(ReadMinutesOn(t).value.(hours := Value(h)))
  {
    var s := h + ":" + t;
    var n := |s|;
    assert s[n - 8..] == t;
    assert s[..n - 9] == h && s[n - 9] == ':';
  }

  /** The stopwatch display with centiseconds reads back as exactly the fields it shows. */
  lemma FormatTimeRoundTrip(ms: nat)
    ensures ReadClock(FormatTime(ms, true)) == Some(ClockOf(ms))
  {
    ClockTextRoundTrip(ClockOf(ms));
  }

  /** The text of displayable fields, with centiseconds, reads back as those fields. */
  lemma {:induction false} ClockTextRoundTrip(c: Clock)
    requires c.minutes < 60 && c.seconds < 60 && c.centis < 100
    ensures ReadClock(ClockText(c, true)) == Some(c)
  {
    ValueOfPad2(c.minutes);
    ValueOfPad2(c.seconds);
    ValueOfPad2(c.centis);
    var t := Pad2(c.minutes) + ":" + Pad2(c.seconds) + "." + Pad2(c.centis);
    ReadMinutesOnFields(Pad2(c.minutes), Pad2(c.seconds), Pad2(c.centis));
    if c.hours > 0 {
      ValueOfPad2(c.hours);
      ReadLongClock(Pad2(c.hours), t);
      assert ClockText(c, true) == Pad2(c.hours) + ":" + t;
    } else {
      assert ClockText(c, true) == t;
      assert t[|t| - 8..] == t;
    }
  }

  /** The only text that reads as some fields is the display of those fields. */
  lemma {:induction false} ReadClockCanonical(s: string, c: Clock)
    requires ReadClock(s) == Some(c)
    ensures s == ClockText(c, true)
  {
    var t := s[|s| - 8..];
    var h := ReadClockParts(s, c);
    MinutesOnCanonical(t, c.(hours := 0));
    var mmss := Pad2(c.minutes) + ":" + Pad2(c.seconds) + "." + Pad2(c.centis);
    if h == [] {
      assert ClockText(c, true) == mmss;
    } else {
      PadOfValue(h);
      assert ClockText(c, true) == Pad2(c.hours) + ":" + mmss;
    }
  }

  /** What `ReadClock` accepted: an optional hours field `h` with its colon, then `MM:SS.CC`. */
  lemma {:induction false} ReadClockParts(s: string, c: Clock) returns (h: string)
    requires ReadClock(s) == Some(c)
    ensures |s| >= 8 && ReadMinutesOn(s[|s| - 8..]) == Some(c.(hours := 0))
    ensures h == [] ==> s == s[|s| - 8..] && c.hours == 0
    ensures h != [] ==> s == h + ":" + s[|s| - 8..]
    ensures h != [] ==> AllDigits(h) && |h| >= 2 && (|h| > 2 ==> h[0] != '0') && c.hours == Value(h) != 0
  {
    var n := |s|;
    var t := s[n - 8..];
    if n == 8 {
      h := [];
      assert s == t;
    } else {
      h := s[..n - 9];
      assert s == h + ":" + t;
    }
  }

  /** The only eight characters that read as `MM:SS.CC` fields are those fields padded. */
  lemma {:induction false} MinutesOnCanonical(t: string, c: Clock)
    requires |t| == 8 && ReadMinutesOn(t) == Some(c)
    ensures c.hours == 0
    ensures t == Pad2(c.minutes) + ":" + Pad2(c.seconds) + "." + Pad2(c.centis)
  {
    PadOfValue(t[0..2]);
    PadOfValue(t[3..5]);
    PadOfValue(t[6..]);
    assert t == t[0..2] + ":" + t[3..5] + "." + t[6..];
  }

  /** The only text that reads as a number of seconds is the countdown display of that time. */
  lemma {:induction false} ReadTimerTimeCanonical(s: string, seconds: nat)
    requires ReadTimerTime(s) == Some(seconds)
    ensures s == FormatTimerTime(seconds * 1000)
  {
    var n := |s|;
    var m, sec := s[..n - 3], s[n - 2..];
    PadOfValue(m);
    PadOfValue(sec);
    assert seconds / 60 == Value(m) && seconds % 60 == Value(sec);
    assert (seconds * 1000) / 1000 == seconds;
    assert s == m + ":" + sec;
  }

  /** Two instants show the same stopwatch text exactly when they agree to the centisecond. */
  lemma {:induction false} FormatTimeInjective(a: nat, b: nat)
    ensures FormatTime(a, true) == FormatTime(b, true) <==> a / 10 == b / 10
  {
    FormatTimeRoundTrip(a);
    FormatTimeRoundTrip(b);
    if a / 10 == b / 10 {
      ThousandsFromCentis(a);
      ThousandsFromCentis(b);
      assert ClockOf(a) == ClockOf(b);
    }
  }

  /** The whole seconds and the centisecond field of `ms` depend on `ms / 10` alone. */
  lemma {:induction false} ThousandsFromCentis(ms: nat)
    ensures ms / 1000 == (ms / 10) / 100
    ensures (ms % 1000) / 10 == (ms / 10) % 100
  {
    var q, r := ms / 10, ms % 10;
    var hi, lo := q / 100, q % 100;
    assert ms == 1000 * hi + (10 * lo + r);
    assert 0 <= 10 * lo + r < 1000;
    assert ms / 1000 == hi && ms % 1000 == 10 * lo + r;
  }

  /** Turning centiseconds off drops exactly the `.CC` suffix. */
  lemma DropCentiseconds(ms: nat)
    ensures FormatTime(ms, true) == FormatTime(ms, false) + "." + Pad2(ClockOf(ms).centis)
  {
  }

  /** The `HH:` field is shown exactly from one hour on: the display has two colons then, one before. */
  lemma {:induction false} HoursFieldShown(ms: nat, includeMs: bool)
    ensures Count(FormatTime(ms, includeMs), ':') == if ms >= MsPerHour then 2 else 1
  {
    var c := ClockOf(ms);
    var suffix := if includeMs then "." + Pad2(c.centis) else "";
    var rest := Pad2(c.minutes) + ":" + Pad2(c.seconds) + suffix;
    MinutesOnColons(Pad2(c.minutes), Pad2(c.seconds), suffix, Pad2(c.centis));
    if c.hours > 0 {
      assert ClockText(c, includeMs) == Pad2(c.hours) + ":" + rest;
      LeadingFieldColon(Pad2(c.hours), rest);
    } else {
      assert ClockText(c, includeMs) == rest;
    }
  }

  /** `MM:SS` with or without `.CC` holds one colon. */
  lemma {:induction false} MinutesOnColons(mm: string, ss: string, suffix: string, cc: string)
    requires AllDigits(mm) && AllDigits(ss) && AllDigits(cc)
    requires suffix == "" || suffix == "." + cc
    ensures Count(mm + ":" + ss + suffix, ':') == 1
  {
    CountOfDigits(mm, ':');
    CountOfDigits(ss, ':');
    CountOfDigits(cc, ':');
    assert Count(":", ':') == 1;
    assert Count(".", ':') == 0 by {
      assert "."[..0] == [];
    }
    CountAppend(".", cc, ':');
    assert Count(suffix, ':') == 0;
    CountAppend(mm, ":", ':');
    CountAppend(mm + ":", ss, ':');
    CountAppend(mm + ":" + ss, suffix, ':');
  }

  /** A digit field and a colon in front add one colon. */
  lemma {:induction false} LeadingFieldColon(hh: string, rest: string)
    requires AllDigits(hh)
    ensures Count(hh + ":" + rest, ':') == Count(rest, ':') + 1
  {
    CountOfDigits(hh, ':');
    assert Count(":", ':') == 1;
    CountAppend(hh, ":", ':');
    CountAppend(hh + ":", rest, ':');
  }

  /** The countdown display reads back as the whole seconds remaining. */
  lemma FormatTimerTimeRoundTrip(ms: nat)
    ensures ReadTimerTime(FormatTimerTime(ms)) == Some(ms / 1000)
  {
    var totalSeconds := ms / 1000;
    var m, sec := Pad2(totalSeconds / 60), Pad2(totalSeconds % 60);
    var s := FormatTimerTime(ms);
    assert s == m + ":" + sec;
    assert s[..|s| - 3] == m && s[|s| - 2..] == sec;
    ValueOfPad2(totalSeconds / 60);
    ValueOfPad2(totalSeconds % 60);
  }

  /** Every character of the stopwatch display is a digit, `:` or `.`. */
  lemma FormatTimeAlphabet(ms: nat, includeMs: bool)
    ensures forall i :: 0 <= i < |FormatTime(ms, includeMs)| ==>
      IsDigit(FormatTime(ms, includeMs)[i]) || FormatTime(ms, includeMs)[i] in ":."
  {
  }
}
