/**
 * The `<digital-clock>` element of assets/js/clock.js, which assets/js/script.js
 * repeats word for word. `updateTime` reads the hour, minute and second of
 * the current time and the `pad-hour` and `twentyfour-hour` attributes, and
 * writes `H:MM:SS`, followed in 12-hour mode by ` AM` or ` PM`.
 */
module Clock {
  import opened Strings
  import opened Dom

  /** The hour shown in 12-hour mode: `h % 12`, with 0 shown as 12. */
  function Hour12(h: nat): (r: nat)
    requires h < 24
    ensures 1 <= r <= 12 && r % 12 == h % 12
    ensures h == 0 ==> r == 12
    ensures 1 <= h <= 12 ==> r == h
    ensures 13 <= h ==> r == h - 12
  {
    if h % 12 == 0 then 12 else h % 12
  }

  /** `hours >= 12 ? 'PM' : 'AM'`, read before the hour is reduced. */
  function Meridiem(h: nat): string
  {
    if h >= 12 then "PM" else "AM"
  }

  /** The hour's text: zero-padded to two digits when `pad-hour` is "true". */
  function HourString(h: nat, padHour: bool): string
  {
    if padHour then PadStart2(NatToString(h)) else NatToString(h)
  }

  /** The text `updateTime` writes for the time `h:m:s`. */
  function FormatTime(h: nat, m: nat, s: nat, padHour: bool, twentyFour: bool): string
    requires h < 24 && m < 60 && s < 60
  {
    var shown := if twentyFour then h else Hour12(h);
    var t := HourString(shown, padHour) + ":" + PadStart2(NatToString(m)) + ":" + PadStart2(NatToString(s));
    if twentyFour then t else t + " " + Meridiem(h)
  }

  /** What a reader of the clock face sees: the hour, minutes and seconds fields and what follows them. */
  datatype Reading = Reading(hour: int, minute: int, second: int, suffix: string)

  /**
   * Reads a clock face: digits up to the first `:`, exactly two digits, a `:`,
   * exactly two digits, and whatever follows.
   */
  function ParseClock(text: string): Option<Reading>
  {
    var i := IndexOf(text, ":");
    if i < 1 || |text| < i + 6 then None
    else if !AllDigits(text[..i]) || !AllDigits(text[i + 1..i + 3]) || text[i + 3] != ':' || !AllDigits(text[i + 4..i + 6]) then None
    else Some(Reading(DigitsValue(text[..i]), DigitsValue(text[i + 1..i + 3]), DigitsValue(text[i + 4..i + 6]), text[i + 6..]))
  }

  /** The 24-hour hour a 12-hour reading stands for. */
  function To24(hour12: int, pm: bool): int
  {
    if pm then (if hour12 == 12 then 12 else hour12 + 12)
    else (if hour12 == 12 then 0 else hour12)
  }

  /** The hour text is digits: two of them when padded, otherwise as many as the number needs. */
  lemma HourStringDigits(h: nat, padHour: bool)
    requires h < 100
    ensures AllDigits(HourString(h, padHour)) && DigitsValue(HourString(h, padHour)) == h
    ensures |HourString(h, padHour)| == if padHour || h >= 10 then 2 else 1
  {
    if padHour {
      PadStart2Digits(NatToString(h));
    }
  }

  /** A face made of a digit field, `:`, two digits, `:`, two digits and a suffix reads back field by field. */
  lemma {:induction false} ParseFields(hs: string, ms: string, ss: string, suffix: string)
    requires 1 <= |hs| && AllDigits(hs)
    requires |ms| == 2 && AllDigits(ms) && |ss| == 2 && AllDigits(ss)
    ensures IndexOf(hs + ":" + ms + ":" + ss + suffix, ":") == |hs|
    ensures ParseClock(hs + ":" + ms + ":" + ss + suffix) ==
      Some(Reading(DigitsValue(hs), DigitsValue(ms), DigitsValue(ss), suffix))
  {
    var rest := ms + ":" + ss + suffix;
    var text := hs + ":" + ms + ":" + ss + suffix;
    assert text == hs + ":" + rest;
    assert forall j :: 0 <= j < |hs| ==> hs[j] != ":"[0];
    LacksNotContains(hs, ":", 0);
    FirstOccurrenceAfter(hs, ":", rest);
    var i := |hs|;
    assert text[..i] == hs;
    assert text[i + 1..i + 3] == ms;
    assert text[i + 3] == ':';
    assert text[i + 4..i + 6] == ss;
    assert text[i + 6..] == suffix;
  }

  /**
   * Reading what `updateTime` wrote gives back the hour it shows, the minutes
   * and seconds, each in exactly two digits, and the ` AM`/` PM` suffix in
   * 12-hour mode and nothing in 24-hour mode; the hour field is two characters
   * wide exactly when padded or at least 10.
   */
  lemma ClockRoundTrip(h: nat, m: nat, s: nat, padHour: bool, twentyFour: bool)
    requires h < 24 && m < 60 && s < 60
    ensures ParseClock(FormatTime(h, m, s, padHour, twentyFour)) ==
      Some(Reading(if twentyFour then h else Hour12(h), m, s, if twentyFour then "" else " " + Meridiem(h)))
    ensures IndexOf(FormatTime(h, m, s, padHour, twentyFour), ":") ==
      if padHour || (if twentyFour then h else Hour12(h)) >= 10 then 2 else 1
  {
    var shown := if twentyFour then h else Hour12(h);
    HourStringDigits(shown, padHour);
    PadStart2Digits(NatToString(m));
    PadStart2Digits(NatToString(s));
    var suffix := if twentyFour then "" else " " + Meridiem(h);
    ParseFields(HourString(shown, padHour), PadStart2(NatToString(m)), PadStart2(NatToString(s)), suffix);
    FormatTimeFields(h, m, s, padHour, twentyFour);
  }

  /** The clock face is the hour field, `:`, the minutes, `:`, the seconds and the suffix of the mode. */
  lemma FormatTimeFields(h: nat, m: nat, s: nat, padHour: bool, twentyFour: bool)
    requires h < 24 && m < 60 && s < 60
    ensures FormatTime(h, m, s, padHour, twentyFour) ==
      HourString(if twentyFour then h else Hour12(h), padHour) + ":" + PadStart2(NatToString(m)) + ":"
      + PadStart2(NatToString(s)) + (if twentyFour then "" else " " + Meridiem(h))
  {
    if twentyFour {
      var t := HourString(h, padHour) + ":" + PadStart2(NatToString(m)) + ":" + PadStart2(NatToString(s));
      assert t + "" == t;
    }
  }

  /** The 12-hour hour and its suffix determine the 24-hour hour: nothing is lost in 12-hour mode. */
  lemma TwelveHourLossless(h: nat)
    requires h < 24
    ensures To24(Hour12(h), Meridiem(h) == "PM") == h
  {
  }

  /** The time can be read back from the clock face in either mode. */
  lemma ClockFaceDeterminesTime(h: nat, m: nat, s: nat, padHour: bool, twentyFour: bool)
    requires h < 24 && m < 60 && s < 60
    ensures ParseClock(FormatTime(h, m, s, padHour, twentyFour)).Some?
    ensures var r := ParseClock(FormatTime(h, m, s, padHour, twentyFour)).value;
      && (if twentyFour then r.hour else To24(r.hour, r.suffix == " PM")) == h
      && r.minute == m && r.second == s
  {
    ClockRoundTrip(h, m, s, padHour, twentyFour);
    TwelveHourLossless(h);
  }

  /** The `<digital-clock>` element: its attributes and its text. */
  class DigitalClock {
    var attrs: map<string, string>
    var textContent: string

    constructor(attrs: map<string, string>)
      ensures this.attrs == attrs && textContent == ""
    {
      this.attrs := attrs;
      textContent := "";
    }

    /** `getAttribute(name) === 'true'`. */
    predicate Flag(name: string)
      reads this
    {
      name in attrs && attrs[name] == "true"
    }

    /** `updateTime` for the current time `h:m:s`; the clock is read by the caller. */
    method UpdateTime(h: nat, m: nat, s: nat)
      requires h < 24 && m < 60 && s < 60
      modifies this`textContent
      ensures textContent == FormatTime(h, m, s, Flag("pad-hour"), Flag("twentyfour-hour"))
    {
      var padHour := Flag("pad-hour");
      var twentyFourHour := Flag("twentyfour-hour");
      var hours := h;
      var minutes := PadStart2(NatToString(m));
      var seconds := PadStart2(NatToString(s));
      if !twentyFourHour {
        var ampm := if hours >= 12 then "PM" else "AM";
        hours := hours % 12;
        hours := if hours != 0 then hours else 12;
        assert hours == Hour12(h) && ampm == Meridiem(h);
        var hoursStr := if padHour then PadStart2(NatToString(hours)) else NatToString(hours);
        assert hoursStr == HourString(Hour12(h), padHour);
        textContent := hoursStr + ":" + minutes + ":" + seconds + " " + ampm;
      } else {
        var hoursStr := if padHour then PadStart2(NatToString(hours)) else NatToString(hours);
        assert hoursStr == HourString(h, padHour);
        textContent := hoursStr + ":" + minutes + ":" + seconds;
      }
    }
  }
}
