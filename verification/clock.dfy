/**
  The two clock widgets (clock.ts): a state of hour, minute and meridiem, the
  24-hour time input that sets it, the AM/PM button that flips it, and the
  display derived from it (the input's `HH:MM` text and the two hand angles).
  A minute that `parseInt` cannot read is `NaN` in the source: `None` here.
 */
module Clock {
  import opened Base
  import opened JsMath
  import opened JsText

  datatype Meridiem = AM | PM

  /** `ClockState`.  The hour is always a number: the input handler maps `NaN` to 12. */
  datatype ClockState = ClockState(hour: int, minute: Option<int>, ampm: Meridiem)

  /** The states the two clocks start in: 12:00 PM on the left, 2:00 PM on the right. */
  const LeftStart: ClockState := ClockState(12, Some(0), PM)
  const RightStart: ClockState := ClockState(2, Some(0), PM)

  /** The AM/PM button: only the meridiem changes. */
  function Toggle(s: ClockState): (r: ClockState)
    ensures r.hour == s.hour && r.minute == s.minute
    ensures r.ampm != s.ampm
  {
    s.(ampm := if s.ampm == AM then PM else AM)
  }

  /** Toggling twice restores the state. */
  lemma ToggleInvolution(s: ClockState)
    ensures Toggle(Toggle(s)) == s
  {
  }

  /** `hour % 12 || 12`: the 12-hour hour, where 0 and `NaN` both become 12. */
  function Hour12(hour: Option<int>): (r: int)
    ensures hour.Some? && 0 <= hour.value < 24 ==> 1 <= r <= 12
    ensures hour.Some? && 0 <= hour.value < 24 ==> Rem(r, 12) == Rem(hour.value, 12)
  {
    match hour
    case None => 12
    case Some(h) => if Rem(h, 12) != 0 then Rem(h, 12) else 12
  }

  /** `hour >= 12 ? 'PM' : 'AM'`; a `NaN` hour compares false. */
  function MeridiemOf(hour: Option<int>): Meridiem {
    if hour.Some? && hour.value >= 12 then PM else AM
  }

  /**
    The hour on the 24-hour dial that the hour-hand formula uses: for a
    non-negative hour, in 0..23 and in the afternoon half exactly for PM.
   */
  function Hour24(s: ClockState): (r: int)
    ensures s.hour >= 0 ==> 0 <= r < 24
    ensures s.hour >= 0 ==> (r >= 12 <==> s.ampm.PM?)
  {
    if s.ampm == AM then Rem(s.hour, 12) else Rem(s.hour, 12) + 12
  }

  /**
    For every hour of the day the 12-hour form is in 1..12, the meridiem is PM
    exactly from noon on, and the hour-hand's 24-hour hour recovers the hour.
   */
  lemma TwelveHourRoundTrip(h: int, minute: Option<int>)
    requires 0 <= h < 24
    ensures 1 <= Hour12(Some(h)) <= 12
    ensures MeridiemOf(Some(h)) == PM <==> h >= 12
    ensures Hour24(ClockState(Hour12(Some(h)), minute, MeridiemOf(Some(h)))) == h
  {
    var r := Hour12(Some(h));
    if h == 0 || h == 12 {
      assert r == 12 && Rem(r, 12) == 0;
    } else if h < 12 {
      assert Rem(h, 12) == h;
      assert r == h && Rem(r, 12) == h;
    } else {
      assert Rem(h, 12) == h - 12;
      assert r == h - 12 && Rem(r, 12) == h - 12;
    }
  }

  /** The input handler: an empty value changes nothing, else the hour and minute before and after ':' are read. */
  function OnTimeInput(s: ClockState, value: string): (r: ClockState)
    ensures value == "" ==> r == s
    ensures value != "" ==> r.ampm == MeridiemOf(ParseInt(Split(value, ':')[0]))
    ensures value != "" ==> r.hour == Hour12(ParseInt(Split(value, ':')[0]))
    ensures value != "" && |Split(value, ':')| < 2 ==> r.minute.None?
  {
    if value == "" then s
    else
      var parts := Split(value, ':');
      var hour := ParseInt(parts[0]);
      var minute := if |parts| >= 2 then ParseInt(parts[1]) else None;
      ClockState(Hour12(hour), minute, MeridiemOf(hour))
  }

  /** `n.toString()`, with `NaN` for a value `parseInt` could not read. */
  function NumberText(v: Option<int>): string {
    match v
    case None => "NaN"
    case Some(n) => IntToString(n)
  }

  /** Two decimal digits, zero-padded: how both halves of `HH:MM` are written. */
  function Padded(n: nat): string {
    PadStart2(NatToString(n))
  }

  /** The value the time input holds for a time of day, as `HH:MM`. */
  function TimeValue(h: nat, m: nat): string {
    Padded(h) + ":" + Padded(m)
  }

  /**
    The text `updateClockDisplay` writes into the time input: for a
    non-negative hour and minute, the time value of the two; a `NaN` minute
    shows as `NaN` after the padded hour and the colon.
   */
  function FormatTime(s: ClockState): (r: string)
    ensures s.hour >= 0 && s.minute.Some? && s.minute.value >= 0 ==> r == TimeValue(s.hour, s.minute.value)
    ensures s.minute.None? ==> r == PadStart2(IntToString(s.hour)) + ":NaN"
  {
    if s.hour >= 0 && s.minute.Some? && s.minute.value >= 0 then
      assert IntToString(s.hour) == NatToString(s.hour);
      assert NumberText(s.minute) == NatToString(s.minute.value);
      PadStart2(IntToString(s.hour)) + ":" + PadStart2(NumberText(s.minute))
    else
      PadStart2(IntToString(s.hour)) + ":" + PadStart2(NumberText(s.minute))
  }

  /** A number below 100, padded, is two digits worth that number. */
  lemma PaddedDigits(n: nat)
    requires n < 100
    ensures |Padded(n)| == 2 && AllDigits(Padded(n)) && DigitsValue(Padded(n)) == n
  {
    var s := NatToString(n);
    NatToStringValue(n);
    if n < 10 {
      var p := Padded(n);
      assert p == "0" + s;
      assert p[..1] == "0" && p[1] == s[0];
      assert s[..0] == [];
    }
  }

  /** `parseInt` reads a padded number back, whatever non-digit text follows it. */
  lemma ParsePadded(n: nat, t: string)
    requires n < 100
    requires |t| == 0 || !IsDigit(t[0])
    ensures ParseInt(Padded(n) + t) == Some(n)
  {
    PaddedDigits(n);
    ParseIntOfDigits(Padded(n), t);
  }

  /** A time value is two digits, ':', two digits. */
  lemma TimeValueParts(h: nat, m: nat)
    requires h < 100 && m < 100
    ensures var v := TimeValue(h, m);
      |v| == 5 && v[2] == ':' && v[..2] == Padded(h) && v[3..] == Padded(m)
  {
    PaddedDigits(h);
    PaddedDigits(m);
    var v := TimeValue(h, m);
    assert v == Padded(h) + ":" + Padded(m);
    assert v[..2] == Padded(h);
    assert v[3..] == Padded(m);
  }

  /**
    For hour and minute below 100 the display is five characters: two digits
    for the hour, ':', two digits for the minute; the halves read back as the
    hour and the minute.
   */
  lemma FormatTimeShape(s: ClockState)
    requires 0 <= s.hour < 100 && s.minute.Some? && 0 <= s.minute.value < 100
    ensures var f := FormatTime(s);
      && |f| == 5 && f[2] == ':'
      && AllDigits(f[..2]) && AllDigits(f[3..])
      && ParseInt(f[..2]) == Some(s.hour) && ParseInt(f[3..]) == s.minute
  {
    var h, m := s.hour, s.minute.value;
    TimeValueParts(h, m);
    PaddedDigits(h);
    PaddedDigits(m);
    ReadPadded(h);
    ReadPadded(m);
  }

  lemma ReadPadded(n: nat)
    requires n < 100
    ensures ParseInt(Padded(n)) == Some(n)
  {
    ParsePadded(n, "");
    assert Padded(n) + "" == Padded(n);
  }

  /** Different hours give different time values. */
  lemma TimeValueInjective(a: nat, b: nat, m: nat)
    requires a < 100 && b < 100 && m < 100
    requires TimeValue(a, m) == TimeValue(b, m)
    ensures a == b
  {
    TimeValueParts(a, m);
    TimeValueParts(b, m);
    PaddedDigits(a);
    PaddedDigits(b);
  }

  /** A time value splits at ':' into its two padded halves. */
  lemma SplitTimeValue(h: nat, m: nat)
    requires h < 100 && m < 100
    ensures Split(TimeValue(h, m), ':') == [Padded(h), Padded(m)]
  {
    PaddedDigits(h);
    PaddedDigits(m);
    assert ':' !in Padded(h) by {
      assert forall k :: 0 <= k < 2 ==> IsDigit(Padded(h)[k]);
    }
    assert ':' !in Padded(m) by {
      assert forall k :: 0 <= k < 2 ==> IsDigit(Padded(m)[k]);
    }
    SplitAtSeparator(Padded(h), ':', Padded(m));
    SplitWithoutSeparator(Padded(m), ':');
  }

  /**
    Typing a time of day into the input sets the 12-hour hour, the minute and
    the meridiem, and the hour hand then points at that time of day.
   */
  lemma TimeInputSetsClock(s: ClockState, h: nat, m: nat)
    requires h < 24 && m < 60
    ensures var r := OnTimeInput(s, TimeValue(h, m));
      && r == ClockState(Hour12(Some(h)), Some(m), MeridiemOf(Some(h)))
      && Hour24(r) == h
  {
    SplitTimeValue(h, m);
    ParsePadded(h, "");
    ParsePadded(m, "");
    assert Padded(h) + "" == Padded(h) && Padded(m) + "" == Padded(m);
    TwelveHourRoundTrip(h, Some(m));
  }

  /**
    After a time is typed in, the input is rewritten with the 12-hour hour:
    it shows the typed value again exactly for the hours 1 to 12.
   */
  lemma InputRedisplayedAsTwelveHour(s: ClockState, h: nat, m: nat)
    requires h < 24 && m < 60
    ensures FormatTime(OnTimeInput(s, TimeValue(h, m))) == TimeValue(Hour12(Some(h)), m)
    ensures FormatTime(OnTimeInput(s, TimeValue(h, m))) == TimeValue(h, m) <==> 1 <= h <= 12
  {
    TimeInputSetsClock(s, h, m);
    Hour12Fixed(h);
    var h12 := Hour12(Some(h));
    if TimeValue(h12, m) == TimeValue(h, m) {
      TimeValueInjective(h12, h, m);
    }
  }

  /** The 12-hour form of an hour of the day is the hour itself exactly for 1 to 12. */
  lemma Hour12Fixed(h: nat)
    requires h < 24
    ensures Hour12(Some(h)) == h <==> 1 <= h <= 12
  {
    if h < 12 {
      assert Rem(h, 12) == h;
    } else {
      assert Rem(h, 12) == h - 12;
    }
  }

  /** `minute * 6` degrees, `NaN` when the minute is. */
  function MinuteAngle(s: ClockState): Option<int> {
    match s.minute
    case None => None
    case Some(m) => Some(m * 6)
  }

  /**
    Thirty degrees per hour of the 24-hour dial plus half a degree per
    minute: for a time of day, somewhere in the first two turns.
   */
  function HourAngle(s: ClockState): (r: Option<real>)
    ensures r.Some? <==> s.minute.Some?
    ensures s.hour >= 0 && s.minute.Some? && 0 <= s.minute.value < 60 ==> 0.0 <= r.value < 720.0
  {
    match s.minute
    case None => None
    case Some(m) => Some((Hour24(s) * 30) as real + (m as real / 60.0) * 30.0)
  }

  /** For a minute of the hour the minute hand is at a multiple of 6 degrees in [0, 354]. */
  lemma MinuteAngleRange(s: ClockState)
    requires s.minute.Some? && 0 <= s.minute.value < 60
    ensures MinuteAngle(s).Some?
    ensures 0 <= MinuteAngle(s).value <= 354 && MinuteAngle(s).value % 6 == 0
    ensures MinuteAngle(s).value / 6 == s.minute.value
  {
  }

  /**
    The clocks start at 12:00 PM and 2:00 PM: the inputs show `12:00` and
    `02:00`, and the hour hands stand at 360 and 420 degrees, noon and two
    in the afternoon on the 24-hour dial.
   */
  lemma InitialDisplay()
    ensures FormatTime(LeftStart) == "12:00" && FormatTime(RightStart) == "02:00"
    ensures HourAngle(LeftStart) == Some(360.0) && HourAngle(RightStart) == Some(420.0)
    ensures MinuteAngle(LeftStart) == Some(0) && MinuteAngle(RightStart) == Some(0)
  {
    assert Padded(0) == "00" by {
      assert NatToString(0) == "0";
    }
    assert Padded(2) == "02" by {
      assert NatToString(2) == "2";
    }
    assert Padded(12) == "12" by {
      assert NatToString(1) == "1";
      assert NatToString(12) == "12";
    }
    assert FormatTime(LeftStart) == Padded(12) + ":" + Padded(0);
    assert FormatTime(RightStart) == Padded(2) + ":" + Padded(0);
  }

  /** The PM hour angle is the AM one plus a full turn, so toggling moves the hour hand by 360 degrees. */
  lemma ToggleTurnsHourHand(s: ClockState)
    requires s.ampm == AM && s.minute.Some?
    ensures HourAngle(Toggle(s)).Some? && HourAngle(s).Some?
    ensures HourAngle(Toggle(s)).value == HourAngle(s).value + 360.0
    ensures MinuteAngle(Toggle(s)) == MinuteAngle(s)
  {
  }
}
