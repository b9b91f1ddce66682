/**
 * The "Hh Mm" rendering of a count of minutes that several pages share:
 * the focus-time figures of the session statistics and of the dashboard's
 * quick statistics, and (through the lemmas of their own modules) the
 * task card, the challenge history and the duration selector.
 */
module Durations {
  import opened Wrappers
  import opened Text
  import opened Numbers

  /** `${hours}h ${mins}m` when `Math.floor(minutes / 60)` is positive, `${mins}m` otherwise, with `mins = minutes % 60`. */
  function HoursMinutes(minutes: int): string {
    var hours := minutes / 60;
    var mins := Rem(minutes, 60);
    if hours > 0 then Field(hours, 'h') + " " + Field(mins, 'm') else Field(mins, 'm')
  }

  /** A number followed by a unit letter. */
  function Field(n: int, unit: char): string {
    IntToString(n) + [unit]
  }

  /** A count followed by its unit letter, as the formatter writes each field of a non-negative count. */
  function ReadField(p: string, unit: char): Option<int> {
    if |p| >= 1 && p[|p| - 1] == unit then
      match ReadDigits(p[..|p| - 1])
      case Some(n) => Some(n)
      case None => None
    else None
  }

  /** Reads an "Hh Mm" or "Mm" text back as a number of minutes. */
  function ReadHoursMinutes(s: string): Option<int> {
    var parts := Split(s, ' ');
    if |parts| == 1 then ReadField(parts[0], 'm')
    else if |parts| == 2 then
      match (ReadField(parts[0], 'h'), ReadField(parts[1], 'm'))
      case (Some(h), Some(m)) => Some(60 * h + m)
      case _ => None
    else None
  }

  /** A field of a count reads back as the count, and holds no space. */
  lemma ReadFieldOf(n: nat, unit: char)
    requires unit != ' '
    ensures ReadField(Field(n, unit), unit) == Some(n)
    ensures ' ' !in Field(n, unit)
  {
    var p := Field(n, unit);
    assert p[..|p| - 1] == IntToString(n);
    ReadDigitsOfNat(n);
    assert !IsDigit(' ');
  }

  /** A minutes-only rendering reads back as its number. */
  lemma ReadMinutesOnly(mins: nat)
    ensures ReadHoursMinutes(Field(mins, 'm')) == Some(mins)
  {
    ReadFieldOf(mins, 'm');
    SplitNoSeparator(Field(mins, 'm'), ' ');
  }

  /** An hours-and-minutes rendering reads back as sixty times the hours plus the minutes. */
  lemma ReadHoursAndMinutes(hours: nat, mins: nat)
    ensures ReadHoursMinutes(Field(hours, 'h') + " " + Field(mins, 'm')) == Some(60 * hours + mins)
  {
    ReadFieldOf(mins, 'm');
    ReadFieldOf(hours, 'h');
    ReadJoinedFields(Field(hours, 'h'), Field(mins, 'm'), hours, mins);
  }

  /** Two space-free fields joined by one space read back as hours and minutes. */
  lemma ReadJoinedFields(h: string, m: string, hours: int, mins: int)
    requires ReadField(h, 'h') == Some(hours) && ReadField(m, 'm') == Some(mins)
    requires ' ' !in h && ' ' !in m
    ensures ReadHoursMinutes(h + " " + m) == Some(60 * hours + mins)
  {
    SplitNoSeparator(m, ' ');
    assert h + " " + m == h + [' '] + m;
    SplitAtFirst(h, ' ', m);
  }

  /** For a count that is not negative, reading the rendering back gives the count: nothing is lost. */
  lemma HoursMinutesRoundTrip(minutes: int)
    requires minutes >= 0
    ensures ReadHoursMinutes(HoursMinutes(minutes)) == Some(minutes)
  {
    if minutes >= 60 {
      RoundTripFromAnHour(minutes);
    } else {
      assert HoursMinutes(minutes) == Field(minutes, 'm');
      ReadMinutesOnly(minutes);
    }
  }

  lemma RoundTripFromAnHour(minutes: int)
    requires minutes >= 60
    ensures ReadHoursMinutes(HoursMinutes(minutes)) == Some(minutes)
  {
    var hours, mins := minutes / 60, minutes % 60;
    assert HoursMinutes(minutes) == Field(hours, 'h') + " " + Field(mins, 'm') by {
      assert Rem(minutes, 60) == mins;
    }
    ReadHoursAndMinutes(hours, mins);
  }

  /** A printed integer is a minus sign and digits: no space and no unit letter. */
  lemma IntToStringChars(n: int)
    ensures forall i :: 0 <= i < |IntToString(n)| ==> IntToString(n)[i] == '-' || IsDigit(IntToString(n)[i])
  {
    if n < 0 {
      var d := NatToString(-n);
      assert forall i :: 1 <= i < |"-" + d| ==> ("-" + d)[i] == d[i - 1];
    }
  }

  /** The hours field appears exactly from one hour on. */
  lemma HoursShownFromAnHour(minutes: int)
    requires minutes >= 0
    ensures 'h' in HoursMinutes(minutes) <==> minutes >= 60
  {
    var hours, mins := minutes / 60, minutes % 60;
    IntToStringChars(mins);
    IntToStringChars(hours);
    var s := HoursMinutes(minutes);
    if hours > 0 {
      assert s[|IntToString(hours)|] == 'h';
    } else {
      assert s == IntToString(mins) + "m";
      assert 'h' !in s;
    }
  }
}
