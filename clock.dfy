/**
 * The clock fields the timers print: whole hours, minutes within the hour
 * and seconds within the minute, each written with at least two digits
 * and separated by ':'; and the reading of such a clock back into seconds.
 */
module Clock {
  import opened Wrappers
  import opened Text
  import opened Numbers

  /** `Math.floor(seconds / 3600)`. */
  function Hours(seconds: int): int {
    seconds / 3600
  }

  /** `Math.floor((seconds % 3600) / 60)`. */
  function Minutes(seconds: int): int {
    Rem(seconds, 3600) / 60
  }

  /** `seconds % 60`. */
  function Secs(seconds: int): int {
    Rem(seconds, 60)
  }

  /** For a non-negative count the three fields recombine to it, minutes and seconds below 60. */
  lemma FieldsRecombine(seconds: int)
    requires seconds >= 0
    ensures 3600 * Hours(seconds) + 60 * Minutes(seconds) + Secs(seconds) == seconds
    ensures Hours(seconds) >= 0 && 0 <= Minutes(seconds) < 60 && 0 <= Secs(seconds) < 60
  {
    var h, r := seconds / 3600, seconds % 3600;
    assert seconds == 3600 * h + r && 0 <= r < 3600;
    assert Rem(seconds, 3600) == r;
    var m, s := r / 60, r % 60;
    assert r == 60 * m + s && 0 <= s < 60;
    assert 0 <= m < 60;
    assert Secs(seconds) == seconds % 60;
    assert seconds == 60 * (60 * h + m) + s;
    Mod60Unique(seconds, 60 * h + m, s);
  }

  /** The remainder of a division by 60 is the only one that fits. */
  lemma Mod60Unique(a: int, q: int, r: int)
    requires a == 60 * q + r && 0 <= r < 60
    ensures a % 60 == r
  {
    var q' := a / 60;
    assert a == 60 * q' + a % 60;
    assert 60 * (q - q') == a % 60 - r;
  }

  /** Reads "HH:MM:SS" or "MM:SS" back as seconds. */
  function ReadClock(text: string): Option<int> {
    var parts := Split(text, ':');
    if |parts| == 3 then
      match (ReadDigits(parts[0]), ReadDigits(parts[1]), ReadDigits(parts[2]))
      case (Some(h), Some(m), Some(s)) => Some(3600 * h + 60 * m + s)
      case _ => None
    else if |parts| == 2 then
      match (ReadDigits(parts[0]), ReadDigits(parts[1]))
      case (Some(m), Some(s)) => Some(60 * m + s)
      case _ => None
    else None
  }

  /** A padded field is digits only, so it holds no ':'. */
  lemma Pad2Field(n: nat)
    ensures ReadDigits(Pad2(n)) == Some(n) && ':' !in Pad2(n) && |Pad2(n)| >= 2
  {
    Pad2Value(n);
    assert !IsDigit(':');
  }

  /** Two fields of digits joined by ':' read back as minutes and seconds. */
  lemma ReadJoinedTwo(a: string, b: string, m: nat, s: nat)
    requires ReadDigits(a) == Some(m) && ReadDigits(b) == Some(s) && ':' !in a && ':' !in b
    ensures ReadClock(a + ":" + b) == Some(60 * m + s)
  {
    SplitAtFirst(a, ':', b);
    SplitNoSeparator(b, ':');
  }

  /** Three fields of digits joined by ':' read back as hours, minutes and seconds. */
  lemma ReadJoinedThree(a: string, b: string, c: string, h: nat, m: nat, s: nat)
    requires ReadDigits(a) == Some(h) && ReadDigits(b) == Some(m) && ReadDigits(c) == Some(s)
    requires ':' !in a && ':' !in b && ':' !in c
    ensures ReadClock(a + ":" + b + ":" + c) == Some(3600 * h + 60 * m + s)
  {
    assert a + ":" + b + ":" + c == a + [':'] + (b + [':'] + c);
    SplitAtFirst(a, ':', b + [':'] + c);
    SplitAtFirst(b, ':', c);
    SplitNoSeparator(c, ':');
  }

  /** "MM:SS" reads back as `60 * m + s`. */
  lemma ReadTwoFields(m: nat, s: nat)
    ensures ReadClock(Pad2(m) + ":" + Pad2(s)) == Some(60 * m + s)
  {
    Pad2Field(m);
    Pad2Field(s);
    ReadJoinedTwo(Pad2(m), Pad2(s), m, s);
  }

  /** "HH:MM:SS" reads back as `3600 * h + 60 * m + s`. */
  lemma ReadThreeFields(h: nat, m: nat, s: nat)
    ensures ReadClock(Pad2(h) + ":" + Pad2(m) + ":" + Pad2(s)) == Some(3600 * h + 60 * m + s)
  {
    Pad2Field(h);
    Pad2Field(m);
    Pad2Field(s);
    ReadJoinedThree(Pad2(h), Pad2(m), Pad2(s), h, m, s);
  }
}
