/** Times of day. The source carries them as zero-padded `HH:MM` strings and
    compares them as strings; the model carries minutes since midnight and
    shows that the two orders agree. */
module Clock {
  import opened Text
  import Arith

  /** Minutes since midnight of one day. */
  type Minute = t: int | 0 <= t < 1440

  /** `getHours()` / `getMinutes()` of a time of day. */
  function Hour(t: Minute): int { t / 60 }
  function MinuteOfHour(t: Minute): int { t % 60 }

  /** The `HH:MM` text of a time of day. */
  function FormatTime(t: Minute): (s: string)
    ensures |s| == 5 && s[2] == ':'
  {
    Pad2(Hour(t)) + ":" + Pad2(MinuteOfHour(t))
  }

  /** The text of hour `h`, minute `m`. */
  lemma FormatTimeParts(h: nat, m: nat)
    requires h < 24 && m < 60
    ensures FormatTime(60 * h + m) == Pad2(h) + ":" + Pad2(m)
  {
    Arith.DivModUnique(60 * h + m, 60, h, m);
  }

  lemma FormatTimeText(h: nat, m: nat, text: string)
    requires h < 24 && m < 60 && text == ":" + Pad2(m)
    ensures FormatTime(60 * h + m) == Pad2(h) + text
  {
    FormatTimeParts(h, m);
    assert Pad2(h) + ":" + Pad2(m) == Pad2(h) + (":" + Pad2(m));
  }

  /** The minute parts of the whole and the half hour. */
  lemma ColonZero()
    ensures ":" + Pad2(0) == ":00"
  {
    assert Pad2(0) == [DigitChar(0), DigitChar(0)];
  }

  lemma ColonThirty()
    ensures ":" + Pad2(30) == ":30"
  {
    assert Pad2(30) == [DigitChar(3), DigitChar(0)];
  }

  /** Comparing two `HH:MM` texts as strings agrees with comparing the times,
      because both fields have fixed width. */
  lemma FormatTimeOrder(s: Minute, t: Minute)
    ensures LexLess(FormatTime(s), FormatTime(t)) <==> s < t
  {
    var hs, ht := Pad2(Hour(s)), Pad2(Hour(t));
    var ms, mt := ":" + Pad2(MinuteOfHour(s)), ":" + Pad2(MinuteOfHour(t));
    assert FormatTime(s) == hs + ms && FormatTime(t) == ht + mt;
    LexLessConcat(hs, ms, ht, mt);
    LexLessConcat(":", Pad2(MinuteOfHour(s)), ":", Pad2(MinuteOfHour(t)));
    LexLessIrreflexive(":");
    Pad2Order(Hour(s), Hour(t));
    Pad2Order(MinuteOfHour(s), MinuteOfHour(t));
    Arith.DivModOrder(s, t, 60);
  }

  /** Different times have different texts. */
  lemma FormatTimeInjective(s: Minute, t: Minute)
    ensures FormatTime(s) == FormatTime(t) <==> s == t
  {
    if FormatTime(s) == FormatTime(t) {
      LexLessIrreflexive(FormatTime(s));
      FormatTimeOrder(s, t);
      FormatTimeOrder(t, s);
    }
  }
}
