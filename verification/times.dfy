/** Wall-clock times of day as the scheduler handles them: zero-padded
    `"HH:MM"` strings, compared as strings. */
module Times {
  import opened Text

  /** A well-formed `"HH:MM"` string, as `strftime("%H:%M")` produces. */
  predicate ValidTime(s: string) {
    && |s| == 5
    && IsDigit(s[0]) && IsDigit(s[1]) && s[2] == ':' && IsDigit(s[3]) && IsDigit(s[4])
    && DigitValue(s[0]) * 10 + DigitValue(s[1]) < 24
    && DigitValue(s[3]) * 10 + DigitValue(s[4]) < 60
  }

  function Hours(s: string): nat
    requires ValidTime(s)
  {
    DigitValue(s[0]) * 10 + DigitValue(s[1])
  }

  function MinuteOfHour(s: string): nat
    requires ValidTime(s)
  {
    DigitValue(s[3]) * 10 + DigitValue(s[4])
  }

  /** Minutes since midnight. */
  function Minutes(s: string): (r: nat)
    requires ValidTime(s)
    ensures r < 24 * 60
  {
    Hours(s) * 60 + MinuteOfHour(s)
  }

  /** `strftime("%H:%M")` of an hour and a minute. */
  function FormatTime(h: nat, m: nat): (s: string)
    requires h < 24 && m < 60
    ensures ValidTime(s)
    ensures Minutes(s) == h * 60 + m
  {
    Pad2(h) + ":" + Pad2(m)
  }

  /** `strftime("%H%M")`: the same clock reading without the colon. */
  function CompactTime(h: nat, m: nat): (s: string)
    requires h < 24 && m < 60
    ensures |s| == 4
  {
    Pad2(h) + Pad2(m)
  }

  lemma LtStep(a: string, b: string)
    requires |a| > 0 && |b| > 0
    ensures Lt(a, b) <==> a[0] < b[0] || (a[0] == b[0] && Lt(a[1..], b[1..]))
  {
  }

  lemma DigitOrder(c: char, d: char)
    requires IsDigit(c) && IsDigit(d)
    ensures c < d <==> DigitValue(c) < DigitValue(d)
    ensures c == d <==> DigitValue(c) == DigitValue(d)
  {
  }

  /** For well-formed times, string order is the order of the clock: this is
      what makes the scheduler's string comparisons meaningful. */
  lemma LtIsMinuteOrder(a: string, b: string)
    requires ValidTime(a) && ValidTime(b)
    ensures Lt(a, b) <==> Minutes(a) < Minutes(b)
  {
    LtStep(a, b);
    LtStep(a[1..], b[1..]);
    LtStep(a[2..], b[2..]);
    LtStep(a[3..], b[3..]);
    LtStep(a[4..], b[4..]);
    assert a[1..][1..] == a[2..] && b[1..][1..] == b[2..];
    assert a[2..][1..] == a[3..] && b[2..][1..] == b[3..];
    assert a[3..][1..] == a[4..] && b[3..][1..] == b[4..];
    assert a[4..][1..] == [] && b[4..][1..] == [];
    DigitOrder(a[0], b[0]);
    DigitOrder(a[1], b[1]);
    DigitOrder(a[3], b[3]);
    DigitOrder(a[4], b[4]);
  }

  /** Equal well-formed times are equal minutes, and conversely. */
  lemma EqIsMinuteEq(a: string, b: string)
    requires ValidTime(a) && ValidTime(b)
    ensures a == b <==> Minutes(a) == Minutes(b)
  {
    LtIsMinuteOrder(a, b);
    LtIsMinuteOrder(b, a);
    LtTrichotomy(a, b);
    if a == b { LtIrreflexive(a); }
  }
}
