/**
 * The wall clock as the lock service reads it. An instant is a whole number
 * of seconds on the local clock; the schedule rule only ever looks at the
 * minute of the day, rendered as zero-padded "HH:MM" text.
 */
module Clock {

  const SecondsPerMinute := 60
  const MinutesPerDay := 1440

  /** The minute of the day (0 .. 1439) that the instant falls in. */
  function MinuteOfDay(now: int): (m: int)
    ensures 0 <= m < MinutesPerDay
  {
    (now / SecondsPerMinute) % MinutesPerDay
  }

  predicate IsDigit(c: char) {
    '0' <= c <= '9'
  }

  function DigitValue(c: char): (d: int)
    requires IsDigit(c)
    ensures 0 <= d < 10
  {
    c as int - '0' as int
  }

  function DigitChar(d: int): (c: char)
    requires 0 <= d < 10
    ensures IsDigit(c) && DigitValue(c) == d
  {
    ('0' as int + d) as char
  }

  lemma DigitCharOfValue(c: char)
    requires IsDigit(c)
    ensures DigitChar(DigitValue(c)) == c
  {
  }

  /** The texts "00:00" .. "23:59": the only texts `HHMM` produces. */
  predicate IsClockText(s: string) {
    && |s| == 5
    && IsDigit(s[0]) && IsDigit(s[1]) && s[2] == ':' && IsDigit(s[3]) && IsDigit(s[4])
    && DigitValue(s[0]) * 10 + DigitValue(s[1]) < 24
    && DigitValue(s[3]) < 6
  }

  /** The minute of the day that a clock text names. */
  function ClockTextMinute(s: string): (m: int)
    requires IsClockText(s)
    ensures 0 <= m < MinutesPerDay
  {
    (DigitValue(s[0]) * 10 + DigitValue(s[1])) * 60 + DigitValue(s[3]) * 10 + DigitValue(s[4])
  }

  /**
   * `strftime('%H:%M')` of the instant: two-digit hour, a colon and a
   * two-digit minute.
   */
  function HHMM(now: int): (s: string)
    ensures IsClockText(s) && ClockTextMinute(s) == MinuteOfDay(now)
  {
    var m := MinuteOfDay(now);
    var h, mm := m / 60, m % 60;
    [DigitChar(h / 10), DigitChar(h % 10), ':', DigitChar(mm / 10), DigitChar(mm % 10)]
  }

  lemma DivModUnique(q: int, r: int, n: int)
    requires n == 10 || n == 60
    requires 0 <= r < n
    ensures (q * n + r) / n == q && (q * n + r) % n == r
  {
    if n == 10 {
      assert q * 10 + r == q * n + r;
    } else {
      assert q * 60 + r == q * n + r;
    }
  }

  /**
   * A configured time matches the clock exactly when it is a well-formed
   * clock text naming the current minute: no other text ever matches, so a
   * malformed time ("6:00", "24:00", "noon") never fires.
   */
  lemma {:induction false} HHMMMatches(now: int, s: string)
    ensures HHMM(now) == s <==> IsClockText(s) && ClockTextMinute(s) == MinuteOfDay(now)
  {
    if IsClockText(s) && ClockTextMinute(s) == MinuteOfDay(now) {
      var t := HHMM(now);
      var h, mm := DigitValue(s[0]) * 10 + DigitValue(s[1]), DigitValue(s[3]) * 10 + DigitValue(s[4]);
      DivModUnique(h, mm, 60);
      DivModUnique(DigitValue(s[0]), DigitValue(s[1]), 10);
      DivModUnique(DigitValue(s[3]), DigitValue(s[4]), 10);
      DigitCharOfValue(s[0]);
      DigitCharOfValue(s[1]);
      DigitCharOfValue(s[3]);
      DigitCharOfValue(s[4]);
      assert t[0] == s[0] && t[1] == s[1] && t[2] == s[2] && t[3] == s[3] && t[4] == s[4];
    }
  }

  /** Two instants render to the same "HH:MM" exactly when they fall in the same minute of the day. */
  lemma {:induction false} SameTextSameMinute(a: int, b: int)
    ensures HHMM(a) == HHMM(b) <==> MinuteOfDay(a) == MinuteOfDay(b)
  {
    HHMMMatches(b, HHMM(a));
  }
}
