/**
 * Instants and wall-clock times as the calendar workflow handles them.
 *
 * An instant is an integer number of milliseconds since the epoch, in UTC (the
 * value of `Date.getTime()`). A time of day is a `"HH:MM"` string, which the
 * workflow both parses (as part of an ISO 8601 date-time) and prints back
 * (from `getUTCHours` and `getUTCMinutes`, each padded to two digits).
 */
module Clock {
  import opened Wrappers

  const MinuteMillis: int := 60 * 1000
  const DayMillis: int := 24 * 60 * 60 * 1000
  const MinutesPerDay: nat := 24 * 60

  /** Midnight (UTC) of the day holding instant `t`: the `YYYY-MM-DD` part of `toISOString()`. */
  function DayStart(t: int): (r: int)
    ensures r <= t < r + DayMillis
    ensures r % DayMillis == 0
  {
    t - t % DayMillis
  }

  /** The UTC time of day of instant `t`, in whole minutes: `60 * getUTCHours() + getUTCMinutes()`. */
  function MinuteOfDay(t: int): (r: nat)
    ensures r < MinutesPerDay
    ensures DayStart(t) + r * MinuteMillis <= t < DayStart(t) + (r + 1) * MinuteMillis
  {
    (t % DayMillis) / MinuteMillis
  }

  /** The instant `minute` minutes after midnight of `day`, both in UTC. */
  lemma {:induction false} AtMinute(day: int, minute: nat)
    requires day % DayMillis == 0 && minute < MinutesPerDay
    ensures DayStart(day + minute * MinuteMillis) == day
    ensures MinuteOfDay(day + minute * MinuteMillis) == minute
  {
    var t := day + minute * MinuteMillis;
    var k := day / DayMillis;
    assert day == DayMillis * k;
    assert 0 <= minute * MinuteMillis < DayMillis;
    assert t % DayMillis == minute * MinuteMillis;
  }

  // ---------------------------------------------------------------------------
  // "HH:MM" strings

  predicate IsDigit(c: char) {
    '0' <= c <= '9'
  }

  function Digit(n: nat): (c: char)
    requires n < 10
    ensures IsDigit(c)
  {
    ('0' as int + n) as char
  }

  function DigitValue(c: char): (n: nat)
    requires IsDigit(c)
    ensures n < 10 && Digit(n) == c
  {
    c as int - '0' as int
  }

  /** `String(n).padStart(2, '0')` for a number below 100. */
  function Pad2(n: nat): (s: string)
    requires n < 100
    ensures |s| == 2 && IsDigit(s[0]) && IsDigit(s[1])
    ensures 10 * DigitValue(s[0]) + DigitValue(s[1]) == n
  {
    [Digit(n / 10), Digit(n % 10)]
  }

  /** The `"HH:MM"` text the workflow prints for a time of day given in minutes. */
  function Format(minute: nat): (s: string)
    requires minute < MinutesPerDay
    ensures |s| == 5 && s[2] == ':'
  {
    Pad2(minute / 60) + ":" + Pad2(minute % 60)
  }

  /**
   * The time of day an `"HH:MM"` string denotes inside an ISO 8601 date-time,
   * or `None` when the date-time it completes is invalid (two digits of hour
   * below 24, a colon, two digits of minute below 60).
   */
  function Parse(s: string): (r: Option<nat>)
    ensures r.Some? ==> r.value < MinutesPerDay
  {
    if |s| == 5 && IsDigit(s[0]) && IsDigit(s[1]) && s[2] == ':' && IsDigit(s[3]) && IsDigit(s[4]) then
      var h := 10 * DigitValue(s[0]) + DigitValue(s[1]);
      var m := 10 * DigitValue(s[3]) + DigitValue(s[4]);
      if h < 24 && m < 60 then Some(60 * h + m) else None
    else None
  }

  /** Every printed time parses back to itself. */
  lemma FormatParse(minute: nat)
    requires minute < MinutesPerDay
    ensures Parse(Format(minute)) == Some(minute)
  {
    var s := Format(minute);
    assert s[..2] == Pad2(minute / 60) && s[3..] == Pad2(minute % 60);
  }

  /** Every time that parses is printed exactly as it was written. */
  lemma ParseFormat(s: string)
    requires Parse(s).Some?
    ensures Format(Parse(s).value) == s
  {
    var m := Parse(s).value;
    var f := Format(m);
    assert Digit(DigitValue(s[0])) == s[0] && Digit(DigitValue(s[1])) == s[1];
    assert m / 60 == 10 * DigitValue(s[0]) + DigitValue(s[1]);
    assert m % 60 == 10 * DigitValue(s[3]) + DigitValue(s[4]);
    assert f[0] == s[0] && f[1] == s[1] && f[3] == s[3] && f[4] == s[4];
  }

  // ---------------------------------------------------------------------------
  // String order

  /** JavaScript's `a < b` on strings: code-unit lexicographic order, a proper prefix first. */
  function LexLess(a: string, b: string): bool {
    if |a| == 0 then |b| > 0
    else if |b| == 0 then false
    else if a[0] != b[0] then a[0] < b[0]
    else LexLess(a[1..], b[1..])
  }

  /** A common prefix does not decide the order. */
  lemma {:induction false} LexLessCommonPrefix(p: string, s: string, t: string)
    ensures LexLess(p + s, p + t) == LexLess(s, t)
    decreases |p|
  {
    if p != [] {
      assert (p + s)[0] == (p + t)[0] && |p + s| > 0 && |p + t| > 0;
      assert (p + s)[1..] == p[1..] + s && (p + t)[1..] == p[1..] + t;
      LexLessCommonPrefix(p[1..], s, t);
    } else {
      assert p + s == s && p + t == t;
    }
  }

  /** Two different prefixes of the same length decide the order. */
  lemma {:induction false} LexLessDifferentPrefix(p: string, q: string, s: string, t: string)
    requires |p| == |q| && p != q
    ensures LexLess(p + s, q + t) == LexLess(p, q)
    decreases |p|
  {
    if p[0] == q[0] {
      assert p[1..] != q[1..] by {
        assert p == [p[0]] + p[1..] && q == [q[0]] + q[1..];
      }
      assert (p + s)[1..] == p[1..] + s && (q + t)[1..] == q[1..] + t;
      LexLessDifferentPrefix(p[1..], q[1..], s, t);
    }
  }

  /** On two digits, comparing the tens and then the units compares the numbers. */
  lemma Pad2Order(x: nat, y: nat)
    requires x < 100 && y < 100
    ensures LexLess(Pad2(x), Pad2(y)) <==> x < y
  {
    var a, b := Pad2(x), Pad2(y);
    if x / 10 != y / 10 {
      assert a[0] != b[0];
      assert LexLess(a, b) == (x / 10 < y / 10);
    } else {
      assert a[1..] == [a[1]] && b[1..] == [b[1]];
      assert (a[1] < b[1]) == (x % 10 < y % 10);
      assert LexLess(a[1..], b[1..]) == (a[1] < b[1]) by {
        assert a[1..][1..] == [] && b[1..][1..] == [];
      }
    }
  }

  /** The lexicographic order of two printed times is the order of the times. */
  lemma {:induction false} FormatOrder(x: nat, y: nat)
    requires x < MinutesPerDay && y < MinutesPerDay
    ensures LexLess(Format(x), Format(y)) <==> x < y
  {
    var ha, hb := Pad2(x / 60), Pad2(y / 60);
    var ma, mb := Pad2(x % 60), Pad2(y % 60);
    Pad2Order(x / 60, y / 60);
    Pad2Order(x % 60, y % 60);
    if x / 60 == y / 60 {
      LexLessCommonPrefix(ha + ":", ma, mb);
    } else {
      assert ha != hb by {
        assert 10 * DigitValue(ha[0]) + DigitValue(ha[1]) == x / 60;
      }
      assert Format(x) == ha + (":" + ma) && Format(y) == hb + (":" + mb);
      LexLessDifferentPrefix(ha, hb, ":" + ma, ":" + mb);
    }
  }
}
