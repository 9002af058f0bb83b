/**
 * The quarantine directory name: a UTC time formatted with
 * `strftime('%m-%d-%Y.%H:%M:%S')`, i.e. `MM-DD-YYYY.HH:MM:SS`, every field
 * zero-padded. The clock itself is not modelled: the time is a parameter.
 */
module Timestamps {
  import opened Wrappers
  import Paths
  import opened Digests

  datatype DateTime = DateTime(year: int, month: int, day: int, hour: int, minute: int, second: int)

  /** The values a Python 2 `datetime` can hold and format (`strftime` refuses
      years before 1900). */
  predicate Valid(t: DateTime)
  {
    1900 <= t.year <= 9999 && 1 <= t.month <= 12 && 1 <= t.day <= 31 &&
    0 <= t.hour <= 23 && 0 <= t.minute <= 59 && 0 <= t.second <= 59
  }

  function DigitChar(d: int): (c: char)
    requires 0 <= d < 10
    ensures IsDigit(c)
  {
    ('0' as int + d) as char
  }

  function DigitValue(c: char): int
  {
    c as int - '0' as int
  }

  /** Two zero-padded digits (`%m`, `%d`, `%H`, `%M`, `%S`). */
  function Digits2(n: int): (s: string)
    requires 0 <= n < 100
    ensures |s| == 2 && IsDigit(s[0]) && IsDigit(s[1])
  {
    [DigitChar(n / 10), DigitChar(n % 10)]
  }

  /** Four digits (`%Y`). */
  function Digits4(n: int): (s: string)
    requires 0 <= n < 10000
    ensures |s| == 4 && forall i :: 0 <= i < 4 ==> IsDigit(s[i])
  {
    [DigitChar(n / 1000), DigitChar(n / 100 % 10), DigitChar(n / 10 % 10), DigitChar(n % 10)]
  }

  /** `t.strftime('%m-%d-%Y.%H:%M:%S')` */
  function Format(t: DateTime): (s: string)
    requires Valid(t)
    ensures |s| == 19 && Paths.NoSlash(s)
  {
    Digits2(t.month) + "-" + Digits2(t.day) + "-" + Digits4(t.year) + "." +
    Digits2(t.hour) + ":" + Digits2(t.minute) + ":" + Digits2(t.second)
  }

  function Value2(s: string): int
    requires |s| == 2
  {
    10 * DigitValue(s[0]) + DigitValue(s[1])
  }

  function Value4(s: string): int
    requires |s| == 4
  {
    1000 * DigitValue(s[0]) + 100 * DigitValue(s[1]) + 10 * DigitValue(s[2]) + DigitValue(s[3])
  }

  /** Reads a directory name back into the time it was made from. */
  function Parse(s: string): Option<DateTime>
  {
    if |s| == 19 && s[2] == '-' && s[5] == '-' && s[10] == '.' && s[13] == ':' && s[16] == ':' then
      Some(DateTime(Value4(s[6..10]), Value2(s[0..2]), Value2(s[3..5]),
                    Value2(s[11..13]), Value2(s[14..16]), Value2(s[17..19])))
    else None
  }

  lemma Digits2RoundTrip(n: int)
    requires 0 <= n < 100
    ensures Value2(Digits2(n)) == n
  {
  }

  lemma Digits4RoundTrip(n: int)
    requires 0 <= n < 10000
    ensures Value4(Digits4(n)) == n
  {
    var a, b, c, d := n / 1000, n / 100 % 10, n / 10 % 10, n % 10;
    assert n / 100 == 10 * a + b;
    assert n / 10 == 10 * (n / 100) + c;
    assert n == 10 * (n / 10) + d;
  }

  /** Formatting loses nothing: the directory name determines the time. */
  lemma {:induction false} ParseFormat(t: DateTime)
    requires Valid(t)
    ensures Parse(Format(t)) == Some(t)
  {
    var s := Format(t);
    Digits2RoundTrip(t.month);
    Digits2RoundTrip(t.day);
    Digits4RoundTrip(t.year);
    Digits2RoundTrip(t.hour);
    Digits2RoundTrip(t.minute);
    Digits2RoundTrip(t.second);
    assert s[0..2] == Digits2(t.month);
    assert s[3..5] == Digits2(t.day);
    assert s[6..10] == Digits4(t.year);
    assert s[11..13] == Digits2(t.hour);
    assert s[14..16] == Digits2(t.minute);
    assert s[17..19] == Digits2(t.second);
  }

  /** Two different times (to the second) never share a quarantine directory. */
  lemma FormatInjective(t1: DateTime, t2: DateTime)
    requires Valid(t1) && Valid(t2) && Format(t1) == Format(t2)
    ensures t1 == t2
  {
    ParseFormat(t1);
    ParseFormat(t2);
  }
}
