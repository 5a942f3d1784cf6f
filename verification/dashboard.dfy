/**
 * The two pieces of arithmetic on the progress dashboard
 * (ProgressDashboard.tsx): the practice-time label `formatTime` (lines
 * 55-59) and the divisor of the streak bar (line 123).
 */
module Dashboard {
  import opened Wrappers
  import opened Text

  predicate IsDigit(c: char)
  {
    '0' <= c <= '9'
  }

  predicate AllDigits(s: string)
  {
    forall i :: 0 <= i < |s| ==> IsDigit(s[i])
  }

  function DigitChar(d: nat): (c: char)
    requires d < 10
    ensures IsDigit(c) && c as int - '0' as int == d
  {
    ('0' as int + d) as char
  }

  /** The decimal numeral of `n`, as a template literal prints a
      non-negative integer below 2^53 (larger numbers print in exponent
      notation from 1e21 on, and lose digits before that). */
  function Decimal(n: nat): (s: string)
    ensures |s| > 0 && AllDigits(s)
    decreases n
  {
    if n < 10 then [DigitChar(n)] else Decimal(n / 10) + [DigitChar(n % 10)]
  }

  /** Numerals are not padded: only zero itself is printed with a leading
      `0`. */
  lemma {:induction false} DecimalUnpadded(n: nat)
    ensures Decimal(n)[0] == '0' <==> n == 0
    decreases n
  {
    if n >= 10 {
      DecimalUnpadded(n / 10);
      assert Decimal(n)[0] == Decimal(n / 10)[0];
    }
  }

  /** The number a string of digits denotes. */
  function ValueOf(s: string): nat
    requires AllDigits(s)
    decreases |s|
  {
    if |s| == 0 then 0 else ValueOf(s[..|s| - 1]) * 10 + (s[|s| - 1] as int - '0' as int)
  }

  /** Numerals read back as the number printed. */
  lemma {:induction false} DecimalRoundTrip(n: nat)
    ensures ValueOf(Decimal(n)) == n
    decreases n
  {
    if n >= 10 {
      var s := Decimal(n);
      assert s[..|s| - 1] == Decimal(n / 10);
      DecimalRoundTrip(n / 10);
    }
  }

  /** A duration in whole hours and minutes. */
  datatype Duration = Duration(hours: nat, minutes: nat)

  /** `Math.floor(seconds / 3600)` hours and `Math.floor((seconds % 3600) / 60)`
      minutes: the largest whole hours and then whole minutes that fit, with
      leftover seconds dropped. */
  function Split(seconds: nat): (d: Duration)
    ensures d.minutes < 60
    ensures 3600 * d.hours + 60 * d.minutes <= seconds < 3600 * d.hours + 60 * d.minutes + 60
  {
    Duration(seconds / 3600, (seconds % 3600) / 60)
  }

  /** The bounds of `Split` single out its result. */
  lemma SplitUnique(seconds: nat, hours: nat, minutes: nat)
    requires minutes < 60
    requires 3600 * hours + 60 * minutes <= seconds < 3600 * hours + 60 * minutes + 60
    ensures Split(seconds) == Duration(hours, minutes)
  {
    var d := Split(seconds);
    assert 3600 * hours <= seconds < 3600 * hours + 3600;
    assert 3600 * d.hours <= seconds < 3600 * d.hours + 3600;
  }

  /** The practice-time label: `"{h}h {m}m"` when there is a whole hour,
      `"{m}m"` otherwise. */
  function FormatTime(seconds: nat): (s: string)
    ensures |s| > 0 && s[|s| - 1] == 'm'
    ensures 'h' in s <==> seconds >= 3600
  {
    var d := Split(seconds);
    var minutes := Decimal(d.minutes) + "m";
    if d.hours > 0 then
      var s := Decimal(d.hours) + "h " + minutes;
      assert s[|Decimal(d.hours)|] == 'h';
      s
    else
      assert forall i :: 0 <= i < |minutes| ==> minutes[i] != 'h' by {
        assert forall i :: 0 <= i < |minutes| - 1 ==> minutes[i] == Decimal(d.minutes)[i];
      }
      minutes
  }

  /** Reads a label back into hours and minutes; `None` if it is not one. */
  function ParseTime(s: string): (d: Option<Duration>)
  {
    if |s| == 0 || s[|s| - 1] != 'm' then None
    else
      var body := s[..|s| - 1];
      match IndexOf(body, 'h')
      case None =>
        if |body| > 0 && AllDigits(body) then Some(Duration(0, ValueOf(body))) else None
      case Some(i) =>
        var hours := body[..i];
        var rest := body[i + 1..];
        if |hours| > 0 && AllDigits(hours) && |rest| > 1 && rest[0] == ' ' && AllDigits(rest[1..])
        then Some(Duration(ValueOf(hours), ValueOf(rest[1..])))
        else None
  }

  /** The first 'h' of a text is at `k` when there is one at `k` and none
      before. */
  lemma FirstAt(s: string, k: nat)
    requires k < |s| && s[k] == 'h'
    requires forall i :: 0 <= i < k ==> s[i] != 'h'
    ensures IndexOf(s, 'h') == Some(k)
  {
    assert s[k] in s;
  }

  /** The label reads back as the hours and minutes it was made from. */
  lemma FormatRoundTrip(seconds: nat)
    ensures ParseTime(FormatTime(seconds)) == Some(Split(seconds))
  {
    var d := Split(seconds);
    var s := FormatTime(seconds);
    var body := s[..|s| - 1];
    var m := Decimal(d.minutes);
    DecimalRoundTrip(d.minutes);
    DecimalRoundTrip(d.hours);
    if d.hours > 0 {
      var h := Decimal(d.hours);
      assert body == h + "h " + m;
      FirstAt(body, |h|);
      assert body[..|h|] == h;
      assert body[|h| + 1..][1..] == m;
    } else {
      assert body == m;
      assert 'h' !in body;
    }
  }

  /** `Math.max(longest_streak, 1)`: never below one, so the streak ratio is
      always defined. */
  function StreakDivisor(longest: int): (d: int)
    ensures d >= 1 && d >= longest
    ensures d == longest || d == 1
  {
    if longest > 1 then longest else 1
  }
}
