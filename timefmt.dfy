/** Durations shown as text: `format_timedelta` (HH:MM:SS of a time
    difference) and the hours-and-minutes wording of a Permission's minutes
    in the leave e-mail. */
module TimeFormat {
  import opened Wrappers
  import opened Text

  /** Python's `int(x)` on a float: truncation toward zero. */
  function Trunc(x: real): (n: int)
    ensures x >= 0.0 ==> 0.0 <= n as real <= x < n as real + 1.0
    ensures x < 0.0 ==> n as real - 1.0 < x <= n as real <= 0.0
  {
    if x >= 0.0 then x.Floor else -((-x).Floor)
  }

  /** `f"{n:02d}"`: at least two characters, zero-padded after the sign. */
  function Pad2(n: int): (s: string)
    ensures |s| >= 2
  {
    ZFill(IntToString(n), 2)
  }

  datatype Clock = Clock(hours: int, minutes: int, seconds: int)

  /** Euclidean division by 60 is unique. */
  lemma DivModSixty(n: int, a: int, b: int)
    requires n == 60 * a + b && 0 <= b < 60
    ensures n / 60 == a && n % 60 == b
  {
  }

  /** `//` and `%` on a positive divisor floor in Python, as in Dafny. */
  lemma DivModSplit(total: int, q: int, r: int)
    requires q == total / 3600 && r == total % 3600
    ensures q * 3600 + (r / 60) * 60 + total % 60 == total
    ensures 0 <= r / 60 < 60 && total % 60 == r % 60
  {
    var a, b := r / 60, r % 60;
    assert r == 60 * a + b && 0 <= b < 60;
    assert 0 <= a < 60;
    DivModSixty(total, 60 * q + a, b);
  }

  /** Hours, minutes and seconds of a whole number of seconds:
      `total // 3600`, `(total % 3600) // 60`, `total % 60`. */
  function Split(total: int): (c: Clock)
    ensures c.hours * 3600 + c.minutes * 60 + c.seconds == total
    ensures 0 <= c.minutes < 60 && 0 <= c.seconds < 60
  {
    DivModSplit(total, total / 3600, total % 3600);
    Clock(total / 3600, (total % 3600) / 60, total % 60)
  }

  /** `format_timedelta`: an em dash without a value, otherwise the whole
      seconds (truncated) as HH:MM:SS. `seconds` is `td.total_seconds()`. */
  function FormatTimedelta(seconds: Option<real>): (s: string)
    ensures seconds.None? <==> s == "—"
  {
    match seconds
    case None => "—"
    case Some(x) =>
      var c := Split(Trunc(x));
      Pad2(c.hours) + ":" + Pad2(c.minutes) + ":" + Pad2(c.seconds)
  }

  lemma TwoDigits(n: int)
    requires 0 <= n < 60
    ensures |Pad2(n)| == 2 && ParseInt(Pad2(n)) == Some(n)
  {
    ParseZFilledInt(n, 2);
    if n >= 10 {
      assert |NatToString(n / 10)| == 1;
    }
  }

  /** Where the fields of `h:m:s` sit when m and s have two characters. */
  lemma Fields(h: string, m: string, sec: string)
    requires |m| == 2 && |sec| == 2
    ensures var s := h + ":" + m + ":" + sec;
      |s| == |h| + 6 && s[|s| - 6] == ':' && s[|s| - 3] == ':'
      && s[..|s| - 6] == h && s[|s| - 5..|s| - 3] == m && s[|s| - 2..] == sec
  {
    var s := h + ":" + m + ":" + sec;
    assert s[..|s| - 6] == h;
    assert s[|s| - 5..|s| - 3] == m;
    assert s[|s| - 2..] == sec;
  }

  /** The text reads back: the fields before, between and after the two
      last colons parse to hours, minutes and seconds that recombine into the
      truncated total, with minutes and seconds in 0..59 and two digits each. */
  lemma FormatReadsBack(x: real)
    ensures var s := FormatTimedelta(Some(x));
      var c := Split(Trunc(x));
      |s| >= 8 && s[|s| - 6] == ':' && s[|s| - 3] == ':'
      && ParseInt(s[..|s| - 6]) == Some(c.hours)
      && ParseInt(s[|s| - 5..|s| - 3]) == Some(c.minutes)
      && ParseInt(s[|s| - 2..]) == Some(c.seconds)
      && c.hours * 3600 + c.minutes * 60 + c.seconds == Trunc(x)
      && 0 <= c.minutes < 60 && 0 <= c.seconds < 60
  {
    var c := Split(Trunc(x));
    TwoDigits(c.minutes);
    TwoDigits(c.seconds);
    ParseZFilledInt(c.hours, 2);
    Fields(Pad2(c.hours), Pad2(c.minutes), Pad2(c.seconds));
  }

  /** A zero difference shows as 00:00:00, as does any below one second. */
  lemma SubSecondIsZero(x: real)
    requires -1.0 < x < 1.0
    ensures FormatTimedelta(Some(x)) == "00:00:00"
  {
    assert Trunc(x) == 0;
    assert Pad2(0) == "00";
  }

  // ------------------------------------------------ permission minutes

  datatype HoursMinutes = HoursMinutes(hrs: int, mins: int)

  /** `int(m) // 60` and `int(m) % 60`. */
  function MinutesSplit(minutes: int): (r: HoursMinutes)
    ensures r.hrs * 60 + r.mins == minutes && 0 <= r.mins < 60
  {
    HoursMinutes(minutes / 60, minutes % 60)
  }

  /** The wording of a Permission's duration in the leave e-mail; no line
      when the application has no minutes. */
  function PermissionDuration(minutes: Option<int>): (r: Option<string>)
    ensures r.Some? <==> minutes.Some?
  {
    match minutes
    case None => None
    case Some(t) =>
      var hm := MinutesSplit(t);
      Some(if hm.hrs >= 1 && hm.mins > 0 then IntToString(hm.hrs) + " hr(s) " + IntToString(hm.mins) + " min(s)"
           else if hm.hrs >= 1 then IntToString(hm.hrs) + " hr(s)"
           else if hm.mins > 0 then IntToString(hm.mins) + " min(s)"
           else "0 min")
  }

  /** In equal concatenations whose first part is the shorter one, the
      character after it comes from the longer first part. */
  lemma CharAfter(a: string, r1: string, b: string, r2: string)
    ensures |a| < |b| && |r1| >= 1 && a + r1 == b + r2 ==> r1[0] == b[|a|]
  {
    if |a| < |b| && |r1| >= 1 && a + r1 == b + r2 {
      assert (a + r1)[|a|] == r1[0];
    }
  }

  /** A digit run followed by non-digit text is not shorter than another
      digit run the same string starts with. */
  lemma DigitRunLength(x: nat, y: nat, r1: string, r2: string)
    requires |r1| >= 1 && !IsDigit(r1[0])
    requires NatToString(x) + r1 == NatToString(y) + r2
    ensures |NatToString(x)| >= |NatToString(y)|
  {
    var a, b := NatToString(x), NatToString(y);
    if |a| < |b| {
      CharAfter(a, r1, b, r2);
      assert false;
    }
  }

  /** Two digit runs followed by non-digit text: equal strings have equal
      numbers and equal tails. */
  lemma DigitPrefix(x: nat, y: nat, r1: string, r2: string)
    requires |r1| >= 1 && |r2| >= 1 && !IsDigit(r1[0]) && !IsDigit(r2[0])
    requires NatToString(x) + r1 == NatToString(y) + r2
    ensures x == y && r1 == r2
  {
    var a, b := NatToString(x), NatToString(y);
    var s := a + r1;
    DigitRunLength(x, y, r1, r2);
    DigitRunLength(y, x, r2, r1);
    assert a == s[..|a|] == b;
    assert r1 == s[|a|..] == r2;
    DigitsOfNat(x);
    DigitsOfNat(y);
  }

  /** Every wording is a number followed by a tail naming its unit. */
  function Tail(t: nat): string
  {
    var hm := MinutesSplit(t);
    if hm.hrs >= 1 && hm.mins > 0 then " hr(s) " + NatToString(hm.mins) + " min(s)"
    else if hm.hrs >= 1 then " hr(s)"
    else if hm.mins > 0 then " min(s)"
    else " min"
  }

  function Lead(t: nat): nat
  {
    var hm := MinutesSplit(t);
    if hm.hrs >= 1 then hm.hrs else hm.mins
  }

  lemma Shape(t: nat)
    ensures PermissionDuration(Some(t)) == Some(NatToString(Lead(t)) + Tail(t))
    ensures |Tail(t)| >= 1 && !IsDigit(Tail(t)[0])
  {
    var hm := MinutesSplit(t);
    if hm.hrs >= 1 && hm.mins > 0 {
      assert IntToString(hm.hrs) + " hr(s) " + IntToString(hm.mins) + " min(s)"
          == NatToString(hm.hrs) + (" hr(s) " + NatToString(hm.mins) + " min(s)");
    } else if hm.hrs < 1 && hm.mins == 0 {
      assert "0 min" == NatToString(0) + " min";
    }
  }

  /** For a non-negative number of minutes the wording determines the
      duration: different minutes never read the same. */
  lemma PermissionDurationInjective(a: nat, b: nat)
    requires PermissionDuration(Some(a)) == PermissionDuration(Some(b))
    ensures a == b
  {
    Shape(a);
    Shape(b);
    DigitPrefix(Lead(a), Lead(b), Tail(a), Tail(b));
    var ha, hb := MinutesSplit(a), MinutesSplit(b);
    if ha.hrs >= 1 && ha.mins > 0 && hb.hrs >= 1 && hb.mins > 0 {
      var pre := " hr(s) ";
      assert Tail(a) == pre + (NatToString(ha.mins) + " min(s)");
      assert Tail(b) == pre + (NatToString(hb.mins) + " min(s)");
      assert NatToString(ha.mins) + " min(s)" == Tail(a)[|pre|..] == Tail(b)[|pre|..] == NatToString(hb.mins) + " min(s)";
      DigitPrefix(ha.mins, hb.mins, " min(s)", " min(s)");
    }
  }

  /** "0 min" is shown exactly for zero minutes among non-negative values. */
  lemma ZeroMinutesWording(t: nat)
    ensures PermissionDuration(Some(t)) == Some("0 min") <==> t == 0
  {
    if PermissionDuration(Some(t)) == Some("0 min") {
      PermissionDurationInjective(t, 0);
    }
  }
}
