/** The human-readable uptime of getUptime: whole seconds split into days,
    hours and minutes, printed as "D days, H:MM" or, under a day, "H:MM". */
module Uptime {
  import opened Results
  import opened Strconv

  const SecondsPerMinute: nat := 60
  const SecondsPerHour: nat := 3600
  const SecondsPerDay: nat := 86400

  datatype Uptime = Uptime(days: nat, hours: nat, minutes: nat)

  /** The seconds the whole days, hours and minutes stand for. */
  function Seconds(u: Uptime): nat {
    u.days * SecondsPerDay + u.hours * SecondsPerHour + u.minutes * SecondsPerMinute
  }

  predicate WellFormed(u: Uptime) {
    u.hours < 24 && u.minutes < 60
  }

  /** days = s/86400, hours = (s%86400)/3600, minutes = (s%3600)/60: the
      decomposition loses only the leftover seconds of the current minute. */
  function Decompose(totalSeconds: nat): (u: Uptime)
    ensures WellFormed(u)
    ensures Seconds(u) <= totalSeconds < Seconds(u) + SecondsPerMinute
  {
    var days := totalSeconds / SecondsPerDay;
    var hours := (totalSeconds % SecondsPerDay) / SecondsPerHour;
    var minutes := (totalSeconds % SecondsPerHour) / SecondsPerMinute;
    DecomposeArithmetic(totalSeconds);
    Uptime(days, hours, minutes)
  }

  lemma DecomposeArithmetic(s: nat)
    ensures (s % 86400) / 3600 < 24 && (s % 3600) / 60 < 60
    ensures (s / 86400) * 86400 + ((s % 86400) / 3600) * 3600 + ((s % 3600) / 60) * 60 <= s
    ensures s < (s / 86400) * 86400 + ((s % 86400) / 3600) * 3600 + ((s % 3600) / 60) * 60 + 60
  {
    var d, r := s / 86400, s % 86400;
    assert s == d * 86400 + r;
    var h, q := r / 3600, r % 3600;
    assert r == h * 3600 + q;
    // s % 3600 == r % 3600 because 86400 is a multiple of 3600
    assert s == (d * 24 + h) * 3600 + q;
    assert s % 3600 == q;
    var m := q / 60;
    assert q == m * 60 + q % 60;
  }

  /** Two decimal digits of a minute value, as the %02d verb prints it. */
  function TwoDigits(m: nat): (s: string)
    requires m < 100
    ensures |s| == 2 && AllDigits(s)
    ensures DigitsValue(s) == m
  {
    DigitsRoundTrip(m);
    if m < 10 then
      DigitsValueLeadingZero(Digits(m));
      "0" + Digits(m)
    else
      assert Digits(m) == Digits(m / 10) + [DigitChar(m % 10)];
      Digits(m)
  }

  /** fmt.Sprintf("%d days, %d:%02d", ...) when there is a whole day, else "%d:%02d". */
  function Human(u: Uptime): string
    requires u.minutes < 60
  {
    var clock := Digits(u.hours) + ":" + TwoDigits(u.minutes);
    if u.days > 0 then Digits(u.days) + " days, " + clock else clock
  }

  /** The uptime string published on the uptime/human topic. */
  function UptimeHuman(totalSeconds: nat): string {
    Human(Decompose(totalSeconds))
  }

  /** The number of leading decimal digits of s. */
  function LeadingDigits(s: string): (n: nat)
    ensures n <= |s| && AllDigits(s[..n])
    ensures n < |s| ==> !IsDigit(s[n])
  {
    if |s| == 0 || !IsDigit(s[0]) then 0
    else
      var n := 1 + LeadingDigits(s[1..]);
      assert s[..n] == [s[0]] + s[1..][..n - 1];
      n
  }

  /** A run of digits spelled the way %d prints its value: no leading zero. */
  predicate Canonical(s: string)
    requires AllDigits(s)
  {
    s == Digits(DigitsValue(s))
  }

  /** "H:MM", the clock part of the human string: hours as %d prints them,
      then two minute digits below 60. */
  function ParseClock(s: string): Option<(nat, nat)> {
    var a := LeadingDigits(s);
    if a > 0 && |s| == a + 3 && s[a] == ':' && AllDigits(s[a + 1..])
      && Canonical(s[..a]) && DigitsValue(s[a + 1..]) < 60
    then Some((DigitsValue(s[..a]), DigitsValue(s[a + 1..])))
    else None
  }

  /** "D days, H:MM" with the day digits and the clock already split apart. */
  function ParseDays(days: string, clock: string): Option<Uptime>
    requires AllDigits(days)
  {
    if !Canonical(days) || DigitsValue(days) == 0 then None
    else match ParseClock(clock)
      case Some((h, m)) => Some(Uptime(DigitsValue(days), h, m))
      case None => None
  }

  /** Reads a human uptime string back into days, hours and minutes; the days
      part is present only for a positive number of days, printed as %d. */
  function ParseHuman(s: string): Option<Uptime> {
    var a := LeadingDigits(s);
    var rest := s[a..];
    if a == 0 then None
    else if |rest| >= 7 && rest[..7] == " days, " then ParseDays(s[..a], rest[7..])
    else
      match ParseClock(s)
      case Some((h, m)) => Some(Uptime(0, h, m))
      case None => None
  }

  /** Digits followed by text that does not start with a digit: the run ends where the digits end. */
  lemma {:induction false} LeadingDigitsAppend(a: string, t: string)
    requires AllDigits(a)
    requires |t| == 0 || !IsDigit(t[0])
    ensures LeadingDigits(a + t) == |a|
  {
    if |a| > 0 {
      assert (a + t)[1..] == a[1..] + t;
      LeadingDigitsAppend(a[1..], t);
    } else {
      assert a + t == t;
    }
  }

  lemma ClockRoundTrip(h: nat, m: nat)
    requires m < 60
    ensures ParseClock(Digits(h) + ":" + TwoDigits(m)) == Some((h, m))
  {
    var d := Digits(h);
    var s := d + ":" + TwoDigits(m);
    assert s == d + (":" + TwoDigits(m));
    LeadingDigitsAppend(d, ":" + TwoDigits(m));
    assert s[..|d|] == d;
    assert s[|d| + 1..] == TwoDigits(m);
    DigitsRoundTrip(h);
    assert Canonical(s[..|d|]);
  }

  /** The human string determines the days, hours and minutes it was printed from. */
  lemma HumanRoundTrip(u: Uptime)
    requires u.minutes < 60
    ensures ParseHuman(Human(u)) == Some(u)
  {
    var clock := Digits(u.hours) + ":" + TwoDigits(u.minutes);
    ClockRoundTrip(u.hours, u.minutes);
    if u.days > 0 {
      var d := Digits(u.days);
      var s := d + " days, " + clock;
      assert s == d + (" days, " + clock);
      LeadingDigitsAppend(d, " days, " + clock);
      assert s[..|d|] == d;
      assert s[|d|..][..7] == " days, ";
      assert s[|d|..][7..] == clock;
      DigitsRoundTrip(u.days);
      assert Canonical(s[..|d|]);
    } else {
      LeadingDigitsAppend(Digits(u.hours), ":" + TwoDigits(u.minutes));
      assert clock == Digits(u.hours) + (":" + TwoDigits(u.minutes));
      assert clock[LeadingDigits(clock)..][0] == ':';
    }
  }

  /** Any well-formed split that accounts for the seconds is the one getUptime computes. */
  lemma DecomposeUnique(totalSeconds: nat, u: Uptime)
    requires WellFormed(u)
    requires Seconds(u) <= totalSeconds < Seconds(u) + SecondsPerMinute
    ensures Decompose(totalSeconds) == u
  {
    var v := Decompose(totalSeconds);
    var su := u.hours * 3600 + u.minutes * 60;
    var sv := v.hours * 3600 + v.minutes * 60;
    assert su < 86400 && sv < 86400;
    if u.days < v.days {
      assert false;
    } else if u.days > v.days {
      assert false;
    }
    assert u.days == v.days;
    if u.hours < v.hours {
      assert false;
    } else if u.hours > v.hours {
      assert false;
    }
    assert u.hours == v.hours;
  }

  /** The human string is a bare "H:MM" clock exactly when there are no whole days. */
  lemma ClockOnlyWithoutDays(u: Uptime)
    requires u.minutes < 60
    ensures ParseClock(Human(u)).Some? <==> u.days == 0
  {
    var clock := Digits(u.hours) + ":" + TwoDigits(u.minutes);
    ClockRoundTrip(u.hours, u.minutes);
    if u.days > 0 {
      var d := Digits(u.days);
      var s := d + " days, " + clock;
      assert s == d + (" days, " + clock);
      LeadingDigitsAppend(d, " days, " + clock);
      assert s[|d|] == ' ';
    }
  }

  /** The published string reads back as the decomposition of the uptime, and
      it is a bare "H:MM" clock exactly when the uptime is under a day. */
  lemma UptimeHumanRoundTrip(totalSeconds: nat)
    ensures ParseHuman(UptimeHuman(totalSeconds)) == Some(Decompose(totalSeconds))
    ensures Decompose(totalSeconds).days > 0 <==> totalSeconds >= SecondsPerDay
    ensures ParseClock(UptimeHuman(totalSeconds)).Some? <==> totalSeconds < SecondsPerDay
  {
    HumanRoundTrip(Decompose(totalSeconds));
    ClockOnlyWithoutDays(Decompose(totalSeconds));
  }

  /** Two digits are the %02d spelling of the value they denote. */
  lemma TwoDigitsOfValue(t: string)
    requires |t| == 2 && AllDigits(t)
    ensures DigitsValue(t) < 100 && TwoDigits(DigitsValue(t)) == t
  {
    var hi, lo := DigitValue(t[0]), DigitValue(t[1]);
    assert DigitsValue(t[..1]) == hi by {
      assert t[..1][..0] == [];
    }
    var m := DigitsValue(t);
    assert m == 10 * hi + lo;
    DigitCharOfValue(t[0]);
    DigitCharOfValue(t[1]);
    if hi == 0 {
      assert Digits(m) == [t[1]];
      assert TwoDigits(m) == "0" + [t[1]];
    } else {
      DivModTen(hi, lo);
      assert Digits(hi) == [t[0]];
      assert Digits(m) == [t[0]] + [t[1]];
    }
    assert t == [t[0]] + [t[1]];
  }

  lemma DigitCharOfValue(c: char)
    requires IsDigit(c)
    ensures DigitChar(DigitValue(c)) == c
  {
  }

  lemma DivModTen(hi: nat, lo: nat)
    requires lo < 10
    ensures (10 * hi + lo) / 10 == hi && (10 * hi + lo) % 10 == lo
  {
  }

  /** A clock ParseClock accepts is printed back exactly as it was read. */
  lemma ClockExact(s: string)
    requires ParseClock(s).Some?
    ensures ParseClock(s).value.1 < 60
    ensures Digits(ParseClock(s).value.0) + ":" + TwoDigits(ParseClock(s).value.1) == s
  {
    var a := LeadingDigits(s);
    TwoDigitsOfValue(s[a + 1..]);
    assert s == s[..a] + [s[a]] + s[a + 1..];
  }

  /** A string ParseHuman accepts is exactly what Human prints for the result:
      the spelling of the published uptime is unique. */
  lemma HumanExact(s: string)
    requires ParseHuman(s).Some?
    ensures ParseHuman(s).value.minutes < 60 && Human(ParseHuman(s).value) == s
  {
    var a := LeadingDigits(s);
    var rest := s[a..];
    if |rest| >= 7 && rest[..7] == " days, " {
      var days, clock := s[..a], rest[7..];
      assert ParseHuman(s) == ParseDays(days, clock);
      ParseDaysExact(days, clock);
      assert s == days + " days, " + clock by {
        assert s == s[..a] + rest[..7] + rest[7..];
      }
    } else {
      ClockExact(s);
    }
  }

  lemma ParseDaysExact(days: string, clock: string)
    requires AllDigits(days) && ParseDays(days, clock).Some?
    ensures ParseDays(days, clock).value.minutes < 60
    ensures Human(ParseDays(days, clock).value) == days + " days, " + clock
  {
    ClockExact(clock);
  }

  /** The two uptime topics: the human-readable text and the milliseconds. */
  datatype UptimeStatus = UptimeStatus(human: string, millis: string)

  /** getUptime. The reading is the uptime in whole milliseconds, or None when
      the system call fails, in which case "unknown" and "0" are published. */
  function UptimeOf(reading: Option<nat>): (r: UptimeStatus)
    ensures reading.None? <==> r.human == "unknown"
    ensures reading.None? ==> r.millis == "0"
    ensures reading.Some? ==> ParseHuman(r.human) == Some(Decompose(reading.value / 1000))
    ensures reading.Some? && reading.value <= MaxInt64 ==> Atoi(r.millis) == Some(reading.value)
    ensures reading.Some? ==> |r.millis| > 0 && AllDigits(r.millis) && (r.millis[0] == '0' ==> r.millis == "0")
  {
    match reading
    case None => UptimeStatus("unknown", "0")
    case Some(ms) =>
      UptimeHumanRoundTrip(ms / 1000);
      if ms <= MaxInt64 then AtoiItoa(ms); UptimeStatus(UptimeHuman(ms / 1000), Itoa(ms))
      else UptimeStatus(UptimeHuman(ms / 1000), Itoa(ms))
  }
}
