/** internal/calendar/caldav/id.go: the opaque ids of an event and of one occurrence of a
    series. */
module InstanceIds {
  import opened Wrappers
  import opened Decimal
  import opened MessageIds

  /** A whole-second UTC instant by its calendar fields. */
  datatype Instant = Instant(year: int, month: nat, day: nat, hour: nat, minute: nat, second: nat)

  datatype Error = BadEventId | BadRecurrenceId

  datatype Target = Target(path: string, recurrenceId: Option<Instant>)

  const SEPARATOR: char := ' '

  predicate IsLeap(year: int) { year % 4 == 0 && (year % 100 != 0 || year % 400 == 0) }

  function DaysIn(month: nat, year: int): nat {
    if month == 2 then (if IsLeap(year) then 29 else 28)
    else if month in {4, 6, 9, 11} then 30
    else 31
  }

  predicate Valid(t: Instant) {
    1 <= t.month <= 12 && 1 <= t.day <= DaysIn(t.month, t.year) && t.hour < 24 && t.minute < 60 && t.second < 60
  }

  /** Decimal digits, zero-padded to at least the given width. */
  function Padded(n: nat, width: nat): (s: string)
    ensures AllDigits(s) && |s| >= width
    decreases n, width
  {
    if width == 0 && n == 0 then ""
    else Padded(n / 10, if width == 0 then 0 else width - 1) + [DigitChar(n % 10)]
  }

  /** Time.Format with the layout "20060102T150405Z". */
  function FormatInstant(t: Instant): string {
    (if t.year < 0 then "-" + Padded(-t.year, 4) else Padded(t.year, 4)) +
    Padded(t.month, 2) + Padded(t.day, 2) + "T" + Padded(t.hour, 2) + Padded(t.minute, 2) + Padded(t.second, 2) + "Z"
  }

  /** time.Parse with the same layout, on text without fractional seconds. */
  function ParseInstant(s: string): Option<Instant> {
    if |s| != 16 || !AllDigits(s[..8]) || s[8] != 'T' || !AllDigits(s[9..15]) || s[15] != 'Z' then None
    else
      var date, clock := s[..8], s[9..15];
      var t := Instant(Value(date[..4]), Value(date[4..6]), Value(date[6..]), Value(clock[..2]), Value(clock[2..4]), Value(clock[4..]));
      if Valid(t) then Some(t) else None
  }

  function EventId(path: string): Opaque { Base64Url(path) }

  function InstanceEventId(path: string, t: Instant): Opaque { Base64Url(path + [SEPARATOR] + FormatInstant(t)) }

  function LastIndex(s: string, c: char): (i: int)
    ensures -1 <= i < |s| && (i >= 0 ==> s[i] == c && c !in s[i + 1..]) && (i < 0 ==> c !in s)
  {
    if s == "" then -1
    else if s[|s| - 1] == c then |s| - 1
    else
      var i := LastIndex(s[..|s| - 1], c);
      assert s[i + 1..] == s[..|s| - 1][i + 1..] + [s[|s| - 1]];
      i
  }

  function DecodeInstanceEventId(id: Opaque): Result<Target, Error> {
    match id
    case Malformed(_) => Err(BadEventId)
    case Base64Url(s) =>
      var sep := LastIndex(s, SEPARATOR);
      if sep < 0 then Ok(Target(s, None))
      else match ParseInstant(s[sep + 1..])
        case None => Err(BadRecurrenceId)
        case Some(t) => Ok(Target(s[..sep], Some(t)))
  }

  // ---- Digits ----

  lemma {:induction false} PaddedWidth(n: nat, width: nat)
    requires width > 0
    ensures |Padded(n, width)| == width <==> n < Power(width)
    ensures n < Power(width) ==> Value(Padded(n, width)) == n
  {
    var high := Padded(n / 10, width - 1);
    assert Padded(n, width) == high + [DigitChar(n % 10)];
    assert Padded(n, width)[..|high|] == high;
    if width == 1 {
      if n < 10 {
        assert high == "";
      } else {
        assert |high| > 0;
      }
    } else {
      PaddedWidth(n / 10, width - 1);
    }
  }

  function Power(width: nat): nat { if width == 0 then 1 else 10 * Power(width - 1) }

  lemma Widths(t: Instant)
    requires Valid(t)
    ensures |Padded(t.month, 2)| == |Padded(t.day, 2)| == |Padded(t.hour, 2)| == |Padded(t.minute, 2)| == |Padded(t.second, 2)| == 2
    ensures Value(Padded(t.month, 2)) == t.month && Value(Padded(t.day, 2)) == t.day
    ensures Value(Padded(t.hour, 2)) == t.hour && Value(Padded(t.minute, 2)) == t.minute && Value(Padded(t.second, 2)) == t.second
  {
    assert Power(2) == 100;
    PaddedWidth(t.month, 2);
    PaddedWidth(t.day, 2);
    PaddedWidth(t.hour, 2);
    PaddedWidth(t.minute, 2);
    PaddedWidth(t.second, 2);
  }

  lemma NoSeparator(t: Instant)
    ensures SEPARATOR !in FormatInstant(t)
  {
    assert !IsDigit(SEPARATOR);
  }

  /** The compact timestamp reads back exactly for the years 0 to 9999. */
  lemma InstantRoundTripIff(t: Instant)
    requires Valid(t)
    ensures ParseInstant(FormatInstant(t)) == Some(t) <==> 0 <= t.year <= 9999
    ensures ParseInstant(FormatInstant(t)).None? <==> !(0 <= t.year <= 9999)
  {
    Widths(t);
    assert Power(4) == 10000;
    var s := FormatInstant(t);
    if t.year < 0 {
      assert |s| > 16;
    } else {
      PaddedWidth(t.year, 4);
      if t.year <= 9999 {
        ReadFields(t, Padded(t.year, 4), Padded(t.month, 2), Padded(t.day, 2), Padded(t.hour, 2), Padded(t.minute, 2), Padded(t.second, 2));
      } else {
        assert |s| > 16;
      }
    }
  }

  lemma ReadFields(t: Instant, y: string, mo: string, d: string, h: string, mi: string, sec: string)
    requires Valid(t)
    requires |y| == 4 && |mo| == |d| == |h| == |mi| == |sec| == 2
    requires AllDigits(y) && AllDigits(mo) && AllDigits(d) && AllDigits(h) && AllDigits(mi) && AllDigits(sec)
    requires Value(y) == t.year && Value(mo) == t.month && Value(d) == t.day
    requires Value(h) == t.hour && Value(mi) == t.minute && Value(sec) == t.second
    ensures ParseInstant(y + mo + d + "T" + h + mi + sec + "Z") == Some(t)
  {
    var date, clock := y + mo + d, h + mi + sec;
    Cut(date, clock);
    assert y + mo + d + "T" + h + mi + sec + "Z" == date + "T" + clock + "Z";
    ThreeParts(y, mo, d);
    ThreeParts(h, mi, sec);
  }

  lemma Cut(date: string, clock: string)
    requires |date| == 8 && |clock| == 6
    ensures var s := date + "T" + clock + "Z"; |s| == 16 && s[..8] == date && s[8] == 'T' && s[9..15] == clock && s[15] == 'Z'
  {
  }

  lemma ThreeParts(a: string, b: string, c: string)
    requires AllDigits(a) && AllDigits(b) && AllDigits(c)
    ensures AllDigits(a + b + c)
    ensures (a + b + c)[..|a|] == a && (a + b + c)[|a|..|a| + |b|] == b && (a + b + c)[|a| + |b|..] == c
  {
  }

  // ---- Ids ----

  lemma {:induction false} CutAtSeparator(path: string, rest: string)
    requires SEPARATOR !in rest
    ensures LastIndex(path + [SEPARATOR] + rest, SEPARATOR) == |path|
  {
    var s := path + [SEPARATOR] + rest;
    if rest != "" {
      assert s[..|s| - 1] == path + [SEPARATOR] + rest[..|rest| - 1];
      CutAtSeparator(path, rest[..|rest| - 1]);
    }
  }

  /** An instance id decodes to its path and instant, whatever the path, exactly for the years
      0 to 9999. */
  lemma InstanceIdRoundTripIff(path: string, t: Instant)
    requires Valid(t)
    ensures DecodeInstanceEventId(InstanceEventId(path, t)) == Ok(Target(path, Some(t))) <==> 0 <= t.year <= 9999
    ensures !(0 <= t.year <= 9999) ==> DecodeInstanceEventId(InstanceEventId(path, t)) == Err(BadRecurrenceId)
  {
    var rest := FormatInstant(t);
    var s := path + [SEPARATOR] + rest;
    NoSeparator(t);
    CutAtSeparator(path, rest);
    assert s[..|path|] == path && s[|path| + 1..] == rest;
    InstantRoundTripIff(t);
  }

  /** A series id decodes as a series exactly when its path has no space. */
  lemma SeriesIdRoundTripIff(path: string)
    ensures DecodeInstanceEventId(EventId(path)) == Ok(Target(path, None)) <==> SEPARATOR !in path
  {
  }

  /** No two occurrences share an id, and no occurrence shares one with a series at a path
      without spaces. */
  lemma InstanceIdsInjective(path: string, t: Instant, path': string, t': Instant)
    requires Valid(t) && Valid(t') && 0 <= t.year <= 9999 && 0 <= t'.year <= 9999
    ensures InstanceEventId(path, t) == InstanceEventId(path', t') ==> path == path' && t == t'
    ensures SEPARATOR !in path' ==> InstanceEventId(path, t) != EventId(path')
  {
    InstanceIdRoundTripIff(path, t);
    InstanceIdRoundTripIff(path', t');
    SeriesIdRoundTripIff(path');
  }
}
