/** Stored timestamps are compared as strings: when that agrees with comparing instants. */
module Timestamps {

  /** A UTC datetime of the proleptic Gregorian calendar. */
  datatype Moment = Moment(year: nat, month: nat, day: nat, hour: nat, minute: nat, second: nat, micro: nat) {
    predicate Valid() {
      && 1 <= year <= 9999 && 1 <= month <= 12 && 1 <= day <= DaysIn(MonthIndex())
      && hour < 24 && minute < 60 && second < 60 && micro < 1_000_000
    }

    /** Months since January of year 1. */
    function MonthIndex(): nat
      requires year >= 1 && month >= 1
    {
      (year - 1) * 12 + (month - 1)
    }
  }

  predicate IsLeap(year: nat) {
    year % 4 == 0 && (year % 100 != 0 || year % 400 == 0)
  }

  function DaysIn(index: nat): nat {
    var month := index % 12 + 1;
    if month == 2 then (if IsLeap(index / 12 + 1) then 29 else 28)
    else if month == 4 || month == 6 || month == 9 || month == 11 then 30
    else 31
  }

  function DaysBefore(index: nat): nat {
    if index == 0 then 0 else DaysBefore(index - 1) + DaysIn(index - 1)
  }

  /** Days, whole seconds and microseconds since the start of year 1. */
  function Days(t: Moment): nat
    requires t.Valid()
  {
    DaysBefore(t.MonthIndex()) + t.day - 1
  }

  function Seconds(t: Moment): nat
    requires t.Valid()
  {
    ((Days(t) * 24 + t.hour) * 60 + t.minute) * 60 + t.second
  }

  function Micros(t: Moment): nat
    requires t.Valid()
  {
    Seconds(t) * 1_000_000 + t.micro
  }

  // ---------- as strings ----------

  function Digit(d: nat): char
    requires d < 10
  {
    ['0', '1', '2', '3', '4', '5', '6', '7', '8', '9'][d]
  }

  /** n in decimal with leading zeros, the last `width` digits. */
  function Digits(n: nat, width: nat): (s: string)
    ensures |s| == width
  {
    if width == 0 then "" else Digits(n / 10, width - 1) + [Digit(n % 10)]
  }

  function Stem(t: Moment): string {
    Digits(t.year, 4) + "-" + Digits(t.month, 2) + "-" + Digits(t.day, 2)
    + "T" + Digits(t.hour, 2) + ":" + Digits(t.minute, 2) + ":" + Digits(t.second, 2)
  }

  /** t.isoformat(): the fraction only if there is one. */
  function Iso(t: Moment): string {
    Stem(t) + (if t.micro == 0 then "" else "." + Digits(t.micro, 6)) + "+00:00"
  }

  /** t.strftime("%Y-%m-%dT%H:%M:%SZ"): the fraction is dropped. */
  function Zulu(t: Moment): string {
    Stem(t) + "Z"
  }

  /** s < t as the database compares strings. */
  predicate Less(s: string, t: string) {
    t != "" && (s == "" || s[0] < t[0] || (s[0] == t[0] && Less(s[1..], t[1..])))
  }

  // ---------- comparing strings piece by piece ----------

  lemma {:induction false} LessConcat(s: string, t: string, u: string, v: string)
    requires |s| == |t|
    ensures Less(s + u, t + v) <==> Less(s, t) || (s == t && Less(u, v))
  {
    if s == "" {
      assert s + u == u && t + v == v;
    } else {
      assert (s + u)[1..] == s[1..] + u && (t + v)[1..] == t[1..] + v;
      assert s == [s[0]] + s[1..] && t == [t[0]] + t[1..];
      LessConcat(s[1..], t[1..], u, v);
    }
  }

  lemma {:induction false} LessIrreflexive(s: string)
    ensures !Less(s, s)
  {
    if s != "" {
      LessIrreflexive(s[1..]);
    }
  }

  /** s and t compare as the numbers m and n do. */
  ghost predicate Tracks(s: string, t: string, m: int, n: int) {
    |s| == |t| && (Less(s, t) <==> m < n) && (s == t <==> m == n)
  }

  lemma PieceTracks(s: string, t: string, u: string, v: string, m: int, n: int, i: int, j: int)
    requires Tracks(s, t, m, n) && Tracks(u, v, i, j)
    ensures |s + u| == |t + v|
    ensures Less(s + u, t + v) <==> m < n || (m == n && i < j)
    ensures s + u == t + v <==> m == n && i == j
  {
    LessConcat(s, t, u, v);
    if s + u == t + v {
      assert (s + u)[..|s|] == s && (t + v)[..|t|] == t && (s + u)[|s|..] == u && (t + v)[|t|..] == v;
    }
  }

  lemma DigitTracks(i: nat, j: nat)
    requires i < 10 && j < 10
    ensures Tracks([Digit(i)], [Digit(j)], i, j)
  {
  }

  function Power10(width: nat): nat {
    if width == 0 then 1 else 10 * Power10(width - 1)
  }

  lemma {:induction false} DigitsTrack(m: nat, n: nat, width: nat)
    requires m < Power10(width) && n < Power10(width)
    ensures Tracks(Digits(m, width), Digits(n, width), m, n)
  {
    if width > 0 {
      DigitsTrack(m / 10, n / 10, width - 1);
      DigitTracks(m % 10, n % 10);
      PieceTracks(Digits(m / 10, width - 1), Digits(n / 10, width - 1), [Digit(m % 10)], [Digit(n % 10)],
        m / 10, n / 10, m % 10, n % 10);
    }
  }

  lemma {:induction false} Multiple(gap: nat, base: nat)
    requires gap > 0
    ensures gap * base >= base
  {
    if gap > 1 {
      Multiple(gap - 1, base);
    }
  }

  lemma Distribute(m: int, gap: int, base: int)
    ensures (m + gap) * base == m * base + gap * base
  {
  }

  lemma RadixLess(m: int, n: int, i: int, j: int, base: int)
    requires 0 <= i < base && 0 <= j && m < n
    ensures m * base + i < n * base + j
  {
    Distribute(m, n - m, base);
    Multiple(n - m, base);
  }

  lemma Radix(m: int, n: int, i: int, j: int, base: int)
    requires 0 <= i < base && 0 <= j < base
    ensures m * base + i < n * base + j <==> m < n || (m == n && i < j)
    ensures m * base + i == n * base + j <==> m == n && i == j
  {
    if m < n {
      RadixLess(m, n, i, j, base);
    } else if n < m {
      RadixLess(n, m, j, i, base);
    }
  }

  /** Appending a separator and a field with the digits of a mixed-radix number. */
  lemma FieldTracks(s: string, t: string, separator: string, m: int, n: int, i: nat, j: nat, width: nat, base: nat)
    requires Tracks(s, t, m, n) && i < base && j < base && base <= Power10(width)
    ensures Tracks(s + separator + Digits(i, width), t + separator + Digits(j, width), m * base + i, n * base + j)
  {
    LessIrreflexive(separator);
    PieceTracks(s, t, separator, separator, m, n, 0, 0);
    DigitsTrack(i, j, width);
    PieceTracks(s + separator, t + separator, Digits(i, width), Digits(j, width), m, n, i, j);
    Radix(m, n, i, j, base);
  }

  // ---------- the calendar ----------

  lemma {:induction false} DaysBeforeGrows(i: nat, j: nat)
    requires i < j
    ensures DaysBefore(i) + DaysIn(i) <= DaysBefore(j)
  {
    if i < j - 1 {
      DaysBeforeGrows(i, j - 1);
    }
  }

  /** Days are ordered as year, month and day are. */
  lemma DaysOrder(a: Moment, b: Moment)
    requires a.Valid() && b.Valid()
    ensures Days(a) < Days(b) <==>
      a.MonthIndex() < b.MonthIndex() || (a.MonthIndex() == b.MonthIndex() && a.day < b.day)
    ensures Days(a) == Days(b) <==> a.MonthIndex() == b.MonthIndex() && a.day == b.day
  {
    if a.MonthIndex() < b.MonthIndex() {
      DaysBeforeGrows(a.MonthIndex(), b.MonthIndex());
    } else if b.MonthIndex() < a.MonthIndex() {
      DaysBeforeGrows(b.MonthIndex(), a.MonthIndex());
    }
  }

  lemma MonthAt(years: nat, month: nat)
    requires 1 <= month <= 12
    ensures var i := years * 12 + (month - 1);
            i / 12 == years && i % 12 == month - 1 && DaysBefore(i + 1) == DaysBefore(i) + DaysIn(i)
  {
  }

  /** A year has 365 days, a leap year 366. */
  lemma YearLength(years: nat)
    ensures DaysBefore(years * 12 + 12) == DaysBefore(years * 12) + if IsLeap(years + 1) then 366 else 365
  {
    MonthAt(years, 1); MonthAt(years, 2); MonthAt(years, 3); MonthAt(years, 4);
    MonthAt(years, 5); MonthAt(years, 6); MonthAt(years, 7); MonthAt(years, 8);
    MonthAt(years, 9); MonthAt(years, 10); MonthAt(years, 11); MonthAt(years, 12);
  }

  /** The leap years among the first n. */
  function LeapYears(n: nat): int {
    n / 4 - n / 100 + n / 400
  }

  lemma FoursNext(n: nat)
    ensures (n + 1) / 4 - n / 4 == if (n + 1) % 4 == 0 then 1 else 0
  {
  }

  lemma HundredsNext(n: nat)
    ensures (n + 1) / 100 - n / 100 == if (n + 1) % 100 == 0 then 1 else 0
    ensures (n + 1) / 400 - n / 400 == if (n + 1) % 400 == 0 then 1 else 0
  {
  }

  lemma LeapYearsNext(n: nat)
    ensures LeapYears(n + 1) == LeapYears(n) + if IsLeap(n + 1) then 1 else 0
  {
    FoursNext(n);
    HundredsNext(n);
    CenturiesAreFourths(n + 1);
  }

  lemma CenturiesAreFourths(year: nat)
    ensures year % 100 == 0 ==> year % 4 == 0
    ensures year % 400 == 0 ==> year % 100 == 0
  {
    assert year % 100 == 0 ==> year == 4 * (25 * (year / 100));
    assert year % 400 == 0 ==> year == 100 * (4 * (year / 400));
  }

  /** The days before a year, in closed form. */
  lemma {:induction false} DaysBeforeYear(years: nat)
    ensures DaysBefore(years * 12) == years * 365 + LeapYears(years)
  {
    if years > 0 {
      var last := years - 1;
      DaysBeforeYear(last);
      YearLength(last);
      LeapYearsNext(last);
      assert years * 12 == last * 12 + 12;
    }
  }

  function DateOf(t: Moment): string {
    Digits(t.year, 4) + "-" + Digits(t.month, 2) + "-" + Digits(t.day, 2)
  }

  lemma Powers()
    ensures Power10(2) == 100 && Power10(4) == 10_000 && Power10(6) == 1_000_000
  {
    assert Power10(1) == 10 && Power10(3) == 1000 && Power10(5) == 100_000;
  }

  lemma DateTracks(a: Moment, b: Moment)
    requires a.Valid() && b.Valid()
    ensures Tracks(DateOf(a), DateOf(b), Days(a), Days(b))
  {
    Powers();
    DigitsTrack(a.year, b.year, 4);
    FieldTracks(Digits(a.year, 4), Digits(b.year, 4), "-", a.year, b.year, a.month, b.month, 2, 13);
    FieldTracks(Digits(a.year, 4) + "-" + Digits(a.month, 2), Digits(b.year, 4) + "-" + Digits(b.month, 2), "-",
      a.year * 13 + a.month, b.year * 13 + b.month, a.day, b.day, 2, 32);
    DaysOrder(a, b);
  }

  /** The first nineteen characters order as whole seconds. */
  lemma StemTracks(a: Moment, b: Moment)
    requires a.Valid() && b.Valid()
    ensures Tracks(Stem(a), Stem(b), Seconds(a), Seconds(b))
  {
    Powers();
    DateTracks(a, b);
    var s, t := DateOf(a), DateOf(b);
    FieldTracks(s, t, "T", Days(a), Days(b), a.hour, b.hour, 2, 24);
    s, t := s + "T" + Digits(a.hour, 2), t + "T" + Digits(b.hour, 2);
    FieldTracks(s, t, ":", Days(a) * 24 + a.hour, Days(b) * 24 + b.hour, a.minute, b.minute, 2, 60);
    s, t := s + ":" + Digits(a.minute, 2), t + ":" + Digits(b.minute, 2);
    FieldTracks(s, t, ":", (Days(a) * 24 + a.hour) * 60 + a.minute, (Days(b) * 24 + b.hour) * 60 + b.minute,
      a.second, b.second, 2, 60);
  }

  // ---------- the laws ----------

  function Tail(t: Moment): string {
    (if t.micro == 0 then "" else "." + Digits(t.micro, 6)) + "+00:00"
  }

  /** Without a fraction the tail starts with '+', which is less than '.'. */
  lemma TailOrder(a: Moment, b: Moment)
    requires a.Valid() && b.Valid()
    ensures Less(Tail(a), Tail(b)) <==> a.micro < b.micro
  {
    Powers();
    LessIrreflexive("+00:00");
    assert a.micro == 0 ==> Tail(a) == "+00:00" && Tail(a)[0] == '+';
    assert b.micro == 0 ==> Tail(b) == "+00:00" && Tail(b)[0] == '+';
    assert a.micro > 0 ==> Tail(a)[0] == '.';
    assert b.micro > 0 ==> Tail(b)[0] == '.';
    if a.micro > 0 && b.micro > 0 {
      DigitsTrack(a.micro, b.micro, 6);
      LessConcat(".", ".", Digits(a.micro, 6), Digits(b.micro, 6));
      LessIrreflexive(".");
      LessConcat("." + Digits(a.micro, 6), "." + Digits(b.micro, 6), "+00:00", "+00:00");
    }
  }

  /** isoformat strings, with or without a fraction, order exactly as their instants. */
  lemma IsoOrder(a: Moment, b: Moment)
    requires a.Valid() && b.Valid()
    ensures Less(Iso(a), Iso(b)) <==> Micros(a) < Micros(b)
  {
    StemTracks(a, b);
    TailOrder(a, b);
    assert Iso(a) == Stem(a) + Tail(a) && Iso(b) == Stem(b) + Tail(b);
    LessConcat(Stem(a), Stem(b), Tail(a), Tail(b));
  }

  /** Against a cutoff in whole seconds, everything up to the end of the cutoff's second counts as before. */
  lemma ZuluCutoff(a: Moment, cutoff: Moment)
    requires a.Valid() && cutoff.Valid()
    ensures Less(Iso(a), Zulu(cutoff)) <==> Seconds(a) <= Seconds(cutoff)
  {
    StemTracks(a, cutoff);
    assert Iso(a) == Stem(a) + Tail(a);
    LessConcat(Stem(a), Stem(cutoff), Tail(a), "Z");
    assert Tail(a)[0] == '+' || Tail(a)[0] == '.';
  }

  /** The stamps that such a comparison gets wrong are those of the cutoff's own second that do not
      come before the cutoff. */
  lemma MisclassifiedExactly(a: Moment, cutoff: Moment)
    requires a.Valid() && cutoff.Valid()
    ensures Less(Iso(a), Zulu(cutoff)) != (Micros(a) < Micros(cutoff)) <==>
      Seconds(a) == Seconds(cutoff) && a.micro >= cutoff.micro
  {
    ZuluCutoff(a, cutoff);
  }

  // ---------- packages needing enrichment ----------

  /** max(d.last_enriched_at) */
  function Latest(stamps: seq<Moment>): string
    requires stamps != []
  {
    var last := Iso(stamps[|stamps| - 1]);
    if |stamps| == 1 then last
    else
      var before := Latest(stamps[..|stamps| - 1]);
      if Less(before, last) then last else before
  }

  lemma {:induction false} LatestIsLast(stamps: seq<Moment>) returns (m: Moment)
    requires stamps != [] && forall t :: t in stamps ==> t.Valid()
    ensures m in stamps && Latest(stamps) == Iso(m) && forall t :: t in stamps ==> Micros(t) <= Micros(m)
  {
    var front, last := stamps[..|stamps| - 1], stamps[|stamps| - 1];
    assert stamps == front + [last];
    m := last;
    if front != [] {
      var before := LatestIsLast(front);
      IsoOrder(before, last);
      if !Less(Iso(before), Iso(last)) {
        m := before;
      }
    }
  }

  /** latest IS NULL OR latest < $cutoff: no finding is newer than the cutoff's second. */
  predicate NeedsEnrichment(stamps: seq<Moment>, cutoff: Moment) {
    stamps == [] || Less(Latest(stamps), Zulu(cutoff))
  }

  lemma NeedsEnrichmentExactly(stamps: seq<Moment>, cutoff: Moment)
    requires cutoff.Valid() && forall t :: t in stamps ==> t.Valid()
    ensures NeedsEnrichment(stamps, cutoff) <==> forall t :: t in stamps ==> Seconds(t) <= Seconds(cutoff)
  {
    if stamps != [] {
      var m := LatestIsLast(stamps);
      ZuluCutoff(m, cutoff);
      assert forall t :: t in stamps ==> Seconds(t) <= Seconds(m);
    }
  }
}
