/** Stamps as text (backup.rs): written in fixed width for the years 0000 to
    9999, parsed back, and ordered as the seconds they stand for. */
module StampText {
  import opened Words
  import opened Stamp
  import opened TextOrder

  const DAY := 86_400

  /** `w` decimal digits of `n`, leading zeros included. */
  function Pad(n: nat, w: nat): (r: Bytes)
    ensures |r| == w
    decreases n, w
  {
    if w == 0 then [] else Pad(n / 10, w - 1) + [48 + n % 10]
  }

  function Decimal(n: nat): Bytes {
    if n < 10 then [48 + n] else Decimal(n / 10) + [48 + n % 10]
  }

  /** `{y:04}`. */
  function YearText(y: int): Bytes {
    if 0 <= y < 10_000 then Pad(y, 4)
    else if y >= 10_000 then Decimal(y)
    else if y > -1000 then [45] + Pad(-y, 3)
    else [45] + Decimal(-y)
  }

  function UtcStamp(seconds: int): Bytes {
    var days, secs := seconds / DAY, seconds % DAY;
    var date := CivilOf(days);
    YearText(date.year) + (Two(date.month) + (Two(date.day) + ([84] + (Two(secs / 3600)
      + (Two((secs % 3600) / 60) + (Two(secs % 60) + [90]))))))
  }

  /** A field of two digits; only numbers from 0 to 99 are ever written. */
  function Two(n: int): (r: Bytes)
    ensures |r| == 2
  {
    Pad(if n >= 0 then n else 0, 2)
  }

  // ----- parsing

  function Digits(b: Bytes): Option<nat> {
    if b == [] then Some(0)
    else
      var last := b[|b| - 1];
      match Digits(b[..|b| - 1])
      case None => None
      case Some(n) => if 48 <= last <= 57 then Some(10 * n + (last - 48)) else None
  }

  /** `parse::<i64>`: an optional sign and at least one digit. */
  function ParseInt(b: Bytes): Option<int> {
    if b == [] then None
    else if b[0] == 43 then if |b| == 1 then None else AsInt(Digits(b[1..]), 1)
    else if b[0] == 45 then if |b| == 1 then None else AsInt(Digits(b[1..]), -1)
    else AsInt(Digits(b), 1)
  }

  function AsInt(n: Option<nat>, sign: int): Option<int> {
    match n
    case None => None
    case Some(v) => Some(sign * v)
  }

  function ParseUtcStamp(b: Bytes): Option<int> {
    if |b| != 16 || b[8] != 84 || b[15] != 90 then None
    else match (ParseInt(b[0..4]), ParseInt(b[4..6]), ParseInt(b[6..8]), ParseInt(b[9..11]), ParseInt(b[11..13]),
                ParseInt(b[13..15]))
      case (Some(y), Some(m), Some(d), Some(hh), Some(mm), Some(ss)) =>
        if !(1 <= m <= 12) || !(1 <= d <= 31) || hh > 23 || mm > 59 || ss > 60 then None
        else Some(DaysOf(Date(y, m, d)) * DAY + hh * 3600 + mm * 60 + ss)
      case _ => None
  }

  function Pow10(w: nat): (p: nat)
    ensures p > 0
  {
    if w == 0 then 1 else 10 * Pow10(w - 1)
  }

  lemma {:induction false} PadDigits(n: nat, w: nat)
    requires n < Pow10(w)
    ensures Digits(Pad(n, w)) == Some(n)
    decreases w
  {
    if w > 0 {
      PadDigits(n / 10, w - 1);
      assert Pad(n, w)[..w - 1] == Pad(n / 10, w - 1);
    }
  }

  lemma {:induction false} PadIsDigits(n: nat, w: nat)
    ensures forall i :: 0 <= i < w ==> 48 <= Pad(n, w)[i] <= 57
    decreases w
  {
    if w > 0 {
      PadIsDigits(n / 10, w - 1);
    }
  }

  lemma PadParses(n: nat, w: nat)
    requires 0 < w && n < Pow10(w)
    ensures ParseInt(Pad(n, w)) == Some(n)
  {
    hide Pad, Digits;
    PadDigits(n, w);
    PadIsDigits(n, w);
  }

  /** The years a stamp writes in four digits. */
  predicate FourDigitYear(seconds: int) {
    0 <= CivilOf(seconds / DAY).year <= 9999
  }

  /** They are the seconds from 0000-01-01T00:00:00 to 9999-12-31T23:59:59. */
  lemma FourDigitYears(seconds: int)
    ensures FourDigitYear(seconds) <==> -62_167_219_200 <= seconds <= 253_402_300_799
  {
    hide CivilOf, DaysOf;
    First();
    DaysOrder(seconds / DAY, -719_528);
    DaysOrder(seconds / DAY, 2_932_897);
    CivilOfDay(seconds / DAY);
  }

  lemma First()
    ensures CivilOf(-719_528) == Date(0, 1, 1) && CivilOf(2_932_897) == Date(10_000, 1, 1)
  {
    assert ValidDate(Date(0, 1, 1)) && DaysOf(Date(0, 1, 1)) == -719_528;
    assert ValidDate(Date(10_000, 1, 1)) && DaysOf(Date(10_000, 1, 1)) == 2_932_897;
    hide CivilOf;
    DayOfCivil(Date(0, 1, 1));
    DayOfCivil(Date(10_000, 1, 1));
  }

  lemma Tens()
    ensures Pow10(2) == 100 && Pow10(4) == 10_000
  {
    assert Pow10(3) == 10 * Pow10(2);
  }

  /** The fields of a written stamp are where the parser looks. */
  lemma StampFields(y: Bytes, m: Bytes, d: Bytes, hh: Bytes, mm: Bytes, ss: Bytes)
    requires |y| == 4 && |m| == |d| == |hh| == |mm| == |ss| == 2
    ensures var b := y + (m + (d + ([84] + (hh + (mm + (ss + [90]))))));
            && |b| == 16 && b[8] == 84 && b[15] == 90
            && b[0..4] == y && b[4..6] == m && b[6..8] == d && b[9..11] == hh && b[11..13] == mm && b[13..15] == ss
  {
  }

  /** The two digits of a stamp that begin `i` bytes before its end. */
  function FieldAt(b: Bytes, i: nat): Option<nat>
    requires 2 <= i <= |b|
  {
    Digits(b[|b| - i..|b| - i + 2])
  }

  /** A stamp read as decimal fields, whatever the year: month and day of the
      date, then an hour below 24, a minute and a second below 60 that make up
      the second of the day. Where the year has four digits they come first. */
  lemma StampReads(seconds: int)
    ensures var b, date := UtcStamp(seconds), CivilOf(seconds / 86_400);
            && |b| >= 16 && b[|b| - 8] == 84 && b[|b| - 1] == 90
            && FieldAt(b, 12) == Some(date.month) && FieldAt(b, 10) == Some(date.day)
            && (FourDigitYear(seconds) ==> |b| == 16 && Digits(b[..4]) == Some(date.year))
            && match (FieldAt(b, 7), FieldAt(b, 5), FieldAt(b, 3))
               case (Some(hour), Some(minute), Some(second)) =>
                 hour < 24 && minute < 60 && second < 60
                 && 3600 * hour + 60 * minute + second == seconds % 86_400
               case _ => false
  {
    hide Pad, CivilOf, DaysOf, Digits, YearText;
    var days, secs := seconds / DAY, seconds % DAY;
    CivilOfDay(days);
    var date := CivilOf(days);
    Tens();
    SecondsOf(secs);
    var hh, mm, ss := secs / 3600, (secs % 3600) / 60, secs % 60;
    PadDigits(date.month, 2);
    PadDigits(date.day, 2);
    PadDigits(hh, 2);
    PadDigits(mm, 2);
    PadDigits(ss, 2);
    YearLength(date.year);
    FieldsFromEnd(YearText(date.year), Two(date.month), Two(date.day), Two(hh), Two(mm), Two(ss));
    if FourDigitYear(seconds) {
      PadDigits(date.year, 4);
    }
  }

  lemma {:induction false} DecimalLength(n: nat, w: nat)
    requires n >= Pow10(w)
    ensures |Decimal(n)| >= w + 1
    decreases w
  {
    if w > 0 {
      DecimalLength(n / 10, w - 1);
    }
  }

  lemma YearLength(y: int)
    ensures |YearText(y)| >= 4
    ensures 0 <= y <= 9999 ==> YearText(y) == Pad(y, 4)
  {
    Tens();
    if y >= 10_000 {
      DecimalLength(y, 4);
    } else if y <= -1000 {
      DecimalLength(-y, 3);
    }
  }

  lemma FieldsFromEnd(y: Bytes, m: Bytes, d: Bytes, hh: Bytes, mm: Bytes, ss: Bytes)
    requires |y| >= 4 && |m| == |d| == |hh| == |mm| == |ss| == 2
    ensures var b := y + (m + (d + ([84] + (hh + (mm + (ss + [90]))))));
            && |b| == |y| + 12 && b[|b| - 8] == 84 && b[|b| - 1] == 90 && b[..|y|] == y
            && b[|b| - 12..|b| - 10] == m && b[|b| - 10..|b| - 8] == d
            && b[|b| - 7..|b| - 5] == hh && b[|b| - 5..|b| - 3] == mm && b[|b| - 3..|b| - 1] == ss
  {
  }

  /** Parsing a written stamp gives the seconds back. */
  lemma ParseOfStamp(seconds: int)
    requires FourDigitYear(seconds)
    ensures ParseUtcStamp(UtcStamp(seconds)) == Some(seconds)
  {
    hide Pad, CivilOf, DaysOf, ParseInt;
    var days, secs := seconds / DAY, seconds % DAY;
    CivilOfDay(days);
    var date := CivilOf(days);
    Tens();
    var hh, mm, ss := secs / 3600, (secs % 3600) / 60, secs % 60;
    PadParses(date.year, 4);
    PadParses(date.month, 2);
    PadParses(date.day, 2);
    PadParses(hh, 2);
    PadParses(mm, 2);
    PadParses(ss, 2);
    StampFields(YearText(date.year), Two(date.month), Two(date.day), Two(hh), Two(mm), Two(ss));
    assert hh * 3600 + mm * 60 + ss == secs;
  }

  // ----- order

  lemma {:induction false} PadOrder(m: nat, n: nat, w: nat)
    requires m < Pow10(w) && n < Pow10(w)
    ensures TextBefore(Pad(m, w), Pad(n, w)) <==> m < n
    ensures Pad(m, w) == Pad(n, w) <==> m == n
    decreases w
  {
    if w > 0 {
      PadOrder(m / 10, n / 10, w - 1);
      FieldsOrder(Pad(m / 10, w - 1), Pad(n / 10, w - 1), [48 + m % 10], [48 + n % 10]);
      LastDigit(Pad(m / 10, w - 1), Pad(n / 10, w - 1), 48 + m % 10, 48 + n % 10);
    }
  }

  lemma LastDigit(a: Bytes, b: Bytes, x: byte, y: byte)
    requires |a| == |b|
    ensures a + [x] == b + [y] <==> a == b && x == y
    ensures TextBefore([x], [y]) <==> x < y
  {
    if a + [x] == b + [y] {
      assert (a + [x])[..|a|] == a && (b + [y])[..|b|] == b;
      assert (a + [x])[|a|] == x && (b + [y])[|b|] == y;
    }
  }

  /** One field of two stamps: the first difference decides. */
  lemma FieldDecides(m: nat, n: nat, w: nat, restA: Bytes, restB: Bytes)
    requires m < Pow10(w) && n < Pow10(w)
    ensures TextBefore(Pad(m, w) + restA, Pad(n, w) + restB) <==> m < n || (m == n && TextBefore(restA, restB))
  {
    hide Pad;
    PadOrder(m, n, w);
    FieldsOrder(Pad(m, w), Pad(n, w), restA, restB);
  }

  lemma ZoneDecides(rest: Bytes, other: Bytes)
    ensures TextBefore([84] + rest, [84] + other) <==> TextBefore(rest, other)
  {
    assert ([84] + rest)[1..] == rest && ([84] + other)[1..] == other;
  }

  /** Hours, minutes and seconds of two times of day. */
  lemma ClockOrder(s: int, t: int)
    requires 0 <= s < DAY && 0 <= t < DAY
    ensures TextBefore(Clock(s), Clock(t)) <==> s < t
  {
    hide Two, TextBefore;
    SecondsOf(s);
    SecondsOf(t);
    FieldsDecide(s / 3600, (s % 3600) / 60, s % 60, t / 3600, (t % 3600) / 60, t % 60);
  }

  lemma SecondsOf(s: int)
    requires 0 <= s < DAY
    ensures 0 <= s / 3600 < 24 && 0 <= (s % 3600) / 60 < 60 && 0 <= s % 60 < 60
    ensures s == 3600 * (s / 3600) + 60 * ((s % 3600) / 60) + s % 60
  {
  }

  lemma FieldsDecide(h: nat, m: nat, s: nat, h': nat, m': nat, s': nat)
    requires h < 24 && m < 60 && s < 60 && h' < 24 && m' < 60 && s' < 60
    ensures TextBefore(Two(h) + (Two(m) + (Two(s) + [90])), Two(h') + (Two(m') + (Two(s') + [90])))
       <==> 3600 * h + 60 * m + s < 3600 * h' + 60 * m' + s'
  {
    hide Pad, TextBefore;
    Tens();
    FieldDecides(h, h', 2, Two(m) + (Two(s) + [90]), Two(m') + (Two(s') + [90]));
    FieldDecides(m, m', 2, Two(s) + [90], Two(s') + [90]);
    FieldDecides(s, s', 2, [90], [90]);
    NotBeforeItself();
  }

  lemma NotBeforeItself()
    ensures !TextBefore([90], [90])
  {
  }

  function Clock(secs: int): Bytes {
    Two(secs / 3600) + (Two((secs % 3600) / 60) + (Two(secs % 60) + [90]))
  }

  lemma DateOrder(a: Date, b: Date, restA: Bytes, restB: Bytes)
    requires 0 <= a.year <= 9999 && 0 <= b.year <= 9999 && 0 <= a.month < 100 && 0 <= b.month < 100
    requires 0 <= a.day < 100 && 0 <= b.day < 100
    ensures TextBefore(YearText(a.year) + (Two(a.month) + (Two(a.day) + restA)),
                       YearText(b.year) + (Two(b.month) + (Two(b.day) + restB)))
       <==> Earlier(a, b) || (a == b && TextBefore(restA, restB))
  {
    hide Pad;
    Tens();
    FieldDecides(a.year, b.year, 4, Two(a.month) + (Two(a.day) + restA), Two(b.month) + (Two(b.day) + restB));
    FieldDecides(a.month, b.month, 2, Two(a.day) + restA, Two(b.day) + restB);
    FieldDecides(a.day, b.day, 2, restA, restB);
  }

  /** Stamps sort as the seconds do. */
  lemma StampOrder(s: int, t: int)
    requires FourDigitYear(s) && FourDigitYear(t)
    ensures TextBefore(UtcStamp(s), UtcStamp(t)) <==> s < t
  {
    hide Two, YearText, CivilOf, DaysOf, TextBefore, Clock;
    var a, b := CivilOf(s / DAY), CivilOf(t / DAY);
    CivilOfDay(s / DAY);
    CivilOfDay(t / DAY);
    StampParts(s);
    StampParts(t);
    DateOrder(a, b, [84] + Clock(s % DAY), [84] + Clock(t % DAY));
    ZoneDecides(Clock(s % DAY), Clock(t % DAY));
    ClockOrder(s % DAY, t % DAY);
    DaysOrder(s / DAY, t / DAY);
    DaysOrder(t / DAY, s / DAY);
  }

  lemma StampParts(s: int)
    ensures var date := CivilOf(s / DAY);
            UtcStamp(s) == YearText(date.year) + (Two(date.month) + (Two(date.day) + ([84] + Clock(s % DAY))))
  {
    hide Two, YearText, CivilOf;
  }

  /** So the last name of a sorted listing is the newest. */
  lemma LastIsNewest(times: seq<int>)
    requires times != [] && forall i :: 0 <= i < |times| ==> FourDigitYear(times[i])
    requires forall i, j :: 0 <= i < j < |times| ==> !TextBefore(UtcStamp(times[j]), UtcStamp(times[i]))
    ensures forall i :: 0 <= i < |times| ==> times[i] <= times[|times| - 1]
  {
    hide UtcStamp, TextBefore, FourDigitYear;
    forall i | 0 <= i < |times|
      ensures times[i] <= times[|times| - 1]
    {
      if i < |times| - 1 {
        StampOrder(times[|times| - 1], times[i]);
      }
    }
  }
}
