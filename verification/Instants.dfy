/** Instants in milliseconds since the epoch: what an ISO text denotes, and the text an instant is printed as. */
module Instants {
  import opened Text
  import opened Calendar
  import opened Dates

  const MINUTE := 60_000
  const HOUR := 3_600_000
  const DAY := 86_400_000

  /** The TimeClip limit of ECMA-262 5.1, section 15.9.1.14. */
  const CLIP := 8_640_000_000_000_000

  // ---------------------------------------------------------------- numbers

  function Number(s: string): nat
    requires Digits(s)
  {
    if s == "" then 0 else 10 * Number(s[..|s| - 1]) + (s[|s| - 1] - '0') as nat
  }

  /** The last `width` digits of `n`: zero-padded formatting, for a number that fits. */
  function Printed(n: nat, width: nat): (s: string)
    ensures |s| == width && Digits(s)
  {
    if width == 0 then "" else Printed(n / 10, width - 1) + ['0' + (n % 10) as char]
  }

  function Limit(width: nat): nat { if width == 0 then 1 else 10 * Limit(width - 1) }

  lemma {:induction false} NumberPrinted(n: nat, width: nat)
    requires n < Limit(width)
    ensures Number(Printed(n, width)) == n
  {
    if width == 0 {
    } else {
      NumberPrinted(n / 10, width - 1);
      var s := Printed(n, width);
      assert s[..width - 1] == Printed(n / 10, width - 1);
    }
  }

  /** Milliseconds from a fraction of any length: three digits, padded with zeros, the rest dropped. */
  function Millis(fraction: Option<string>): nat
    requires fraction.Some? ==> Digits(fraction.value)
  {
    if fraction.Some? then Number((fraction.value + "000")[..3]) else 0
  }

  lemma EmptyNumber()
    ensures Number("") == 0
  {}

  lemma NumberStep(s: string, i: nat)
    requires Digits(s) && i < |s|
    ensures Number(s[..i + 1]) == 10 * Number(s[..i]) + (s[i] - '0') as nat
  {
    assert s[..i + 1][..i] == s[..i];
  }

  lemma PaddedDigit(digits: string, i: nat)
    requires i < 3 && Digits(digits)
    ensures (digits + "000")[i] == if i < |digits| then digits[i] else '0'
    ensures Digits(digits + "000") && Digits(if i <= |digits| then digits[i..] else "")
  {}

  method Milliseconds(fraction: Option<string>) returns (millis: nat)
    requires fraction.Some? ==> Digits(fraction.value)
    ensures millis == Millis(fraction)
  {
    if fraction.None? {
      return 0;
    }
    hide Number, Digits;
    ghost var padded := fraction.value + "000";
    assert Number(padded[..0]) == 0 by { EmptyNumber(); }
    PaddedDigit(fraction.value, 0);
    var digits := fraction.value;
    millis := 0;
    for i := 0 to 3
      invariant Digits(digits) && millis == Number(padded[..i])
      invariant digits == if i <= |fraction.value| then fraction.value[i..] else ""
    {
      var digit := if digits == "" then '0' else digits[0];
      PaddedDigit(fraction.value, i);
      NumberStep(padded, i);
      millis := millis * 10 + (digit - '0') as nat;
      digits := if digits == "" then "" else digits[1..];
    }
  }

  // ---------------------------------------------------------------- what a text denotes

  /** Years of at most six digits. */
  predicate YearInRange(n: int) { -999_999 <= CivilOf(n).year <= 999_999 }

  function Checked(t: int): Option<int> { if YearInRange(t / DAY) then Some(t) else None }

  function Signed(year: string): int
    requires YearText(year)
  {
    if |year| == 4 then Number(year) else if year[0] == '-' then -(Number(year[1..]) as int) else Number(year[1..])
  }

  function NumberOr(s: Option<string>, default_: nat): nat
    requires s.Some? ==> Digits(s.value)
  {
    if s.Some? then Number(s.value) else default_
  }

  /** The day number: from the first of the month, so that a day beyond the month's end runs on. */
  function DayOf(f: Captures): Option<int>
    requires CapturesOk(f)
  {
    var month, day := NumberOr(f.month, 1), NumberOr(f.day, 1);
    if !(1 <= month <= 12) || !(1 <= day <= 31) then None
    else
      var n := DayNumber(Date(Signed(f.year), month, 1)) + (day - 1);
      if YearInRange(n) then Some(n) else None
  }

  /** The time of day in milliseconds, up to the midnight that ends it. */
  function TimeOf(clock: Option<Clock>): Option<int>
    requires clock.Some? ==> ClockOk(clock.value)
  {
    if clock.None? then Some(0)
    else
      var k := clock.value;
      var hour, minute, second := Number(k.hour), Number(k.minute), NumberOr(k.second, 0);
      var zeros := k.fraction.None? || forall i | 0 <= i < |k.fraction.value| :: k.fraction.value[i] == '0';
      if hour > 24 || minute > 59 || second > 59 || (hour == 24 && (minute != 0 || second != 0 || !zeros)) then None
      else Some(hour * HOUR + minute * MINUTE + second * 1000 + Millis(k.fraction))
  }

  /** The offset from UTC in milliseconds. */
  function ParseOffset(s: string): Option<int>
    requires OffsetText(s)
  {
    if s == "Z" || s == "z" then Some(0)
    else
      var minutes := if |s| == 6 then s[4..] else s[3..];
      var hour, minute := Number(s[1..3]), Number(minutes);
      if hour > 23 || minute > 59 then None
      else
        var magnitude := (hour * 60 + minute) * MINUTE;
        Some(if s[0] == '-' then -magnitude else magnitude)
  }

  /** How far UTC is from each local date and time of day. */
  datatype Zone = Zone(displacement: (Date, int) -> int)

  /** A year the zone tables cover, with the same leap status and weekdays. */
  function SurrogateYear(year: int): int {
    if year >= 9999 then 8000 + year % 400 else if year <= -9999 then -8000 + year % 400 else year
  }

  function LocalToUtc(t: int, zone: Zone): Option<int> {
    var local := CivilOf(t / DAY);
    var surrogate := local.(year := SurrogateYear(local.year));
    if Valid(surrogate) then Checked(t + zone.displacement(surrogate, t % DAY)) else None
  }

  function Unclipped(f: Captures, zone: Zone): Option<int>
    requires CapturesOk(f)
  {
    match (DayOf(f), TimeOf(f.clock))
    case (Some(n), Some(time)) =>
      (match Checked(n * DAY + time)
       case None => None
       case Some(t) =>
         if f.clock.None? then Some(t)
         else if f.clock.value.offset.None? then LocalToUtc(t, zone)
         else
           match ParseOffset(f.clock.value.offset.value)
           case None => None
           case Some(offset) => Checked(t - offset))
    case _ => None
  }

  function Clipped(t: Option<int>): Option<int> {
    if t.Some? && -CLIP <= t.value <= CLIP then t else None
  }

  function ParseIso(raw: string, zone: Zone): Option<int> {
    match Scan(raw)
    case None => None
    case Some(f) =>
      ScanExactly(raw, f);
      if f.year == "-000000" then None else Clipped(Unclipped(f, zone))
  }

  // ---------------------------------------------------------------- printing

  function YearPrinted(year: int): (s: string)
    ensures YearText(s)
  {
    if 0 <= year <= 9999 then Printed(year, 4)
    else [if year < 0 then '-' else '+'] + Printed(if year < 0 then -year else year, 6)
  }

  function DatePrinted(year: string, month: string, day: string): string { year + "-" + month + "-" + day }

  function TimePrinted(hour: string, minute: string, second: string, fraction: string): string {
    "T" + hour + ":" + minute + ":" + second + "." + fraction
  }

  /** A wall time as `YYYY-MM-DDTHH:MM:SS.mmm`, with a signed six-digit year outside 0 to 9999. */
  function WallText(t: int): string {
    var d, time := CivilOf(t / DAY), t % DAY;
    DatePrinted(YearPrinted(d.year), Printed(d.month, 2), Printed(d.day, 2))
    + TimePrinted(Printed(time / HOUR, 2), Printed(time / MINUTE % 60, 2), Printed(time / 1000 % 60, 2),
        Printed(time % 1000, 3))
  }

  /** An instant: its wall time in UTC, followed by `Z`. */
  function IsoString(t: int): string { WallText(t) + "Z" }

  function WallCaptures(t: int, offset: Option<string>): Captures {
    var d, time := CivilOf(t / DAY), t % DAY;
    Captures(YearPrinted(d.year), Some(Printed(d.month, 2)), Some(Printed(d.day, 2)),
      Some(Clock(Printed(time / HOUR, 2), Printed(time / MINUTE % 60, 2), Some(Printed(time / 1000 % 60, 2)),
                 Some(Printed(time % 1000, 3)), offset)))
  }

  function IsoCaptures(t: int): Captures { WallCaptures(t, Some("Z")) }

  lemma WallScans(t: int, offset: Option<string>)
    requires OffsetOk(offset)
    ensures CapturesOk(WallCaptures(t, offset))
    ensures Scan(WallText(t) + Prefixed("", offset)) == Some(WallCaptures(t, offset))
  {
    hide Scan, CivilOf, Printed, YearPrinted, TimePrinted, DatePrinted, OffsetText;
    var f := WallCaptures(t, offset);
    TextScans(f.year, f.month.value, f.day.value, f.clock.value.hour, f.clock.value.minute, f.clock.value.second.value,
      f.clock.value.fraction.value, offset);
  }

  lemma IsoScans(t: int)
    ensures CapturesOk(IsoCaptures(t)) && Scan(IsoString(t)) == Some(IsoCaptures(t))
  {
    hide Scan, WallText, WallCaptures;
    assert "" + "Z" == "Z";
    WallScans(t, Some("Z"));
  }

  /** A full text scans as its parts. */
  lemma TextScans(year: string, month: string, day: string, hour: string, minute: string, second: string,
      fraction: string, offset: Option<string>)
    requires YearText(year) && TwoDigits(month) && TwoDigits(day) && TwoDigits(hour) && TwoDigits(minute)
    requires TwoDigits(second) && fraction != "" && Digits(fraction) && OffsetOk(offset)
    ensures var f := Captures(year, Some(month), Some(day),
                       Some(Clock(hour, minute, Some(second), Some(fraction), offset)));
      var text := DatePrinted(year, month, day) + TimePrinted(hour, minute, second, fraction) + Prefixed("", offset);
      CapturesOk(f) && Scan(text) == Some(f)
  {
    hide Scan, DatePrinted, TimePrinted, OffsetText, Digits;
    var f := Captures(year, Some(month), Some(day), Some(Clock(hour, minute, Some(second), Some(fraction), offset)));
    assert CapturesOk(f);
    TextSpelled(year, month, day, hour, minute, second, fraction, offset);
    ScanExactly(Spelled(f, 'T'), f);
  }

  lemma TextSpelled(year: string, month: string, day: string, hour: string, minute: string, second: string,
      fraction: string, offset: Option<string>)
    ensures DatePrinted(year, month, day) + TimePrinted(hour, minute, second, fraction) + Prefixed("", offset)
         == Spelled(Captures(year, Some(month), Some(day),
             Some(Clock(hour, minute, Some(second), Some(fraction), offset))), 'T')
  {
    hide TimePrinted, ClockSpelled;
    TimeSpelled(hour, minute, second, fraction, offset);
    var end := Prefixed("", offset);
    var clock := TimePrinted(hour, minute, second, fraction) + end;
    AppendAssociates(DatePrinted(year, month, day), TimePrinted(hour, minute, second, fraction), end);
    AppendAssociates("-" + month, "-" + day, clock);
    AppendAssociates(year, "-" + month + ("-" + day), clock);
    assert DatePrinted(year, month, day) == year + ("-" + month + ("-" + day));
  }

  lemma TimeSpelled(hour: string, minute: string, second: string, fraction: string, offset: Option<string>)
    ensures TimePrinted(hour, minute, second, fraction) + Prefixed("", offset)
         == ClockSpelled(Some(Clock(hour, minute, Some(second), Some(fraction), offset)), 'T')
  {
    hide RestSpelled, Prefixed;
    var end := Prefixed("", offset);
    RestIs(Clock(hour, minute, Some(second), Some(fraction), offset), second, fraction);
    var head, rest := "T" + hour + ":" + minute, ":" + second + "." + fraction + end;
    HeadIs(hour, minute, rest);
    TailIs(head, second, fraction, end);
  }

  lemma TailIs(head: string, second: string, fraction: string, end: string)
    ensures head + ":" + second + "." + fraction + end == head + (":" + second + "." + fraction + end)
  {
    AppendAssociates(head, ":", second);
    AppendAssociates(head, ":" + second, ".");
    AppendAssociates(head, ":" + second + ".", fraction);
    AppendAssociates(head, ":" + second + "." + fraction, end);
  }

  lemma HeadIs(hour: string, minute: string, rest: string)
    ensures "T" + hour + ":" + minute + rest == ['T'] + (hour + ([':'] + (minute + rest)))
  {
    AppendAssociates([':'], minute, rest);
    AppendAssociates(hour, [':'] + minute, rest);
    AppendAssociates(hour, [':'], minute);
    AppendAssociates(['T'], hour + [':'] + minute, rest);
    AppendAssociates(['T'], hour + [':'], minute);
    AppendAssociates(['T'], hour, [':']);
  }

  lemma RestIs(k: Clock, second: string, fraction: string)
    requires k.second == Some(second) && k.fraction == Some(fraction)
    ensures RestSpelled(k) == ":" + second + "." + fraction + Prefixed("", k.offset)
  {
    var end := Prefixed("", k.offset);
    AppendAssociates(":" + second, "." + fraction, end);
    AppendAssociates(":" + second, ".", fraction);
  }

  // ---------------------------------------------------------------- print and parse

  lemma YearReads(year: int)
    requires -999_999 <= year <= 999_999
    ensures Signed(YearPrinted(year)) == year && YearPrinted(year) != "-000000"
  {
    assert Limit(4) == 10_000 && Limit(6) == 1_000_000;
    var magnitude := if year < 0 then -year else year;
    NumberPrinted(magnitude, 6);
    if 0 <= year <= 9999 {
      NumberPrinted(year, 4);
    } else {
      var s := YearPrinted(year);
      assert s[1..] == Printed(magnitude, 6);
      ZeroNumber();
      assert "-000000"[1..] == "000000";
    }
  }

  lemma ZeroNumber()
    ensures Number("000000") == 0
  {
    NumberPrinted(0, 6);
    assert Printed(0, 6) == "000000";
  }

  lemma TwoReads(n: nat)
    requires n < 100
    ensures Number(Printed(n, 2)) == n
  {
    assert Limit(2) == 100;
    NumberPrinted(n, 2);
  }

  lemma TimeReads(t: int, offset: Option<string>)
    requires OffsetOk(offset)
    ensures CapturesOk(WallCaptures(t, offset)) && TimeOf(WallCaptures(t, offset).clock) == Some(t % DAY)
  {
    hide CivilOf, Printed, YearPrinted, Number, Limit, OffsetText;
    var time := t % DAY;
    TwoReads(time / HOUR);
    TwoReads(time / MINUTE % 60);
    TwoReads(time / 1000 % 60);
    ThreeReads(time % 1000);
    var fraction := Printed(time % 1000, 3);
    assert (fraction + "000")[..3] == fraction;
    TimeParts(time);
  }

  lemma ThreeReads(n: nat)
    requires n < 1000
    ensures Number(Printed(n, 3)) == n
  {
    assert Limit(3) == 1000;
    NumberPrinted(n, 3);
  }

  lemma TimeParts(time: int)
    requires 0 <= time < DAY
    ensures time / HOUR <= 23
    ensures time / HOUR * HOUR + time / MINUTE % 60 * MINUTE + time / 1000 % 60 * 1000 + time % 1000 == time
  {
    var second := time / 1000;
    var minute := second / 60;
    assert 1000 * second <= time < 1000 * second + 1000 && 60 * minute <= second < 60 * minute + 60;
    QuotientIs(time, MINUTE, minute);
    assert 60 * (minute / 60) <= minute < 60 * (minute / 60) + 60;
    QuotientIs(time, HOUR, minute / 60);
  }

  lemma DayReads(t: int, offset: Option<string>)
    requires YearInRange(t / DAY) && OffsetOk(offset)
    ensures CapturesOk(WallCaptures(t, offset)) && DayOf(WallCaptures(t, offset)) == Some(t / DAY)
  {
    hide OffsetText, Printed, YearPrinted, Number, CivilOf, DayNumber;
    var d := CivilOf(t / DAY);
    YearReads(d.year);
    TwoReads(d.month);
    TwoReads(d.day);
    FirstOfMonth(d);
    CivilNumber(t / DAY);
  }

  lemma FirstOfMonth(d: Date)
    ensures DayNumber(d.(day := 1)) + (d.day - 1) == DayNumber(d)
  {}

  /** Printing and parsing an instant gives it back, in any zone, exactly when it is within TimeClip. */
  lemma IsoRoundTripExactly(t: int, zone: Zone)
    requires YearInRange(t / DAY)
    ensures ParseIso(IsoString(t), zone) == Some(t) <==> -CLIP <= t <= CLIP
  {
    hide Scan, CivilOf, Printed, YearPrinted, Number, DayNumber, IsoString, YearInRange, DayOf, TimeOf;
    IsoScans(t);
    DayReads(t, Some("Z"));
    TimeReads(t, Some("Z"));
    assert t / DAY * DAY + t % DAY == t;
    IsoYear(t);
  }

  lemma IsoYear(t: int)
    requires YearInRange(t / DAY)
    ensures IsoCaptures(t).year != "-000000"
  {
    YearReads(CivilOf(t / DAY).year);
  }

  lemma ClipInRange(t: int)
    requires -CLIP <= t <= CLIP
    ensures YearInRange(t / DAY)
  {
    YearBound(t / DAY);
  }

  /** A parsed date survives being printed and parsed again, whatever the zones. */
  lemma ParsedSurvives(raw: string, zone: Zone, other: Zone)
    requires ParseIso(raw, zone).Some?
    ensures ParseIso(IsoString(ParseIso(raw, zone).value), other) == ParseIso(raw, zone)
  {
    hide Scan, Unclipped, IsoString, YearInRange;
    var t := ParseIso(raw, zone).value;
    assert -CLIP <= t <= CLIP;
    ClipInRange(t);
    IsoRoundTripExactly(t, other);
  }

  // ---------------------------------------------------------------- overflowing days

  /** Day `day` of a month that may be shorter: the date itself, or the surplus in the next month. */
  function Overflowed(year: int, month: int, day: int): Date {
    var surplus := day - DaysInMonth(year, month);
    if surplus <= 0 then Date(year, month, day) else NextMonth(Date(year, month, day)).(day := surplus)
  }

  lemma OverflowedNumber(year: int, month: int, day: int)
    requires 1 <= month <= 12 && 1 <= day <= 31
    ensures Valid(Overflowed(year, month, day))
    ensures DayNumber(Overflowed(year, month, day)) == DayNumber(Date(year, month, 1)) + (day - 1)
  {}

  /** A date-only text denotes the UTC midnight of its day, overflowing into the next month. */
  lemma DateOnlyMeaning(raw: string, f: Captures, zone: Zone)
    requires Scan(raw) == Some(f) && f.clock.None? && f.year != "-000000" && CapturesOk(f)
    requires 1 <= NumberOr(f.month, 1) <= 12 && 1 <= NumberOr(f.day, 1) <= 31
    ensures ParseIso(raw, zone)
        == Clipped(Some(DayNumber(Overflowed(Signed(f.year), NumberOr(f.month, 1), NumberOr(f.day, 1))) * DAY))
  {
    hide Scan, DayNumber, Overflowed, Number, Signed, CivilOf;
    OverflowedNumber(Signed(f.year), NumberOr(f.month, 1), NumberOr(f.day, 1));
    var n := DayNumber(Date(Signed(f.year), NumberOr(f.month, 1), 1)) + (NumberOr(f.day, 1) - 1);
    assert n * DAY / DAY == n;
    if -CLIP <= n * DAY <= CLIP {
      ClipInRange(n * DAY);
    }
  }

  // ---------------------------------------------------------------- offsets

  /** Both spellings of an offset denote it, with its sign. */
  lemma OffsetMeaning(negative: bool, hour: nat, minute: nat, colon: bool)
    requires hour < 100 && minute < 100
    ensures var s := [if negative then '-' else '+'] + Printed(hour, 2) + (if colon then ":" else "")
        + Printed(minute, 2);
      OffsetText(s) && ParseOffset(s) ==
        if hour > 23 || minute > 59 then None else Some((if negative then -1 else 1) * (hour * HOUR + minute * MINUTE))
  {
    hide Printed, Number;
    TwoReads(hour);
    TwoReads(minute);
    var s := [if negative then '-' else '+'] + Printed(hour, 2) + (if colon then ":" else "") + Printed(minute, 2);
    assert s[1..3] == Printed(hour, 2);
    assert (if colon then s[4..] else s[3..]) == Printed(minute, 2);
    assert !colon ==> s[1..] == Printed(hour, 2) + Printed(minute, 2);
  }

  // ---------------------------------------------------------------- local time

  /** The displacement repeats every 400 years outside the years the tables tell apart. */
  ghost predicate Periodic(zone: Zone) {
    && (forall d: Date, time: int ::
        d.year >= 8000 ==> zone.displacement(d.(year := d.year + 400), time) == zone.displacement(d, time))
    && (forall d: Date, time: int ::
        d.year <= -7601 ==> zone.displacement(d.(year := d.year - 400), time) == zone.displacement(d, time))
  }

  lemma {:induction false} PeriodsUp(zone: Zone, d: Date, time: int, k: nat)
    requires Periodic(zone) && d.year >= 8000
    ensures zone.displacement(d.(year := d.year + 400 * k), time) == zone.displacement(d, time)
  {
    if k > 0 {
      PeriodsUp(zone, d, time, k - 1);
      var e := d.(year := d.year + 400 * (k - 1));
      assert e.(year := e.year + 400) == d.(year := d.year + 400 * k);
    } else {
      assert d.(year := d.year + 400 * k) == d;
    }
  }

  lemma {:induction false} PeriodsDown(zone: Zone, d: Date, time: int, k: nat)
    requires Periodic(zone) && d.year <= -7601
    ensures zone.displacement(d.(year := d.year - 400 * k), time) == zone.displacement(d, time)
  {
    if k > 0 {
      PeriodsDown(zone, d, time, k - 1);
      var e := d.(year := d.year - 400 * (k - 1));
      assert e.(year := e.year - 400) == d.(year := d.year - 400 * k);
    } else {
      assert d.(year := d.year - 400 * k) == d;
    }
  }

  /** The surrogate year is a whole number of 400-year periods away, within the range of the tables. */
  lemma SurrogateShift(year: int) returns (k: int)
    ensures SurrogateYear(year) == year + 400 * k
    ensures -9999 < SurrogateYear(year) < 9999
    ensures year >= 9999 ==> k <= 0 && SurrogateYear(year) >= 8000
    ensures year <= -9999 ==> k >= 0 && SurrogateYear(year) <= -7601
    ensures -9999 < year < 9999 ==> k == 0
  {
    k := if year >= 9999 then 20 - year / 400 else if year <= -9999 then -20 - year / 400 else 0;
  }

  lemma WholeWeeks(n: int)
    ensures 7 * n % 7 == 0
  {}

  /** So it keeps leap years and weekdays, and every date of the year exists in it too. */
  lemma SurrogateFits(d: Date)
    requires Valid(d)
    ensures var s := d.(year := SurrogateYear(d.year));
      Valid(s) && IsLeap(s.year) == IsLeap(d.year) && (DayNumber(s) - DayNumber(d)) % 7 == 0
  {
    hide DaysBeforeYear, SurrogateYear, IsLeap;
    var k := SurrogateShift(d.year);
    FourCenturies(d.year, k);
    assert DayNumber(d.(year := d.year + 400 * k)) - DayNumber(d) == 7 * (20871 * k);
    WholeWeeks(20871 * k);
  }

  /** Going through the surrogate year gives what the zone itself gives at the original year. */
  lemma LocalEqualsDirect(t: int, zone: Zone)
    requires Periodic(zone)
    ensures LocalToUtc(t, zone) == Checked(t + zone.displacement(CivilOf(t / DAY), t % DAY))
  {
    hide CivilOf, Periodic, YearInRange, SurrogateYear, DayNumber, IsLeap, Valid;
    var d := CivilOf(t / DAY);
    var s := d.(year := SurrogateYear(d.year));
    SurrogateFits(d);
    var k := SurrogateShift(d.year);
    if d.year >= 9999 {
      PeriodsUp(zone, s, t % DAY, -k);
      assert s.(year := s.year + 400 * -k) == d;
    } else if d.year <= -9999 {
      PeriodsDown(zone, s, t % DAY, k);
      assert s.(year := s.year - 400 * k) == d;
    } else {
      assert s == d;
    }
  }
}
