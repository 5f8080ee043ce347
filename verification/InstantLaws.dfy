/** What a text with a clock denotes: its wall time, less its offset, or moved by the zone's displacement. */
module InstantLaws {
  import opened Text
  import opened Calendar
  import opened Dates
  import opened Instants

  // ---------------------------------------------------------------- the wall time of a text

  ghost predicate DateOk(f: Captures)
    requires CapturesOk(f)
  {
    f.year != "-000000" && 1 <= NumberOr(f.month, 1) <= 12 && 1 <= NumberOr(f.day, 1) <= 31
  }

  ghost predicate AllZeros(s: string) { forall c | c in s :: c == '0' }

  /** A time of day, or the midnight that ends the day, spelled with zeros only. */
  ghost predicate ClockFits(k: Clock)
    requires ClockOk(k)
  {
    && Number(k.minute) <= 59 && NumberOr(k.second, 0) <= 59
    && (|| Number(k.hour) <= 23
        || (Number(k.hour) == 24 && Number(k.minute) == 0 && NumberOr(k.second, 0) == 0
            && (k.fraction.Some? ==> AllZeros(k.fraction.value))))
  }

  /** The date, with surplus days in the next month, and the time of day in milliseconds. */
  ghost function Wall(f: Captures): int
    requires CapturesOk(f) && f.clock.Some?
  {
    var k := f.clock.value;
    DayNumber(Overflowed(Signed(f.year), NumberOr(f.month, 1), NumberOr(f.day, 1))) * 86_400_000
    + Number(k.hour) * 3_600_000 + Number(k.minute) * 60_000 + NumberOr(k.second, 0) * 1000 + Millis(k.fraction)
  }

  lemma {:induction false} NumberBound(s: string)
    requires Digits(s)
    ensures Number(s) < Limit(|s|)
  {
    if s == "" {
    } else {
      NumberBound(s[..|s| - 1]);
    }
  }

  lemma SignedBound(year: string)
    requires YearText(year)
    ensures -999_999 <= Signed(year) <= 999_999
  {
    assert Limit(4) == 10_000 && Limit(6) == 1_000_000;
    if |year| == 4 {
      NumberBound(year);
    } else {
      NumberBound(year[1..]);
    }
  }

  /** Overflowing days stay within the year. */
  lemma DayIs(f: Captures)
    requires CapturesOk(f) && DateOk(f)
    ensures var d := Overflowed(Signed(f.year), NumberOr(f.month, 1), NumberOr(f.day, 1));
      DayOf(f) == Some(DayNumber(d)) && CivilOf(DayNumber(d)) == d && d.year == Signed(f.year)
  {
    hide CivilOf, Number, Signed, DayNumber, YearText;
    var month, day := NumberOr(f.month, 1), NumberOr(f.day, 1);
    SignedBound(f.year);
    OverflowedNumber(Signed(f.year), month, day);
    NumberCivil(Overflowed(Signed(f.year), month, day));
  }

  lemma {:induction false} NoMillis(fraction: string)
    requires Digits(fraction) && AllZeros(fraction)
    ensures Millis(Some(fraction)) == 0
  {
    var digits := (fraction + "000")[..3];
    assert forall i | 0 <= i < |fraction| :: fraction[i] in fraction;
    assert digits == "000";
    NumberStep(digits, 0);
    NumberStep(digits, 1);
    NumberStep(digits, 2);
    EmptyNumber();
    assert digits[..0] == "" && digits[..3] == digits;
  }

  lemma TimeIs(k: Clock)
    requires ClockOk(k)
    ensures TimeOf(Some(k)) == if !ClockFits(k) then None else Some(
      Number(k.hour) * 3_600_000 + Number(k.minute) * 60_000 + NumberOr(k.second, 0) * 1000 + Millis(k.fraction))
    ensures ClockFits(k) ==> 0 <= TimeOf(Some(k)).value <= DAY
  {
    hide Number;
    MillisBound(k.fraction);
    if k.fraction.Some? {
      var s := k.fraction.value;
      assert forall i | 0 <= i < |s| :: s[i] in s;
      assert AllZeros(s) <==> forall i | 0 <= i < |s| :: s[i] == '0';
      if AllZeros(s) {
        NoMillis(s);
      }
    }
  }

  lemma MillisBound(fraction: Option<string>)
    requires fraction.Some? ==> Digits(fraction.value)
    ensures 0 <= Millis(fraction) < 1000
  {
    if fraction.Some? {
      NumberBound((fraction.value + "000")[..3]);
      assert Limit(3) == 1000;
    }
  }

  // ---------------------------------------------------------------- beyond the years

  /** A wall time whose year has more than six digits is more than a day beyond TimeClip. */
  lemma FarOut(t: int, o: int)
    requires !YearInRange(t / DAY) && -DAY <= o <= DAY
    ensures Clipped(Some(t - o)) == None
  {
    hide CivilOf;
    if -300_000_000 <= t / DAY <= 300_000_000 {
      YearBound(t / DAY);
    }
    assert t / DAY * DAY <= t < t / DAY * DAY + DAY;
  }

  lemma ClippedInRange(t: int)
    ensures Clipped(Checked(t)) == Clipped(Some(t))
  {
    hide YearInRange;
    if -CLIP <= t <= CLIP {
      ClipInRange(t);
    }
  }

  // ---------------------------------------------------------------- with an offset

  /** The text of an offset from UTC. */
  function OffsetSpelled(negative: bool, hour: nat, minute: nat, colon: bool): string {
    [if negative then '-' else '+'] + Printed(hour, 2) + (if colon then ":" else "") + Printed(minute, 2)
  }

  /** A clock text with an offset denotes its wall time less the offset, clipped; no impossible part is accepted. */
  lemma OffsetClockMeaning(
      raw: string, f: Captures, zone: Zone, negative: bool, hour: nat, minute: nat, colon: bool)
    requires Scan(raw) == Some(f) && CapturesOk(f) && f.clock.Some? && hour < 100 && minute < 100
    requires f.clock.value.offset == Some(OffsetSpelled(negative, hour, minute, colon))
    ensures var o := hour * 3_600_000 + minute * 60_000;
      ParseIso(raw, zone) ==
        if !DateOk(f) || !ClockFits(f.clock.value) || hour > 23 || minute > 59 then None
        else if negative then Clipped(Some(Wall(f) + o)) else Clipped(Some(Wall(f) - o))
  {
    hide Scan, DayNumber, Overflowed, Number, Signed, CivilOf, Printed, YearInRange, Millis;
    OffsetMeaning(negative, hour, minute, colon);
    TimeIs(f.clock.value);
    if DateOk(f) && ClockFits(f.clock.value) && hour <= 23 && minute <= 59 {
      DayIs(f);
      var o := if negative then -(hour * HOUR + minute * MINUTE) else hour * HOUR + minute * MINUTE;
      assert Wall(f) == DayOf(f).value * DAY + TimeOf(f.clock).value;
      if YearInRange(Wall(f) / DAY) {
        ClippedInRange(Wall(f) - o);
      } else {
        FarOut(Wall(f), o);
      }
    }
  }

  /** The same with `Z`. */
  lemma ZuluMeaning(raw: string, f: Captures, zone: Zone)
    requires Scan(raw) == Some(f) && CapturesOk(f) && f.clock.Some?
    requires f.clock.value.offset == Some("Z") || f.clock.value.offset == Some("z")
    ensures ParseIso(raw, zone)
         == if !DateOk(f) || !ClockFits(f.clock.value) then None else Clipped(Some(Wall(f)))
  {
    hide Scan, DayNumber, Overflowed, Number, Signed, CivilOf, YearInRange, Millis;
    TimeIs(f.clock.value);
    if DateOk(f) && ClockFits(f.clock.value) {
      DayIs(f);
      assert Wall(f) == DayOf(f).value * DAY + TimeOf(f.clock).value;
      if YearInRange(Wall(f) / DAY) {
        ClippedInRange(Wall(f) - 0);
      } else {
        FarOut(Wall(f), 0);
      }
    }
  }

  /** Every offset the pattern captures has one of these spellings. */
  lemma OffsetSpellings(s: string) returns (negative: bool, hour: nat, minute: nat, colon: bool)
    requires OffsetText(s)
    ensures s == "Z" || s == "z" || (hour < 100 && minute < 100 && s == OffsetSpelled(negative, hour, minute, colon))
  {
    negative, hour, minute, colon := false, 0, 0, false;
    if s != "Z" && s != "z" {
      colon := |s| == 6;
      negative := s[0] == '-';
      hour := TwoSpelled(s[1..3]);
      minute := TwoSpelled(if colon then s[4..] else s[3..]);
      assert s == [s[0]] + s[1..3] + (if colon then ":" else "") + (if colon then s[4..] else s[3..]);
    }
  }

  lemma TwoSpelled(s: string) returns (n: nat)
    requires TwoDigits(s)
    ensures n < 100 && s == Printed(n, 2)
  {
    n := (s[0] - '0') as nat * 10 + (s[1] - '0') as nat;
    assert Printed(n, 2) == Printed(n / 10, 1) + ['0' + (n % 10) as char];
    assert Printed(n / 10, 1) == Printed(n / 10 / 10, 0) + ['0' + (n / 10 % 10) as char];
    assert Printed(n / 10 / 10, 0) == "";
  }

  /** The wall time at any offset, followed by that offset in either spelling, is read back as the instant. */
  lemma OffsetRoundTrip(t: int, zone: Zone, negative: bool, hour: nat, minute: nat, colon: bool)
    requires -CLIP <= t <= CLIP && hour <= 23 && minute <= 59
    ensures var o := hour * 3_600_000 + minute * 60_000;
      var wall := if negative then t - o else t + o;
      ParseIso(WallText(wall) + OffsetSpelled(negative, hour, minute, colon), zone) == Some(t)
  {
    hide Scan, CivilOf, Printed, YearPrinted, Number, DayNumber, WallText, YearInRange, DayOf, TimeOf, ParseOffset;
    hide WallCaptures, OffsetText;
    var o := hour * HOUR + minute * MINUTE;
    var w := if negative then t - o else t + o;
    var s := OffsetSpelled(negative, hour, minute, colon);
    OffsetMeaning(negative, hour, minute, colon);
    WallInRange(w);
    WallScans(w, Some(s));
    assert "" + s == s;
    DayReads(w, Some(s));
    TimeReads(w, Some(s));
    WallYear(w, Some(s));
    assert w / DAY * DAY + w % DAY == w;
    ClipInRange(t);
  }

  lemma WallInRange(w: int)
    requires -CLIP - DAY <= w <= CLIP + DAY
    ensures YearInRange(w / DAY)
  {
    YearBound(w / DAY);
  }

  lemma WallYear(w: int, offset: Option<string>)
    requires YearInRange(w / DAY)
    ensures var f := WallCaptures(w, offset);
      f.year != "-000000" && f.clock.Some? && f.clock.value.offset == offset
  {
    YearReads(CivilOf(w / DAY).year);
  }

  // ---------------------------------------------------------------- without an offset

  /** A wall time without an offset is moved by the zone's displacement there. */
  lemma LocalRoundTrip(w: int, zone: Zone)
    requires YearInRange(w / DAY) && Periodic(zone)
    ensures ParseIso(WallText(w), zone) == Clipped(Some(w + zone.displacement(CivilOf(w / DAY), w % DAY)))
  {
    hide Scan, CivilOf, Printed, YearPrinted, Number, DayNumber, WallText, YearInRange, DayOf, TimeOf, LocalToUtc;
    hide WallCaptures, OffsetText, Periodic;
    WallScans(w, None);
    assert WallText(w) + "" == WallText(w);
    DayReads(w, None);
    TimeReads(w, None);
    WallYear(w, None);
    assert w / DAY * DAY + w % DAY == w;
    LocalEqualsDirect(w, zone);
    ClippedInRange(w + zone.displacement(CivilOf(w / DAY), w % DAY));
  }

  /** The same for any spelling, its date overflowing and its clock possibly short. */
  lemma LocalClockMeaning(raw: string, f: Captures, zone: Zone)
    requires Scan(raw) == Some(f) && CapturesOk(f) && f.clock.Some? && f.clock.value.offset == None && Periodic(zone)
    ensures ParseIso(raw, zone) ==
      if !DateOk(f) || !ClockFits(f.clock.value) || CivilOf(Wall(f) / DAY).year == 1_000_000 then None
      else Clipped(Some(Wall(f) + zone.displacement(CivilOf(Wall(f) / DAY), Wall(f) % DAY)))
  {
    hide Scan, DayNumber, Overflowed, Number, Signed, CivilOf, Millis, LocalToUtc, Periodic;
    TimeIs(f.clock.value);
    if DateOk(f) && ClockFits(f.clock.value) {
      DayIs(f);
      SignedBound(f.year);
      assert Wall(f) == DayOf(f).value * DAY + TimeOf(f.clock).value;
      WallYears(DayOf(f).value, TimeOf(f.clock).value);
      LocalEqualsDirect(Wall(f), zone);
      ClippedInRange(Wall(f) + zone.displacement(CivilOf(Wall(f) / DAY), Wall(f) % DAY));
    }
  }

  /** Only the midnight that ends the last year leaves the years of six digits. */
  lemma WallYears(n: int, time: int)
    requires YearInRange(n) && 0 <= time <= DAY
    ensures var y := CivilOf((n * DAY + time) / DAY).year; y == CivilOf(n).year || y == CivilOf(n).year + 1
  {
    if time < DAY {
      assert (n * DAY + time) / DAY == n;
    } else {
      assert (n * DAY + time) / DAY == n + 1;
      NextCivil(n);
    }
  }

  lemma NextCivil(n: int)
    ensures CivilOf(n + 1) == Next(CivilOf(n))
  {
    CivilNumber(n);
    NextNumber(CivilOf(n));
    NumberCivil(Next(CivilOf(n)));
  }

  // ---------------------------------------------------------------- midnight

  /** Hour 24 is read as the midnight that ends the day, and only with zeros behind it. */
  lemma MidnightExactly(d: Date, minute: nat, second: nat, milli: nat, zone: Zone)
    requires Valid(d) && -CLIP <= DayNumber(d) * DAY < CLIP && minute <= 59 && second <= 59 && milli <= 999
    ensures var date := DatePrinted(YearPrinted(d.year), Printed(d.month, 2), Printed(d.day, 2));
      var clock := TimePrinted("24", Printed(minute, 2), Printed(second, 2), Printed(milli, 3));
      ParseIso(date + clock + "Z", zone)
        == if minute == 0 && second == 0 && milli == 0 then Some((DayNumber(d) + 1) * 86_400_000) else None
  {
    hide Scan, CivilOf, Printed, YearPrinted, Number, DayNumber, YearInRange, Overflowed, DatePrinted, TimePrinted;
    hide Millis, Wall, TimeOf;
    var f := Captures(YearPrinted(d.year), Some(Printed(d.month, 2)), Some(Printed(d.day, 2)),
      Some(Clock("24", Printed(minute, 2), Some(Printed(second, 2)), Some(Printed(milli, 3)), Some("Z"))));
    TextScans(f.year, f.month.value, f.day.value, "24", Printed(minute, 2), Printed(second, 2), Printed(milli, 3),
      Some("Z"));
    assert "" + "Z" == "Z";
    var raw := DatePrinted(f.year, f.month.value, f.day.value)
      + TimePrinted("24", Printed(minute, 2), Printed(second, 2), Printed(milli, 3)) + "Z";
    ZuluMeaning(raw, f, zone);
    DateReads(d);
    TwentyFour();
    TwoReads(minute);
    TwoReads(second);
    ThreeReads(milli);
    FractionReads(milli);
    assert DateOk(f);
    assert ClockFits(f.clock.value) <==> minute == 0 && second == 0 && milli == 0;
    if minute == 0 && second == 0 && milli == 0 {
      MidnightWall(d, f);
    }
  }

  lemma MidnightWall(d: Date, f: Captures)
    requires CapturesOk(f) && f.clock.Some? && Valid(d)
    requires Signed(f.year) == d.year && NumberOr(f.month, 1) == d.month && NumberOr(f.day, 1) == d.day
    requires var k := f.clock.value;
      Number(k.hour) == 24 && Number(k.minute) == 0 && NumberOr(k.second, 0) == 0 && Millis(k.fraction) == 0
    ensures Wall(f) == (DayNumber(d) + 1) * 86_400_000
  {
    hide Number, Signed, DayNumber, Millis;
  }

  lemma DateReads(d: Date)
    requires Valid(d) && -CLIP <= DayNumber(d) * DAY < CLIP
    ensures Signed(YearPrinted(d.year)) == d.year && YearPrinted(d.year) != "-000000"
    ensures Number(Printed(d.month, 2)) == d.month && Number(Printed(d.day, 2)) == d.day
  {
    hide CivilOf, Printed, YearPrinted, Number, DayNumber;
    YearBound(DayNumber(d));
    NumberCivil(d);
    YearReads(d.year);
    TwoReads(d.month);
    TwoReads(d.day);
  }

  lemma TwentyFour()
    ensures Digits("24") && Number("24") == 24
  {
    TwoReads(24);
    assert Printed(24, 2) == "24";
  }

  lemma FractionReads(milli: nat)
    requires milli <= 999
    ensures Millis(Some(Printed(milli, 3))) == milli && (AllZeros(Printed(milli, 3)) <==> milli == 0)
  {
    ThreeReads(milli);
    var s := Printed(milli, 3);
    assert (s + "000")[..3] == s;
    if AllZeros(s) {
      NoMillis(s);
    }
    if milli == 0 {
      assert s == "000";
    }
  }

  // ---------------------------------------------------------------- printing

  /** Years of four digits are printed bare, all others with a sign and six digits. */
  lemma YearShape(t: int)
    ensures var year, s := CivilOf(t / DAY).year, IsoString(t);
      if 0 <= year <= 9999 then |s| == 24 && IsDigit(s[0])
      else |s| == 27 && s[0] == if year < 0 then '-' else '+'
  {
    hide CivilOf, Printed;
    var d, time := CivilOf(t / DAY), t % DAY;
    assert 0 <= d.year <= 9999 ==> IsDigit(Printed(d.year, 4)[0]);
    assert IsoString(t)[0] == YearPrinted(d.year)[0];
  }
}
