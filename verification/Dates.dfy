/** ISO date inputs: recognition, JavaScript-compatible overflow, offsets and local time. */
module Dates {
  import opened Text
  import opened Calendar

  // ---------------------------------------------------------------- the pattern

  /** The clock part: hour and minute, and the optional second, fraction and offset. */
  datatype Clock = Clock(hour: string, minute: string, second: Option<string>, fraction: Option<string>,
      offset: Option<string>)

  datatype Captures = Captures(year: string, month: Option<string>, day: Option<string>, clock: Option<Clock>)

  predicate IsDigit(c: char) { '0' <= c <= '9' }

  predicate Digits(s: string) { forall i | 0 <= i < |s| :: IsDigit(s[i]) }

  predicate IsSign(c: char) { c == '+' || c == '-' }

  predicate YearText(s: string) { (|s| == 4 && Digits(s)) || (|s| == 7 && IsSign(s[0]) && Digits(s[1..])) }

  predicate TwoDigits(s: string) { |s| == 2 && Digits(s) }

  predicate OffsetText(s: string) {
    || s == "Z" || s == "z"
    || (|s| == 5 && IsSign(s[0]) && Digits(s[1..]))
    || (|s| == 6 && IsSign(s[0]) && TwoDigits(s[1..3]) && s[3] == ':' && TwoDigits(s[4..]))
  }

  predicate ClockOk(k: Clock) {
    && TwoDigits(k.hour) && TwoDigits(k.minute)
    && (k.second.Some? ==> TwoDigits(k.second.value))
    && (k.fraction.Some? ==> k.second.Some? && k.fraction.value != [] && Digits(k.fraction.value))
    && (k.offset.Some? ==> OffsetText(k.offset.value))
  }

  /** What the groups of the pattern may capture. */
  predicate CapturesOk(f: Captures) {
    && YearText(f.year)
    && (f.month.Some? ==> TwoDigits(f.month.value))
    && (f.day.Some? ==> f.month.Some? && TwoDigits(f.day.value))
    && (f.clock.Some? ==> ClockOk(f.clock.value))
  }

  function Prefixed(separator: string, part: Option<string>): string {
    if part.Some? then separator + part.value else ""
  }

  /** The text with these captures, for either spelling of the letter between date and clock. */
  function Spelled(f: Captures, t: char): string {
    f.year + (Prefixed("-", f.month) + (Prefixed("-", f.day) + ClockSpelled(f.clock, t)))
  }

  function ClockSpelled(clock: Option<Clock>, t: char): string {
    if clock.None? then "" else [t] + (clock.value.hour + ([':'] + (clock.value.minute + RestSpelled(clock.value))))
  }

  function RestSpelled(k: Clock): string { Prefixed(":", k.second) + EndSpelled(k.fraction, k.offset) }

  function EndSpelled(fraction: Option<string>, offset: Option<string>): string {
    Prefixed(".", fraction) + Prefixed("", offset)
  }

  // ---------------------------------------------------------------- recognition, left to right

  function DigitRun(s: string): (n: nat)
    ensures n <= |s| && Digits(s[..n]) && (n < |s| ==> !IsDigit(s[n]))
  {
    if s == "" || !IsDigit(s[0]) then 0 else 1 + DigitRun(s[1..])
  }

  function ScanOffset(s: string): Option<Option<string>> {
    if s == "" then Some(None) else if OffsetText(s) then Some(Some(s)) else None
  }

  function ScanEnd(s: string): Option<(Option<string>, Option<string>)> {
    var n := if s != "" && s[0] == '.' then DigitRun(s[1..]) else 0;
    match ScanOffset(if n > 0 then s[1 + n..] else s)
    case None => None
    case Some(offset) => Some((if n > 0 then Some(s[1..1 + n]) else None, offset))
  }

  predicate StartsPair(s: string, separator: char) { |s| >= 3 && s[0] == separator && Digits(s[1..3]) }

  function ScanRest(hour: string, minute: string, s: string): Option<Clock> {
    var timed := StartsPair(s, ':');
    match ScanEnd(if timed then s[3..] else s)
    case None => None
    case Some((fraction, offset)) =>
      if fraction.Some? && !timed then None
      else Some(Clock(hour, minute, if timed then Some(s[1..3]) else None, fraction, offset))
  }

  function ScanClock(s: string): Option<Option<Clock>> {
    if s == "" then Some(None)
    else if |s| >= 6 && (s[0] == 'T' || s[0] == 't') && Digits(s[1..3]) && s[3] == ':' && Digits(s[4..6]) then
      match ScanRest(s[1..3], s[4..6], s[6..])
      case None => None
      case Some(clock) => Some(Some(clock))
    else None
  }

  function ScanMonth(year: string, s: string): Option<Captures> {
    var monthly := StartsPair(s, '-');
    var rest := if monthly then s[3..] else s;
    var daily := monthly && StartsPair(rest, '-');
    match ScanClock(if daily then rest[3..] else rest)
    case None => None
    case Some(clock) =>
      Some(Captures(year, if monthly then Some(s[1..3]) else None, if daily then Some(rest[1..3]) else None, clock))
  }

  function Scan(s: string): Option<Captures> {
    if |s| >= 4 && YearText(s[..4]) then ScanMonth(s[..4], s[4..])
    else if |s| >= 7 && YearText(s[..7]) then ScanMonth(s[..7], s[7..])
    else None
  }

  // ---------------------------------------------------------------- recognition is exact

  lemma {:induction false} RunOfDigits(digits: string, rest: string)
    requires Digits(digits) && (rest != "" ==> !IsDigit(rest[0]))
    ensures DigitRun(digits + rest) == |digits|
  {
    if digits == "" {
      assert digits + rest == rest;
    } else {
      assert (digits + rest)[1..] == digits[1..] + rest;
      RunOfDigits(digits[1..], rest);
    }
  }

  predicate OffsetOk(offset: Option<string>) { offset.Some? ==> OffsetText(offset.value) }

  predicate FractionOk(fraction: Option<string>) { fraction.Some? ==> fraction.value != "" && Digits(fraction.value) }

  lemma ScanOffsetExactly(s: string, offset: Option<string>)
    ensures ScanOffset(s) == Some(offset) <==> OffsetOk(offset) && s == Prefixed("", offset)
  {
    if offset.Some? {
      assert "" + offset.value == offset.value;
    }
  }

  lemma ScanEndExactly(s: string, fraction: Option<string>, offset: Option<string>)
    ensures ScanEnd(s) == Some((fraction, offset))
        <==> FractionOk(fraction) && OffsetOk(offset) && s == EndSpelled(fraction, offset)
  {
    hide ScanEnd, FractionOk, OffsetOk, EndSpelled;
    if ScanEnd(s) == Some((fraction, offset)) {
      ScanEndSound(s, fraction, offset);
    }
    if FractionOk(fraction) && OffsetOk(offset) && s == EndSpelled(fraction, offset) {
      EndScans(fraction, offset);
    }
  }

  lemma EndIs(digits: string, offset: Option<string>)
    ensures EndSpelled(Some(digits), offset) == ['.'] + (digits + Prefixed("", offset))
    ensures EndSpelled(None, offset) == Prefixed("", offset)
  {}

  lemma ScanEndSound(s: string, fraction: Option<string>, offset: Option<string>)
    requires ScanEnd(s) == Some((fraction, offset))
    ensures FractionOk(fraction) && OffsetOk(offset) && s == EndSpelled(fraction, offset)
  {
    hide OffsetOk, FractionOk, ScanOffset, DigitRun, EndSpelled;
    var n := if s != "" && s[0] == '.' then DigitRun(s[1..]) else 0;
    if n > 0 {
      FractionSound(s, n, offset);
    } else {
      PlainSound(s, offset);
    }
  }

  lemma PlainSound(s: string, offset: Option<string>)
    requires ScanOffset(s) == Some(offset)
    ensures FractionOk(None) && OffsetOk(offset) && s == EndSpelled(None, offset)
  {
    hide EndSpelled, OffsetOk;
    ScanOffsetExactly(s, offset);
    EndIs("", offset);
  }

  lemma FractionSound(s: string, n: nat, offset: Option<string>)
    requires s != "" && s[0] == '.' && 0 < n < |s| && Digits(s[1..][..n]) && ScanOffset(s[1 + n..]) == Some(offset)
    ensures FractionOk(Some(s[1..1 + n])) && OffsetOk(offset) && s == EndSpelled(Some(s[1..1 + n]), offset)
  {
    hide EndSpelled, OffsetOk, ScanOffset;
    ScanOffsetExactly(s[1 + n..], offset);
    EndIs(s[1..1 + n], offset);
    assert s[1..1 + n] == s[1..][..n];
    assert s == ['.'] + (s[1..1 + n] + s[1 + n..]);
  }

  lemma EndScans(fraction: Option<string>, offset: Option<string>)
    requires FractionOk(fraction) && OffsetOk(offset)
    ensures ScanEnd(EndSpelled(fraction, offset)) == Some((fraction, offset))
  {
    hide OffsetText, ScanEnd, ScanOffset, OffsetOk;
    var rest := Prefixed("", offset);
    ScanOffsetExactly(rest, offset);
    OffsetPart(offset);
    if fraction.Some? {
      assert EndSpelled(fraction, offset) == ['.'] + (fraction.value + rest);
      FractionScans(fraction.value, rest, offset);
    } else {
      assert EndSpelled(fraction, offset) == rest;
      PlainScans(rest, offset);
    }
  }

  lemma OffsetPart(offset: Option<string>)
    requires OffsetOk(offset)
    ensures var rest := Prefixed("", offset); rest != "" ==> !IsDigit(rest[0]) && rest[0] != '.'
  {}

  lemma PlainScans(rest: string, offset: Option<string>)
    requires (rest != "" ==> rest[0] != '.') && ScanOffset(rest) == Some(offset)
    ensures ScanEnd(rest) == Some((None, offset))
  {
    hide ScanOffset;
  }

  lemma FractionScans(digits: string, rest: string, offset: Option<string>)
    requires digits != "" && Digits(digits) && (rest != "" ==> !IsDigit(rest[0])) && ScanOffset(rest) == Some(offset)
    ensures ScanEnd(['.'] + (digits + rest)) == Some((Some(digits), offset))
  {
    hide ScanOffset, DigitRun;
    var s := ['.'] + (digits + rest);
    assert s[1..] == digits + rest;
    RunOfDigits(digits, rest);
    assert s[1..1 + |digits|] == digits && s[1 + |digits|..] == rest;
  }

  /** A pair of digits behind its separator. */
  lemma PairStarts(separator: char, pair: string, rest: string)
    requires TwoDigits(pair)
    ensures var s := [separator] + pair + rest; StartsPair(s, separator) && s[1..3] == pair && s[3..] == rest
  {}

  lemma PairSplits(s: string, separator: char)
    requires StartsPair(s, separator)
    ensures TwoDigits(s[1..3]) && s == [separator] + s[1..3] + s[3..]
  {}

  lemma ScanRestExactly(hour: string, minute: string, s: string, k: Clock)
    requires TwoDigits(hour) && TwoDigits(minute)
    ensures ScanRest(hour, minute, s) == Some(k)
        <==> ClockOk(k) && k.hour == hour && k.minute == minute && s == RestSpelled(k)
  {
    hide OffsetText, TwoDigits, ScanEnd, EndSpelled;
    var timed := StartsPair(s, ':');
    if timed {
      PairSplits(s, ':');
    }
    ScanEndExactly(if timed then s[3..] else s, k.fraction, k.offset);
    if ClockOk(k) && k.hour == hour && k.minute == minute && s == RestSpelled(k) {
      if k.second.Some? {
        assert s == [':'] + k.second.value + EndSpelled(k.fraction, k.offset);
        PairStarts(':', k.second.value, EndSpelled(k.fraction, k.offset));
      } else {
        assert s == EndSpelled(k.fraction, k.offset);
        EndNotPair(k.offset);
      }
    }
  }

  lemma EndNotPair(offset: Option<string>)
    requires OffsetOk(offset)
    ensures !StartsPair(EndSpelled(None, offset), ':')
  {}

  lemma ScanClockExactly(s: string, clock: Option<Clock>)
    ensures ScanClock(s) == Some(clock) <==>
      (clock.Some? ==> ClockOk(clock.value)) && (s == ClockSpelled(clock, 'T') || s == ClockSpelled(clock, 't'))
  {
    hide ClockOk, ScanRest, RestSpelled;
    if |s| >= 6 && (s[0] == 'T' || s[0] == 't') && Digits(s[1..3]) && s[3] == ':' && Digits(s[4..6]) {
      assert s == [s[0]] + (s[1..3] + ([':'] + (s[4..6] + s[6..])));
      if clock.Some? {
        ScanRestExactly(s[1..3], s[4..6], s[6..], clock.value);
      }
    }
    if clock.Some? && ClockOk(clock.value) && (s == ClockSpelled(clock, 'T') || s == ClockSpelled(clock, 't')) {
      ClockParts(clock.value, s);
      ScanRestExactly(s[1..3], s[4..6], s[6..], clock.value);
    }
  }

  lemma ClockParts(k: Clock, s: string)
    requires ClockOk(k) && (s == ClockSpelled(Some(k), 'T') || s == ClockSpelled(Some(k), 't'))
    ensures |s| >= 6 && (s[0] == 'T' || s[0] == 't') && Digits(s[1..3]) && s[3] == ':' && Digits(s[4..6])
    ensures s[1..3] == k.hour && s[4..6] == k.minute && s[6..] == RestSpelled(k)
  {
    hide OffsetText, RestSpelled;
    var rest := RestSpelled(k);
    assert s[1..] == k.hour + ([':'] + (k.minute + rest));
    assert s[1..3] == k.hour && s[4..6] == k.minute && s[6..] == rest;
  }

  lemma ScanMonthExactly(year: string, s: string, f: Captures)
    requires YearText(year)
    ensures ScanMonth(year, s) == Some(f) <==>
      CapturesOk(f) && f.year == year
      && (s == Prefixed("-", f.month) + (Prefixed("-", f.day) + ClockSpelled(f.clock, 'T'))
          || s == Prefixed("-", f.month) + (Prefixed("-", f.day) + ClockSpelled(f.clock, 't')))
  {
    hide ClockOk, ScanClock, ClockSpelled, YearText;
    var monthly := StartsPair(s, '-');
    var rest := if monthly then s[3..] else s;
    var daily := monthly && StartsPair(rest, '-');
    if monthly { PairSplits(s, '-'); }
    if daily { PairSplits(rest, '-'); }
    ScanClockExactly(if daily then rest[3..] else rest, f.clock);
    forall t | t == 'T' || t == 't'
      ensures s == Prefixed("-", f.month) + (Prefixed("-", f.day) + ClockSpelled(f.clock, t)) && CapturesOk(f) ==>
        monthly == f.month.Some? && daily == f.day.Some? && (monthly ==> s[1..3] == f.month.value)
        && (daily ==> rest[1..3] == f.day.value) && (if daily then rest[3..] else rest) == ClockSpelled(f.clock, t)
    {
      if s == Prefixed("-", f.month) + (Prefixed("-", f.day) + ClockSpelled(f.clock, t)) && CapturesOk(f) {
        MonthParts(f, s, t);
      }
    }
  }

  lemma MonthParts(f: Captures, s: string, t: char)
    requires CapturesOk(f) && (t == 'T' || t == 't')
    requires s == Prefixed("-", f.month) + (Prefixed("-", f.day) + ClockSpelled(f.clock, t))
    ensures StartsPair(s, '-') == f.month.Some?
    ensures f.month.Some? ==> s[1..3] == f.month.value && StartsPair(s[3..], '-') == f.day.Some?
    ensures f.day.Some? ==> s[3..][1..3] == f.day.value && s[3..][3..] == ClockSpelled(f.clock, t)
    ensures f.day.None? ==> (if f.month.Some? then s[3..] else s) == ClockSpelled(f.clock, t)
  {}

  /** The scan succeeds on exactly the texts the pattern matches, with the only captures it can have. */
  lemma ScanExactly(s: string, f: Captures)
    ensures Scan(s) == Some(f) <==> CapturesOk(f) && (s == Spelled(f, 'T') || s == Spelled(f, 't'))
  {
    hide ClockOk, ScanMonth, ClockSpelled;
    forall n | (n == 4 || n == 7) && n <= |s| && YearText(s[..n])
      ensures s == s[..n] + s[n..]
    {}
    if |s| >= 4 && YearText(s[..4]) {
      ScanMonthExactly(s[..4], s[4..], f);
    } else if |s| >= 7 && YearText(s[..7]) {
      ScanMonthExactly(s[..7], s[7..], f);
    }
    forall t | (t == 'T' || t == 't') && CapturesOk(f) && s == Spelled(f, t)
      ensures s[..|f.year|] == f.year && (|f.year| == 7 ==> !YearText(s[..4]))
      ensures s[|f.year|..] == Prefixed("-", f.month) + (Prefixed("-", f.day) + ClockSpelled(f.clock, t))
    {
      var tail := Prefixed("-", f.month) + (Prefixed("-", f.day) + ClockSpelled(f.clock, t));
      assert s == f.year + tail;
      assert s[..|f.year|] == f.year && s[|f.year|..] == tail;
      assert s[0] == f.year[0] && s[..4][0] == s[0];
    }
  }
}
