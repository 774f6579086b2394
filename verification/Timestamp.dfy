/**
 * `valid_timestamp` of `handshake.rs`: exactly the date-times of section 5.6 of RFC 3339 with upper-case T and Z, up to
 * 64 bytes.
 */
module Timestamp {
  import opened Wrappers
  import opened FrameReader

  type Bytes = seq<Byte>

  // ---- Date-times and their text ---------------------------------------------------------

  datatype Offset = Zulu | Shift(ahead: bool, hours: nat, minutes: nat)

  datatype Moment = Moment(year: nat, month: nat, day: nat, hour: nat, minute: nat, second: nat)

  datatype Stamp = Stamp(moment: Moment, fraction: Option<Bytes>, offset: Offset)

  predicate IsLeap(year: nat) { year % 400 == 0 || (year % 4 == 0 && year % 100 != 0) }

  function DaysInMonth(year: nat, month: nat): nat {
    match month
    case 2 => if IsLeap(year) then 29 else 28
    case 4 => 30
    case 6 => 30
    case 9 => 30
    case 11 => 30
    case _ => 31
  }

  predicate ValidMoment(m: Moment) {
    && 1 <= m.month <= 12 && 1 <= m.day <= DaysInMonth(m.year, m.month)
    && m.hour <= 23 && m.minute <= 59 && m.second <= 60
  }

  predicate IsDigit(b: Byte) { '0' as int <= b <= '9' as int }

  predicate AllDigits(s: Bytes) { forall i :: 0 <= i < |s| ==> IsDigit(s[i]) }

  predicate ValidStamp(s: Stamp) {
    && ValidMoment(s.moment) && s.moment.year <= 9999
    && (s.fraction.Some? ==> |s.fraction.value| > 0 && AllDigits(s.fraction.value))
    && (s.offset.Shift? ==> s.offset.hours <= 23 && s.offset.minutes <= 59)
  }

  /** `n` in exactly `len` decimal digits. */
  function Digits(n: nat, len: nat): (s: Bytes)
    ensures |s| == len
  {
    if len == 0 then [] else Digits(n / 10, len - 1) + ['0' as int + n % 10]
  }

  function RenderMoment(m: Moment): (s: Bytes)
    ensures |s| == 19
  {
    Digits(m.year, 4) + ['-' as int] + Digits(m.month, 2) + ['-' as int] + Digits(m.day, 2) + ['T' as int]
    + Digits(m.hour, 2) + [':' as int] + Digits(m.minute, 2) + [':' as int] + Digits(m.second, 2)
  }

  function RenderFraction(fraction: Option<Bytes>): Bytes {
    if fraction.Some? then ['.' as int] + fraction.value else []
  }

  function RenderOffset(offset: Offset): Bytes {
    match offset
    case Zulu => ['Z' as int]
    case Shift(ahead, hours, minutes) =>
      [if ahead then '+' as int else '-' as int] + Digits(hours, 2) + [':' as int] + Digits(minutes, 2)
  }

  function Render(s: Stamp): Bytes {
    RenderMoment(s.moment) + RenderFraction(s.fraction) + RenderOffset(s.offset)
  }

  // ---- The recognizer --------------------------------------------------------------------

  predicate IsSpace(b: Byte) { b == 32 || b == 9 || b == 10 || b == 12 || b == 13 }

  /** `ascii_digits`: false rather than a fault when the part runs past the end. */
  predicate DigitsAt(bytes: Bytes, start: nat, len: nat) {
    start + len <= |bytes| && AllDigits(bytes[start..start + len])
  }

  function ValueOf(s: Bytes): nat
    requires AllDigits(s)
  {
    if |s| == 0 then 0 else ValueOf(s[..|s| - 1]) * 10 + (s[|s| - 1] - '0' as int)
  }

  function Component(bytes: Bytes, start: nat, len: nat): nat
    requires DigitsAt(bytes, start, len)
  {
    ValueOf(bytes[start..start + len])
  }

  predicate MomentShape(bytes: Bytes)
    requires |bytes| >= 19
  {
    && bytes[4] == '-' as int && bytes[7] == '-' as int && bytes[10] == 'T' as int && bytes[13] == ':' as int
        && bytes[16] == ':' as int
    && DigitsAt(bytes, 0, 4) && DigitsAt(bytes, 5, 2) && DigitsAt(bytes, 8, 2)
    && DigitsAt(bytes, 11, 2) && DigitsAt(bytes, 14, 2) && DigitsAt(bytes, 17, 2)
  }

  function MomentOf(bytes: Bytes): Moment
    requires |bytes| >= 19 && MomentShape(bytes)
  {
    Moment(Component(bytes, 0, 4), Component(bytes, 5, 2), Component(bytes, 8, 2),
           Component(bytes, 11, 2), Component(bytes, 14, 2), Component(bytes, 17, 2))
  }

  /** The end of the run of digits that starts at `i`. */
  function DigitsEnd(bytes: Bytes, i: nat): (e: nat)
    requires i <= |bytes|
    ensures i <= e <= |bytes| && AllDigits(bytes[i..e])
    ensures e < |bytes| ==> !IsDigit(bytes[e])
    decreases |bytes| - i
  {
    if i < |bytes| && IsDigit(bytes[i]) then DigitsEnd(bytes, i + 1) else i
  }

  predicate HasFraction(bytes: Bytes)
    requires |bytes| >= 20
  {
    bytes[19] == '.' as int
  }

  function OffsetStart(bytes: Bytes): (e: nat)
    requires |bytes| >= 20
    ensures 19 <= e <= |bytes|
  {
    if HasFraction(bytes) then DigitsEnd(bytes, 20) else 19
  }

  predicate OffsetOk(bytes: Bytes, e: nat)
    requires e <= |bytes|
  {
    if e == |bytes| then false
    else if bytes[e] == 'Z' as int then e + 1 == |bytes|
    else if bytes[e] == '+' as int || bytes[e] == '-' as int then
      && e + 6 == |bytes| && bytes[e + 3] == ':' as int
      && DigitsAt(bytes, e + 1, 2) && DigitsAt(bytes, e + 4, 2)
      && Component(bytes, e + 1, 2) <= 23 && Component(bytes, e + 4, 2) <= 59
    else false
  }

  predicate Accepts(bytes: Bytes) {
    && 20 <= |bytes| <= 64
    && (forall i :: 0 <= i < |bytes| ==> !IsSpace(bytes[i]))
    && MomentShape(bytes) && ValidMoment(MomentOf(bytes))
    && (HasFraction(bytes) ==> OffsetStart(bytes) > 20)
    && OffsetOk(bytes, OffsetStart(bytes))
  }

  /** `valid_timestamp`, with the loops of its scans; no index is ever out of range. */
  method ValidTimestamp(bytes: Bytes) returns (ok: bool)
    ensures ok == Accepts(bytes)
  {
    if |bytes| > 64 || |bytes| < 20 {
      return false;
    }
    var spaces := 0;
    while spaces < |bytes| && !IsSpace(bytes[spaces])
      invariant spaces <= |bytes| && forall i :: 0 <= i < spaces ==> !IsSpace(bytes[i])
    {
      spaces := spaces + 1;
    }
    if spaces < |bytes| || !MomentShape(bytes) {
      return false;
    }
    if !ValidMoment(MomentOf(bytes)) {
      return false;
    }
    var index := 19;
    if bytes[index] == '.' as int {
      index := index + 1;
      while index < |bytes| && IsDigit(bytes[index])
        invariant 20 <= index <= |bytes| && DigitsEnd(bytes, 20) == DigitsEnd(bytes, index)
      {
        index := index + 1;
      }
      if index == 20 {
        return false;
      }
    }
    return OffsetOk(bytes, index);
  }

  // ---- Numbers and digits ----------------------------------------------------------------

  function Pow10(n: nat): nat { if n == 0 then 1 else 10 * Pow10(n - 1) }

  lemma {:induction false} DigitsOfValue(s: Bytes)
    requires AllDigits(s)
    ensures Digits(ValueOf(s), |s|) == s && ValueOf(s) < Pow10(|s|)
  {
    if |s| > 0 {
      var front, last := s[..|s| - 1], s[|s| - 1] - '0' as int;
      DigitsOfValue(front);
      assert ValueOf(s) == ValueOf(front) * 10 + last;
      assert ValueOf(s) / 10 == ValueOf(front) && ValueOf(s) % 10 == last;
    }
  }

  lemma {:induction false} ValueOfDigits(n: nat, len: nat)
    requires n < Pow10(len)
    ensures AllDigits(Digits(n, len)) && ValueOf(Digits(n, len)) == n
  {
    if len > 0 {
      ValueOfDigits(n / 10, len - 1);
      assert Digits(n, len)[..len - 1] == Digits(n / 10, len - 1);
    }
  }

  lemma Pow10Values()
    ensures Pow10(2) == 100 && Pow10(4) == 10_000
  {
    assert Pow10(1) == 10 && Pow10(3) == 1_000;
  }

  /** A digit part in the middle of a text: reading it inverts rendering it, in both directions. */
  lemma PartReads(before: Bytes, n: nat, len: nat, rest: Bytes)
    requires n < Pow10(len)
    ensures var bytes := before + Digits(n, len) + rest;
            DigitsAt(bytes, |before|, len) && Component(bytes, |before|, len) == n
  {
    ValueOfDigits(n, len);
    var bytes := before + Digits(n, len) + rest;
    assert bytes[|before|..|before| + len] == Digits(n, len);
  }

  lemma PartRenders(bytes: Bytes, start: nat, len: nat)
    requires DigitsAt(bytes, start, len)
    ensures Digits(Component(bytes, start, len), len) == bytes[start..start + len]
    ensures Component(bytes, start, len) < Pow10(len)
  {
    DigitsOfValue(bytes[start..start + len]);
  }

  // ---- The calendar ------------------------------------------------------------------------

  /** Days before the year that begins with March of `y`. */
  function DaysBefore(y: int): int { 365 * y + y / 4 - y / 100 + y / 400 }

  /** Days from the first of March to the first of the month. */
  function DaysFromMarch(month: nat): int { (153 * ((month + 9) % 12) + 2) / 5 }

  /** The Gregorian day count of a date, with years that begin in March; no month length and no leap rule in it. */
  function DayNumber(year: nat, month: nat, day: nat): int
    requires 1 <= month <= 12
  {
    DaysBefore(if month <= 2 then year - 1 else year) + DaysFromMarch(month) + day
  }

  function FirstOfNextMonth(year: nat, month: nat): int
    requires 1 <= month <= 12
  {
    if month == 12 then DayNumber(year + 1, 1, 1) else DayNumber(year, month + 1, 1)
  }

  lemma MonthLengths(year: nat, month: nat)
    requires 1 <= month <= 12
    ensures FirstOfNextMonth(year, month) - DayNumber(year, month, 1) == DaysInMonth(year, month)
  {
    LeapDay(year);
    MonthStarts();
    hide IsLeap, DaysBefore, DaysFromMarch;
  }

  lemma MonthStarts()
    ensures DaysFromMarch(3) == 0 && DaysFromMarch(4) == 31 && DaysFromMarch(5) == 61 && DaysFromMarch(6) == 92
    ensures DaysFromMarch(7) == 122 && DaysFromMarch(8) == 153 && DaysFromMarch(9) == 184 && DaysFromMarch(10) == 214
    ensures DaysFromMarch(11) == 245 && DaysFromMarch(12) == 275 && DaysFromMarch(1) == 306 && DaysFromMarch(2) == 337
  {
  }

  lemma LeapDay(year: nat)
    ensures DaysBefore(year) - DaysBefore(year - 1) == if IsLeap(year) then 366 else 365
  {
    StepOfQuotient(year, 4);
    StepOfQuotient(year, 100);
    StepOfQuotient(year, 400);
    Centuries(year);
    Cycles(year);
    var quarters, centuries, cycles := year / 4, year / 100, year / 400;
    var a, b, c := year % 4 == 0, year % 100 == 0, year % 400 == 0;
    assert (b ==> a) && (c ==> b);
  }

  lemma StepOfQuotient(n: nat, d: nat)
    requires d == 4 || d == 100 || d == 400
    ensures n / d - (n - 1) / d == if n % d == 0 then 1 else 0
  {
  }

  lemma Centuries(year: nat)
    ensures year % 100 == 0 ==> year % 4 == 0
  {
    if year % 100 == 0 {
      var q := year / 100;
      assert year == 100 * q;
      assert year / 4 == 25 * q;
    }
  }

  lemma Cycles(year: nat)
    ensures year % 400 == 0 ==> year % 100 == 0
  {
    if year % 400 == 0 {
      var q := year / 400;
      assert year == 400 * q;
      assert year / 100 == 4 * q;
    }
  }

  /** The accepted dates are those of the Gregorian calendar: the day count stays below the next month's first. */
  lemma CalendarIsGregorian(m: Moment)
    ensures ValidMoment(m)
            <==> 1 <= m.month <= 12 && 1 <= m.day
                 && DayNumber(m.year, m.month, m.day) < FirstOfNextMonth(m.year, m.month)
                 && m.hour < 24 && m.minute < 60 && m.second <= 60
  {
    hide IsLeap, DaysInMonth, DaysBefore, DaysFromMarch;
    if 1 <= m.month <= 12 {
      MonthLengths(m.year, m.month);
    }
  }

  // ---- Dates -----------------------------------------------------------------------------

  lemma MomentRenders(bytes: Bytes)
    requires |bytes| >= 19 && MomentShape(bytes)
    ensures RenderMoment(MomentOf(bytes)) == bytes[..19] && MomentOf(bytes).year <= 9999
  {
    hide Digits, Component, AllDigits;
    Pow10Values();
    PartRenders(bytes, 0, 4);
    PartRenders(bytes, 5, 2);
    PartRenders(bytes, 8, 2);
    PartRenders(bytes, 11, 2);
    PartRenders(bytes, 14, 2);
    PartRenders(bytes, 17, 2);
  }

  lemma DaysBelow100(year: nat, month: nat)
    ensures 28 <= DaysInMonth(year, month) <= 31
  {
  }

  lemma MomentReads(m: Moment, rest: Bytes)
    requires ValidMoment(m) && m.year <= 9999
    ensures MomentShape(RenderMoment(m) + rest) && MomentOf(RenderMoment(m) + rest) == m
  {
    hide Digits, Component, AllDigits, DaysInMonth;
    DaysBelow100(m.year, m.month);
    Pow10Values();
    var bytes := RenderMoment(m) + rest;
    var dash, colon := ['-' as int], [':' as int];
    PartReads([], m.year, 4, bytes[4..]);
    assert [] + Digits(m.year, 4) + bytes[4..] == bytes;
    MomentPart(bytes, 5, m.month);
    MomentPart(bytes, 8, m.day);
    MomentPart(bytes, 11, m.hour);
    MomentPart(bytes, 14, m.minute);
    MomentPart(bytes, 17, m.second);
  }

  lemma MomentPart(bytes: Bytes, start: nat, n: nat)
    requires start + 2 <= |bytes| && n < 100 && bytes[start..start + 2] == Digits(n, 2)
    ensures DigitsAt(bytes, start, 2) && Component(bytes, start, 2) == n
  {
    Pow10Values();
    ValueOfDigits(n, 2);
  }

  // ---- Fractions and offsets ---------------------------------------------------------------

  lemma {:induction false} DigitsEndIs(bytes: Bytes, i: nat, e: nat)
    requires i <= e <= |bytes| && AllDigits(bytes[i..e]) && (e < |bytes| ==> !IsDigit(bytes[e]))
    ensures DigitsEnd(bytes, i) == e
    decreases e - i
  {
    if i < e {
      assert bytes[i..e][0] == bytes[i];
      assert bytes[i + 1..e] == bytes[i..e][1..];
      DigitsEndIs(bytes, i + 1, e);
    }
  }

  function OffsetOf(bytes: Bytes, e: nat): Offset
    requires e <= |bytes| && OffsetOk(bytes, e)
  {
    if bytes[e] == 'Z' as int then Zulu
    else Shift(bytes[e] == '+' as int, Component(bytes, e + 1, 2), Component(bytes, e + 4, 2))
  }

  lemma OffsetRenders(bytes: Bytes, e: nat)
    requires e <= |bytes| && OffsetOk(bytes, e)
    ensures RenderOffset(OffsetOf(bytes, e)) == bytes[e..]
  {
    hide Digits, Component;
    if bytes[e] != 'Z' as int {
      PartRenders(bytes, e + 1, 2);
      PartRenders(bytes, e + 4, 2);
    }
  }

  lemma OffsetReads(before: Bytes, offset: Offset)
    requires offset.Shift? ==> offset.hours <= 23 && offset.minutes <= 59
    ensures OffsetOk(before + RenderOffset(offset), |before|)
    ensures OffsetOf(before + RenderOffset(offset), |before|) == offset
  {
    hide Digits, Component;
    var bytes, e := before + RenderOffset(offset), |before|;
    if offset.Shift? {
      assert bytes[e + 1..e + 3] == Digits(offset.hours, 2);
      assert bytes[e + 4..e + 6] == Digits(offset.minutes, 2);
      MomentPart(bytes, e + 1, offset.hours);
      MomentPart(bytes, e + 4, offset.minutes);
    }
  }

  // ---- The recognizer is exact -------------------------------------------------------------

  function StampOf(bytes: Bytes): Stamp
    requires Accepts(bytes)
  {
    var e := OffsetStart(bytes);
    Stamp(MomentOf(bytes), if HasFraction(bytes) then Some(bytes[20..e]) else None, OffsetOf(bytes, e))
  }

  /** Everything accepted is the text of a valid date-time. */
  lemma AcceptedIsRendered(bytes: Bytes)
    requires Accepts(bytes)
    ensures ValidStamp(StampOf(bytes)) && Render(StampOf(bytes)) == bytes
  {
    hide RenderMoment, MomentOf, MomentShape, RenderOffset, ValidMoment, Component;
    var e := OffsetStart(bytes);
    MomentRenders(bytes);
    OffsetRenders(bytes, e);
    assert RenderFraction(StampOf(bytes).fraction) == bytes[19..e];
    assert bytes[..19] + bytes[19..e] + bytes[e..] == bytes;
  }

  lemma FractionReads(moment: Bytes, fraction: Option<Bytes>, offset: Bytes)
    requires |moment| == 19 && |offset| > 0 && !IsDigit(offset[0]) && offset[0] != '.' as int
    requires fraction.Some? ==> |fraction.value| > 0 && AllDigits(fraction.value)
    ensures var bytes := moment + RenderFraction(fraction) + offset;
            && HasFraction(bytes) == fraction.Some?
            && OffsetStart(bytes) == 19 + |RenderFraction(fraction)|
            && (fraction.Some? ==> bytes[20..OffsetStart(bytes)] == fraction.value)
  {
    var bytes := moment + RenderFraction(fraction) + offset;
    if fraction.Some? {
      var e := 20 + |fraction.value|;
      assert bytes[20..e] == fraction.value;
      assert bytes[e] == offset[0];
      DigitsEndIs(bytes, 20, e);
    }
  }

  lemma NoSpaces(s: Stamp)
    requires ValidStamp(s)
    ensures forall b :: b in Render(s) ==> !IsSpace(b)
  {
    var m, o := s.moment, s.offset;
    DaysBelow100(m.year, m.month);
    DigitsHaveNoSpaces(m.year, 4);
    DigitsHaveNoSpaces(m.month, 2);
    DigitsHaveNoSpaces(m.day, 2);
    DigitsHaveNoSpaces(m.hour, 2);
    DigitsHaveNoSpaces(m.minute, 2);
    DigitsHaveNoSpaces(m.second, 2);
    if o.Shift? {
      DigitsHaveNoSpaces(o.hours, 2);
      DigitsHaveNoSpaces(o.minutes, 2);
    }
  }

  lemma {:induction false} DigitsHaveNoSpaces(n: nat, len: nat)
    ensures forall b :: b in Digits(n, len) ==> !IsSpace(b)
  {
    if len > 0 {
      DigitsHaveNoSpaces(n / 10, len - 1);
    }
  }

  /** The text of every valid date-time of at most 64 bytes is accepted, and read back as that date-time. */
  lemma RenderedIsAccepted(s: Stamp)
    requires ValidStamp(s) && |Render(s)| <= 64
    ensures Accepts(Render(s)) && StampOf(Render(s)) == s
  {
    hide RenderMoment, MomentOf, MomentShape, RenderOffset, ValidMoment, Component, OffsetOf, OffsetOk, IsSpace,
         OffsetStart;
    var bytes := Render(s);
    var moment, fraction, offset := RenderMoment(s.moment), RenderFraction(s.fraction), RenderOffset(s.offset);
    OffsetHead(s.offset);
    FractionReads(moment, s.fraction, offset);
    assert moment + (fraction + offset) == bytes;
    MomentReads(s.moment, fraction + offset);
    OffsetReads(moment + fraction, s.offset);
    NoSpaces(s);
  }

  lemma OffsetHead(offset: Offset)
    ensures |RenderOffset(offset)| > 0
    ensures !IsDigit(RenderOffset(offset)[0]) && RenderOffset(offset)[0] != '.' as int
  {
  }

  /** The recognizer decides the grammar with its calendar: no string more, no string less. */
  lemma AcceptsIffRendered(bytes: Bytes)
    ensures Accepts(bytes) <==> |bytes| <= 64 && exists s :: ValidStamp(s) && Render(s) == bytes
  {
    if Accepts(bytes) {
      AcceptedIsRendered(bytes);
    }
    if s :| |bytes| <= 64 && ValidStamp(s) && Render(s) == bytes {
      RenderedIsAccepted(s);
    }
  }

  /** Two valid date-times never share a text. */
  lemma RenderIsInjective(a: Stamp, b: Stamp)
    requires ValidStamp(a) && ValidStamp(b) && Render(a) == Render(b) && |Render(a)| <= 64
    ensures a == b
  {
    RenderedIsAccepted(a);
    RenderedIsAccepted(b);
  }
}
