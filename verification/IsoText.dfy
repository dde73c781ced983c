/**
 ISO-8601 timestamps as text, written down independently of the readers: what each of the two readers makes of every
 one of them, and that the action channel's reader accepts nothing else.
 */
module IsoText {
  import opened Wrappers
  import opened CivilDate
  import opened Timestamps

  datatype Zone = Utc | Offset(ahead: bool, hours: nat, minutes: nat)

  /** The numbers of a timestamp, and the digits of its fraction as they are written. */
  datatype Moment = Moment(year: nat, month: nat, day: nat, hour: nat, minute: nat, second: nat,
                           fraction: Option<string>, zone: Zone)

  predicate Writable(m: Moment) {
    && m.year < 10000 && m.month < 100 && m.day < 100 && m.hour < 100 && m.minute < 100 && m.second < 100
    && (m.fraction.Some? ==> m.fraction.value != "" && AllDigits(m.fraction.value, 0, |m.fraction.value|))
    && (m.zone.Offset? ==> m.zone.hours < 100 && m.zone.minutes < 100)
  }

  function Digit(n: nat): (c: char)
    requires n < 10
    ensures IsDigit(c) && DigitValue(c) == n
  {
    n as char + '0'
  }

  function Pair(n: nat): (s: string)
    requires n < 100
    ensures |s| == 2
  {
    [Digit(n / 10), Digit(n % 10)]
  }

  /** Date and time, in nineteen characters. */
  function Base(m: Moment): (s: string)
    requires Writable(m)
    ensures |s| == 19
  {
    [Digit(m.year / 1000), Digit(m.year / 100 % 10), Digit(m.year / 10 % 10), Digit(m.year % 10), '-']
    + Pair(m.month) + ['-'] + Pair(m.day) + ['T'] + Pair(m.hour) + [':'] + Pair(m.minute) + [':'] + Pair(m.second)
  }

  function FractionText(m: Moment): string { if m.fraction.Some? then ['.'] + m.fraction.value else "" }

  function ZoneText(z: Zone): string
    requires z.Offset? ==> z.hours < 100 && z.minutes < 100
  {
    match z
    case Utc => ['Z']
    case Offset(ahead, h, min) => [if ahead then '+' else '-'] + Pair(h) + [':'] + Pair(min)
  }

  function Iso(m: Moment): string
    requires Writable(m)
  {
    Base(m) + FractionText(m) + ZoneText(m.zone)
  }

  /** The offset from UTC in minutes. */
  function OffsetMinutes(z: Zone): int {
    if z.Utc? then 0 else if z.ahead then z.hours * 60 + z.minutes else -(z.hours * 60 + z.minutes)
  }

  /** Seconds since 1970 in UTC. */
  function UtcSeconds(m: Moment): int {
    DaysFromCivil(m.year, m.month, m.day) * 86400 + m.hour * 3600 + m.minute * 60 + m.second - OffsetMinutes(m.zone) * 60
  }

  // ----- Reading what is written

  lemma PairAt(s: string, pos: nat, n: nat)
    requires n < 100 && pos + 2 <= |s| && s[pos] == Digit(n / 10) && s[pos + 1] == Digit(n % 10)
    ensures DigitsAt(s, pos, 2) == Some(n)
  {
    hide DigitsAt, Digit;
    Two(s, pos);
  }

  lemma YearAt(s: string, y: nat)
    requires y < 10000 && 4 <= |s| && s[0] == Digit(y / 1000) && s[1] == Digit(y / 100 % 10)
    requires s[2] == Digit(y / 10 % 10) && s[3] == Digit(y % 10)
    ensures DigitsAt(s, 0, 4) == Some(y)
  {
    hide DigitsAt, Digit;
    Four(s);
    assert y / 100 == y / 1000 * 10 + y / 100 % 10 && y / 10 == y / 100 * 10 + y / 10 % 10;
  }

  /** The nineteen characters of date and time, one by one. */
  lemma BaseChars(m: Moment)
    requires Writable(m)
    ensures
      var s := Base(m);
      && s[0] == Digit(m.year / 1000) && s[1] == Digit(m.year / 100 % 10) && s[2] == Digit(m.year / 10 % 10)
      && s[3] == Digit(m.year % 10) && s[4] == '-' && s[5] == Digit(m.month / 10) && s[6] == Digit(m.month % 10) && s[7] == '-'
      && s[8] == Digit(m.day / 10) && s[9] == Digit(m.day % 10) && s[10] == 'T' && s[11] == Digit(m.hour / 10)
      && s[12] == Digit(m.hour % 10) && s[13] == ':' && s[14] == Digit(m.minute / 10) && s[15] == Digit(m.minute % 10)
      && s[16] == ':' && s[17] == Digit(m.second / 10) && s[18] == Digit(m.second % 10)
  {
    hide Digit;
  }

  lemma FieldsRead(m: Moment)
    requires Writable(m)
    ensures HasFields(Iso(m)) && HasSeparators(Iso(m)) && |Iso(m)| >= 20
    ensures DigitsAt(Iso(m), 0, 4) == Some(m.year) && DigitsAt(Iso(m), 5, 2) == Some(m.month)
    ensures DigitsAt(Iso(m), 8, 2) == Some(m.day) && DigitsAt(Iso(m), 11, 2) == Some(m.hour)
    ensures DigitsAt(Iso(m), 14, 2) == Some(m.minute) && DigitsAt(Iso(m), 17, 2) == Some(m.second)
  {
    var s := Iso(m);
    BaseChars(m);
    ZoneLength(m.zone);
    hide DigitsAt, Digit, Base, FractionText, ZoneText, Pair;
    assert forall i | 0 <= i < 19 :: s[i] == Base(m)[i];
    YearAt(s, m.year);
    PairAt(s, 5, m.month);
    PairAt(s, 8, m.day);
    PairAt(s, 11, m.hour);
    PairAt(s, 14, m.minute);
    PairAt(s, 17, m.second);
  }

  lemma ZoneLength(z: Zone)
    requires z.Offset? ==> z.hours < 100 && z.minutes < 100
    ensures |ZoneText(z)| == if z.Utc? then 1 else 6
    ensures !IsDigit(ZoneText(z)[0]) && ZoneText(z)[0] != '.'
  {
  }

  lemma ZoneRead(s: string, pos: nat, z: Zone)
    requires z.Offset? ==> z.hours < 100 && z.minutes < 100
    requires pos <= |s| && s[pos..] == ZoneText(z)
    ensures ZoneMinutes(s, pos) == Some(OffsetMinutes(z))
  {
    ZoneLength(z);
    var t := s[pos..];
    assert forall i | 0 <= i < |t| :: s[pos + i] == t[i];
    if z.Offset? {
      assert t[0] == s[pos] && t[1] == s[pos + 1] && t[2] == s[pos + 2] && t[3] == s[pos + 3] && t[4] == s[pos + 4]
        && t[5] == s[pos + 5];
      ZoneChars(z);
      hide DigitsAt, Digit, ZoneText, Pair;
      PairAt(s, pos + 1, z.hours);
      PairAt(s, pos + 4, z.minutes);
    } else {
      assert s[pos] == t[0];
    }
  }

  lemma ZoneChars(z: Zone)
    requires z.Offset? && z.hours < 100 && z.minutes < 100
    ensures
      var t := ZoneText(z);
      && t[0] == (if z.ahead then '+' else '-') && t[1] == Digit(z.hours / 10) && t[2] == Digit(z.hours % 10) && t[3] == ':'
      && t[4] == Digit(z.minutes / 10) && t[5] == Digit(z.minutes % 10)
  {
    hide Digit;
  }

  /** The run of digits is as long as they go. */
  lemma {:induction false} RunIs(s: string, pos: nat, n: nat)
    requires pos + n <= |s| && AllDigits(s, pos, pos + n) && (pos + n < |s| ==> !IsDigit(s[pos + n]))
    ensures DigitRun(s, pos) == n
    decreases n
  {
    if n > 0 {
      RunIs(s, pos + 1, n - 1);
    }
  }

  lemma {:induction false} DecimalShift(s: string, pos: nat, t: string, k: nat)
    requires k <= |t| && pos + |t| <= |s| && s[pos..pos + |t|] == t && AllDigits(t, 0, |t|)
    ensures AllDigits(s, pos, pos + k) && Decimal(s, pos, pos + k) == Decimal(t, 0, k)
    decreases k
  {
    if k > 0 {
      DecimalShift(s, pos, t, k - 1);
      assert t[k - 1] == s[pos + (k - 1)];
    }
  }

  function Shorter(n: nat): nat { if n < 3 then n else 3 }

  /** The fraction's first three digits as a number. */
  function Face(digits: string): nat
    requires AllDigits(digits, 0, |digits|)
  {
    Decimal(digits, 0, Shorter(|digits|))
  }

  lemma FractionRead(m: Moment)
    requires Writable(m)
    ensures HasFraction(Iso(m)) <==> m.fraction.Some?
    ensures ZoneMinutes(Iso(m), ZoneStart(Iso(m))) == Some(OffsetMinutes(m.zone))
    ensures m.fraction.Some? ==>
              DigitRun(Iso(m), 20) == |m.fraction.value| && FractionValue(Iso(m), 20) == Face(m.fraction.value)
  {
    ZoneLength(m.zone);
    if m.fraction.Some? {
      FractionSplit(Base(m), m.fraction.value, ZoneText(m.zone));
      hide Base, ZoneText, DigitRun, ZoneMinutes, Decimal, Face, FractionValue;
      TailRead(Iso(m), m.fraction.value, m.zone);
    } else {
      var s, z := Iso(m), ZoneText(m.zone);
      hide Base, ZoneText, DigitRun, ZoneMinutes;
      assert s == Base(m) + z;
      assert s[19..] == z;
      assert s[19] == z[0];
      ZoneRead(s, 19, m.zone);
    }
  }

  lemma TailRead(s: string, d: string, zone: Zone)
    requires zone.Offset? ==> zone.hours < 100 && zone.minutes < 100
    requires 20 + |d| < |s| && s[19] == '.' && s[20..20 + |d|] == d && s[20 + |d|..] == ZoneText(zone)
    requires d != "" && AllDigits(d, 0, |d|) && !IsDigit(s[20 + |d|])
    ensures DigitRun(s, 20) == |d| && FractionValue(s, 20) == Face(d)
    ensures ZoneMinutes(s, ZoneStart(s)) == Some(OffsetMinutes(zone))
  {
    hide ZoneText, DigitRun, ZoneMinutes, Decimal, OffsetMinutes;
    DecimalShift(s, 20, d, |d|);
    RunIs(s, 20, |d|);
    DecimalShift(s, 20, d, Shorter(|d|));
    ZoneRead(s, 20 + |d|, zone);
  }

  lemma FractionSplit(a: string, d: string, z: string)
    requires |a| == 19 && z != ""
    ensures
      var s := a + (['.'] + d) + z;
      s[19] == '.' && s[20..20 + |d|] == d && s[20 + |d|..] == z && s[20 + |d|] == z[0]
  {
    var s := a + (['.'] + d) + z;
    assert s == a + ['.'] + d + z;
  }

  /** What the fraction is worth to the pairing controller: tenths, hundredths or thousandths of a second. */
  function Padded(digits: string): nat
    requires AllDigits(digits, 0, |digits|)
  {
    if |digits| == 1 then Face(digits) * 100 else if |digits| == 2 then Face(digits) * 10 else Face(digits)
  }

  /**
   Every timestamp as it is written: the action channel reads the milliseconds since 1970 in UTC, with the fraction's first
   three digits at face value; the pairing controller reads the same with a short fraction scaled, and refuses what is
   before 1970.
   */
  lemma IsoRead(m: Moment)
    requires Writable(m)
    ensures
      var face := if m.fraction.Some? then Face(m.fraction.value) else 0;
      ChannelMillis(Iso(m)) == Some(UtcSeconds(m) * 1000 + face)
    ensures
      var padded := if m.fraction.Some? then Padded(m.fraction.value) else 0;
      PairingMillis(Iso(m)) == if UtcSeconds(m) < 0 then None else Some(UtcSeconds(m) * 1000 + padded)
  {
    FieldsRead(m);
    FractionRead(m);
    var s := Iso(m);
    assert Seconds(s, OffsetMinutes(m.zone)) == UtcSeconds(m) by {
      hide Iso, DigitsAt, DaysFromCivil, OffsetMinutes, HasSeparators;
    }
    hide Iso, DigitsAt, DigitRun, ZoneMinutes, FractionValue, Decimal, ZoneStart, OffsetMinutes, Seconds, UtcSeconds,
      HasFields, HasFraction, HasSeparators;
  }

  /** On a calendar date the days are those of the calendar: one more for each date after 1970-01-01. */
  lemma IsoReadOnDate(m: Moment, n: nat)
    requires Writable(m) && Date(m.year, m.month, m.day) == DateAfter(n)
    ensures UtcSeconds(m) == n * 86400 + m.hour * 3600 + m.minute * 60 + m.second - OffsetMinutes(m.zone) * 60
  {
    DaysCountsSteps(n);
    hide DaysFromCivil, DateAfter;
  }

  /** A time with an offset is the same time in UTC, less the offset when it is ahead and more when it is behind. */
  lemma ZoneShifts(m: Moment, ahead: bool, hours: nat, minutes: nat)
    requires Writable(m) && m.zone == Utc && hours < 100 && minutes < 100
    ensures
      var there := Iso(m.(zone := Offset(ahead, hours, minutes)));
      var millis := (hours * 60 + minutes) * 60000;
      && ChannelMillis(Iso(m)).Some? && ChannelMillis(there).Some?
      && ChannelMillis(there).value == ChannelMillis(Iso(m)).value - (if ahead then millis else -millis)
  {
    IsoRead(m);
    IsoRead(m.(zone := Offset(ahead, hours, minutes)));
    hide Iso, ChannelMillis, PairingMillis, Face, Padded, DaysFromCivil;
  }

  // ----- Nothing else is accepted

  /** The numbers and the fraction of a string with its fields in place. */
  function MomentOf(s: string): Moment
    requires ChannelMillis(s).Some?
  {
    var end := ZoneStart(s);
    Moment(DigitsAt(s, 0, 4).value, DigitsAt(s, 5, 2).value, DigitsAt(s, 8, 2).value, DigitsAt(s, 11, 2).value,
           DigitsAt(s, 14, 2).value, DigitsAt(s, 17, 2).value,
           if HasFraction(s) then Some(s[20..end]) else None,
           if s[end] == 'Z' then Utc
           else Offset(s[end] == '+', DigitsAt(s, end + 1, 2).value, DigitsAt(s, end + 4, 2).value))
  }

  lemma PairOf(s: string, pos: nat)
    requires DigitsAt(s, pos, 2).Some?
    ensures var n := DigitsAt(s, pos, 2).value; n < 100 && s[pos] == Digit(n / 10) && s[pos + 1] == Digit(n % 10)
  {
    Two(s, pos);
  }

  lemma YearOf(s: string)
    requires DigitsAt(s, 0, 4).Some?
    ensures
      var y := DigitsAt(s, 0, 4).value;
      && y < 10000 && s[0] == Digit(y / 1000) && s[1] == Digit(y / 100 % 10)
      && s[2] == Digit(y / 10 % 10) && s[3] == Digit(y % 10)
  {
    Four(s);
    DigitsOf(DigitValue(s[0]), DigitValue(s[1]), DigitValue(s[2]), DigitValue(s[3]));
    hide DigitsAt;
  }

  lemma DigitsOf(a: nat, b: nat, c: nat, d: nat)
    requires a < 10 && b < 10 && c < 10 && d < 10
    ensures
      var y := a * 1000 + b * 100 + c * 10 + d;
      y < 10000 && y / 1000 == a && y / 100 % 10 == b && y / 10 % 10 == c && y % 10 == d
  {
    var y := a * 1000 + b * 100 + c * 10 + d;
    assert y / 1000 == a;
    assert y / 100 == a * 10 + b;
    assert y / 10 == a * 100 + b * 10 + c;
  }

  lemma BaseOf(s: string, m: Moment)
    requires ChannelMillis(s).Some? && m == MomentOf(s) && Writable(m)
    ensures Base(m) == s[..19]
  {
    BaseChars(m);
    YearOf(s);
    PairOf(s, 5);
    PairOf(s, 8);
    PairOf(s, 11);
    PairOf(s, 14);
    PairOf(s, 17);
    hide DigitsAt, Digit, Base, Pair, ZoneMinutes, ZoneStart, Writable, Seconds;
    var b, c := Base(m), s[..19];
    assert b == c;
  }

  lemma ZoneOf(s: string, pos: nat)
    requires ZoneMinutes(s, pos).Some?
    ensures pos < |s|
    ensures
      s[pos] != 'Z' ==>
        && pos + 6 == |s| && (s[pos] == '+' || s[pos] == '-') && s[pos + 3] == ':'
        && DigitsAt(s, pos + 1, 2).Some? && DigitsAt(s, pos + 1, 2).value < 100
        && DigitsAt(s, pos + 4, 2).Some? && DigitsAt(s, pos + 4, 2).value < 100
        && s[pos..] == ZoneText(Offset(s[pos] == '+', DigitsAt(s, pos + 1, 2).value, DigitsAt(s, pos + 4, 2).value))
    ensures s[pos] == 'Z' ==> s[pos..] == ZoneText(Utc)
  {
    if s[pos] != 'Z' {
      PairOf(s, pos + 1);
      PairOf(s, pos + 4);
      var z := Offset(s[pos] == '+', DigitsAt(s, pos + 1, 2).value, DigitsAt(s, pos + 4, 2).value);
      ZoneChars(z);
      ZoneLength(z);
      hide DigitsAt, Digit, ZoneText, Pair;
      var a, b := s[pos..], ZoneText(z);
      assert a == b;
    }
  }

  lemma MomentWritable(s: string)
    requires ChannelMillis(s).Some?
    ensures Writable(MomentOf(s))
    ensures ZoneText(MomentOf(s).zone) == s[ZoneStart(s)..]
  {
    ZoneOf(s, ZoneStart(s));
    YearOf(s);
    PairOf(s, 5);
    PairOf(s, 8);
    PairOf(s, 11);
    PairOf(s, 14);
    PairOf(s, 17);
    hide DigitsAt, Digit, ZoneText, Pair, ZoneMinutes, Seconds, FractionValue;
    assert HasFraction(s) ==> AllDigits(s, 20, ZoneStart(s)) && 20 < ZoneStart(s);
  }

  /** The action channel reads a string if and only if it is a timestamp as written here. */
  lemma AcceptedIsIso(s: string)
    ensures ChannelMillis(s).Some? <==> exists m | Writable(m) :: Iso(m) == s
  {
    if ChannelMillis(s).Some? {
      MomentWritable(s);
      hide ChannelMillis, MomentOf, Iso, Writable;
      IsoOfMoment(s);
    }
    forall m | Writable(m) && Iso(m) == s ensures ChannelMillis(s).Some? {
      hide ChannelMillis, MomentOf, Iso, Writable;
      IsoRead(m);
    }
  }

  lemma IsoOfMoment(s: string)
    requires ChannelMillis(s).Some? && Writable(MomentOf(s))
    ensures Iso(MomentOf(s)) == s
  {
    var m := MomentOf(s);
    MomentWritable(s);
    BaseOf(s, m);
    ZoneOf(s, ZoneStart(s));
    hide DigitsAt, Base, ZoneText, ZoneMinutes, Seconds, Writable, FractionValue;
    assert HasFraction(s) ==> FractionText(m) == s[19..ZoneStart(s)];
    assert s == s[..19] + s[19..ZoneStart(s)] + s[ZoneStart(s)..];
  }
}
