/**
 The two ISO-8601 readers of the IM component: the action channel's
 `IsoToEpochMillis` and the pairing controller's `ParseIsoMillis`. They differ in
 what they accept and in how they scale a short fraction; the lemmas at the end say
 exactly where.
 */
module Timestamps {
  import opened Wrappers
  import opened CivilDate

  predicate IsDigit(c: char) { '0' <= c <= '9' }

  function DigitValue(c: char): nat
    requires IsDigit(c)
  {
    c as int - '0' as int
  }

  predicate AllDigits(s: string, lo: nat, hi: nat) {
    hi <= |s| && forall i | lo <= i < hi :: IsDigit(s[i])
  }

  /** The number written by the digits in `s[lo..hi]`. */
  function Decimal(s: string, lo: nat, hi: nat): nat
    requires AllDigits(s, lo, hi)
  {
    if hi <= lo then 0 else Decimal(s, lo, hi - 1) * 10 + DigitValue(s[hi - 1])
  }

  /** The number in `count` digits at `pos`, when all of them are there. */
  function DigitsAt(s: string, pos: nat, count: nat): Option<nat> {
    if AllDigits(s, pos, pos + count) then Some(Decimal(s, pos, pos + count)) else None
  }

  /** The length of the run of digits starting at `pos`. */
  function DigitRun(s: string, pos: nat): (n: nat)
    ensures pos <= |s| ==> AllDigits(s, pos, pos + n)
    ensures pos + n < |s| ==> !IsDigit(s[pos + n])
    decreases |s| - pos
  {
    if pos < |s| && IsDigit(s[pos]) then 1 + DigitRun(s, pos + 1) else 0
  }

  /** The first three digits of the fraction starting at `pos`, as a number. */
  function FractionValue(s: string, pos: nat): nat
    requires pos <= |s|
  {
    var n := DigitRun(s, pos);
    Decimal(s, pos, pos + if n < 3 then n else 3)
  }

  /** A zone designator that ends the string: `Z` or a signed `HH:MM`, in minutes. */
  function ZoneMinutes(s: string, pos: nat): Option<int> {
    if pos < |s| && s[pos] == 'Z' then
      if pos + 1 == |s| then Some(0) else None
    else if pos + 6 == |s| && (s[pos] == '+' || s[pos] == '-') then
      var hour, minute := DigitsAt(s, pos + 1, 2), DigitsAt(s, pos + 4, 2);
      if hour.None? || minute.None? || s[pos + 3] != ':' then None
      else
        var m := hour.value * 60 + minute.value;
        Some(if s[pos] == '+' then m else -m)
    else None
  }

  predicate HasFraction(s: string) { 19 < |s| && s[19] == '.' }

  /** Where the zone designator must start. */
  function ZoneStart(s: string): nat {
    if HasFraction(s) then 20 + DigitRun(s, 20) else 19
  }

  /** The six numeric fields at their fixed places. */
  predicate HasFields(s: string) {
    && DigitsAt(s, 0, 4).Some? && DigitsAt(s, 5, 2).Some? && DigitsAt(s, 8, 2).Some?
    && DigitsAt(s, 11, 2).Some? && DigitsAt(s, 14, 2).Some? && DigitsAt(s, 17, 2).Some?
  }

  predicate HasSeparators(s: string) {
    |s| >= 19 && s[4] == '-' && s[7] == '-' && s[10] == 'T' && s[13] == ':' && s[16] == ':'
  }

  /** Seconds since the epoch denoted by the fields, the day counted by `days`, the zone by `zone`. */
  function Seconds(s: string, zone: int): int
    requires HasFields(s)
  {
    var days := DaysFromCivil(DigitsAt(s, 0, 4).value, DigitsAt(s, 5, 2).value, DigitsAt(s, 8, 2).value);
    days * 86400 + DigitsAt(s, 11, 2).value * 3600 + DigitsAt(s, 14, 2).value * 60 + DigitsAt(s, 17, 2).value
      - zone * 60
  }

  /** What the action channel's reader denotes: a short fraction is taken at face value. */
  function ChannelMillis(s: string): Option<int> {
    if !HasFields(s) || !HasSeparators(s) || (HasFraction(s) && DigitRun(s, 20) == 0) then None
    else
      var zone := ZoneMinutes(s, ZoneStart(s));
      if zone.None? then None
      else Some(Seconds(s, zone.value) * 1000 + (if HasFraction(s) then FractionValue(s, 20) else 0))
  }

  /** The pairing reader pads a fraction of fewer than three digits with zeros. */
  function PaddedFraction(s: string): nat {
    if !HasFraction(s) then 0
    else
      var n, v := DigitRun(s, 20), FractionValue(s, 20);
      if n == 0 then v * 1000 else if n == 1 then v * 100 else if n == 2 then v * 10 else v
  }

  /** What the pairing reader denotes: separators are not looked at and times before 1970 are refused. */
  function PairingMillis(s: string): Option<nat> {
    if |s| < 20 || !HasFields(s) then None
    else
      var zone := ZoneMinutes(s, ZoneStart(s));
      if zone.None? || Seconds(s, zone.value) < 0 then None
      else Some(Seconds(s, zone.value) * 1000 + PaddedFraction(s))
  }

  // ----- The readers

  /** The digit loop shared in shape by both readers. */
  method ReadDigits(s: string, pos: nat, count: nat) returns (r: Option<nat>)
    ensures r == DigitsAt(s, pos, count)
  {
    if pos + count > |s| {
      return None;
    }
    var value := 0;
    for i := 0 to count
      invariant AllDigits(s, pos, pos + i) && value == Decimal(s, pos, pos + i)
    {
      var current := s[pos + i];
      if !IsDigit(current) {
        return None;
      }
      value := value * 10 + DigitValue(current);
    }
    return Some(value);
  }

  /** The fraction loop shared in shape by both readers. */
  method ReadFraction(s: string, start: nat) returns (millis: nat, digits: nat)
    requires start <= |s|
    ensures digits == DigitRun(s, start) && millis == FractionValue(s, start)
  {
    millis, digits := 0, 0;
    while start + digits < |s| && IsDigit(s[start + digits])
      invariant AllDigits(s, start, start + digits)
      invariant digits + DigitRun(s, start + digits) == DigitRun(s, start)
      invariant millis == Decimal(s, start, start + if digits < 3 then digits else 3)
    {
      if digits < 3 {
        millis := millis * 10 + DigitValue(s[start + digits]);
      }
      digits := digits + 1;
    }
  }

  method Expect(s: string, pos: nat, expected: char) returns (ok: bool)
    ensures ok <==> pos < |s| && s[pos] == expected
  {
    ok := pos < |s| && s[pos] == expected;
  }

  method IsoToEpochMillis(s: string) returns (r: Option<int>)
    ensures r == ChannelMillis(s)
  {
    hide DaysFromCivil;
    hide ChannelDays;
    hide Decimal;
    hide DigitRun;
    hide FractionValue;
    hide ZoneMinutes;
    var year := ReadDigits(s, 0, 4);
    var sep := Expect(s, 4, '-');
    if year.None? || !sep { return None; }
    var month := ReadDigits(s, 5, 2);
    sep := Expect(s, 7, '-');
    if month.None? || !sep { return None; }
    var day := ReadDigits(s, 8, 2);
    sep := Expect(s, 10, 'T');
    if day.None? || !sep { return None; }
    var hour := ReadDigits(s, 11, 2);
    sep := Expect(s, 13, ':');
    if hour.None? || !sep { return None; }
    var minute := ReadDigits(s, 14, 2);
    sep := Expect(s, 16, ':');
    if minute.None? || !sep { return None; }
    var second := ReadDigits(s, 17, 2);
    if second.None? { return None; }

    var pos, millis := 19, 0;
    if pos < |s| && s[pos] == '.' {
      var digits;
      millis, digits := ReadFraction(s, 20);
      if digits < 1 { return None; }
      pos := 20 + digits;
    }
    var zone := ReadZone(s, pos);
    if zone.None? { return None; }
    var epochDays := ChannelDays(year.value, month.value, day.value);
    DayCountsAgree(year.value, month.value, day.value);
    var secondsOfDay := hour.value * 3600 + minute.value * 60 + second.value;
    return Some(epochDays * 86400000 + secondsOfDay * 1000 + millis - zone.value * 60000);
  }

  /** The channel's zone reading, one character at a time. */
  method ReadZone(s: string, start: nat) returns (r: Option<int>)
    ensures r == ZoneMinutes(s, start)
  {
    var pos, offsetMinutes: int := start, 0;
    if pos < |s| && s[pos] == 'Z' {
      pos := pos + 1;
    } else if pos < |s| && (s[pos] == '+' || s[pos] == '-') {
      var sign := s[pos];
      var hour := ReadDigits(s, pos + 1, 2);
      var colon := Expect(s, pos + 3, ':');
      if hour.None? || !colon { return None; }
      var minute := ReadDigits(s, pos + 4, 2);
      if minute.None? { return None; }
      pos := pos + 6;
      offsetMinutes := hour.value * 60 + minute.value;
      if sign == '-' {
        offsetMinutes := -offsetMinutes;
      }
    } else {
      return None;
    }
    if pos != |s| { return None; }
    return Some(offsetMinutes);
  }

  method ParseIsoMillis(s: string) returns (r: Option<nat>)
    ensures r == PairingMillis(s)
  {
    hide DaysFromCivil;
    hide DigitsAt;
    hide DigitRun;
    hide FractionValue;
    if |s| < 20 { return None; }
    var year := ReadDigits(s, 0, 4);
    var month := ReadDigits(s, 5, 2);
    var day := ReadDigits(s, 8, 2);
    var hour := ReadDigits(s, 11, 2);
    var minute := ReadDigits(s, 14, 2);
    var second := ReadDigits(s, 17, 2);
    if year.None? || month.None? || day.None? || hour.None? || minute.None? || second.None? { return None; }
    var pos, fraction := 19, 0;
    if s[pos] == '.' {
      var digits;
      fraction, digits := ReadFraction(s, 20);
      pos := 20 + digits;
      while digits < 3
        invariant fraction * (if digits == 0 then 1000 else if digits == 1 then 100 else if digits == 2 then 10 else 1)
               == PaddedFraction(s)
      {
        fraction := fraction * 10;
        digits := digits + 1;
      }
    }
    var offsetMinutes: int := 0;
    if pos < |s| && s[pos] == 'Z' {
      if pos + 1 != |s| { return None; }
    } else if pos + 6 == |s| && (s[pos] == '+' || s[pos] == '-') {
      var sign: int := if s[pos] == '+' then 1 else -1;
      var offsetHour := ReadDigits(s, pos + 1, 2);
      var offsetMinute := ReadDigits(s, pos + 4, 2);
      if offsetHour.None? || offsetMinute.None? || s[pos + 3] != ':' { return None; }
      offsetMinutes := sign * (offsetHour.value * 60 + offsetMinute.value);
    } else {
      return None;
    }
    var seconds := DaysFromCivil(year.value, month.value, day.value) * 86400
                   + hour.value * 3600 + minute.value * 60 + second.value - offsetMinutes * 60;
    if seconds < 0 { return None; }
    return Some(seconds * 1000 + fraction);
  }

  // ----- Where the two readers agree

  lemma ThreeDigits(s: string, lo: nat, hi: nat)
    requires lo <= hi <= lo + 3 && AllDigits(s, lo, hi)
    ensures Decimal(s, lo, hi) < if hi == lo then 1 else if hi == lo + 1 then 10 else if hi == lo + 2 then 100 else 1000
  {
    if lo < hi {
      ThreeDigits(s, lo, hi - 1);
    }
  }

  /** A fraction both readers scale alike: none, at least three digits, or a value of zero. */
  predicate SameFraction(s: string) {
    !HasFraction(s) || DigitRun(s, 20) >= 3 || FractionValue(s, 20) == 0
  }

  /** On a string the channel accepts, the readers agree exactly from 1970 on and on a fraction they scale alike. */
  lemma ReadersAgree(s: string)
    requires ChannelMillis(s).Some?
    ensures PairingMillis(s) == ChannelMillis(s) <==> ChannelMillis(s).value >= 0 && SameFraction(s)
    ensures PairingMillis(s).None? <==> ChannelMillis(s).value < 0
  {
    hide DaysFromCivil;
    hide DigitsAt;
    if HasFraction(s) {
      var n := DigitRun(s, 20);
      ThreeDigits(s, 20, 20 + if n < 3 then n else 3);
    }
  }

  /** On a string the pairing reader accepts, the channel's reader accepts exactly the well-separated ones. */
  lemma AcceptanceGap(s: string)
    requires PairingMillis(s).Some?
    ensures ChannelMillis(s).Some? <==> HasSeparators(s) && (HasFraction(s) ==> DigitRun(s, 20) > 0)
  {
  }

  const TENTH := "1970-01-01T00:00:00.1Z"

  lemma TenthFields()
    ensures DigitsAt(TENTH, 0, 4) == Some(1970)
    ensures DigitsAt(TENTH, 5, 2) == Some(1) && DigitsAt(TENTH, 8, 2) == Some(1)
    ensures DigitsAt(TENTH, 11, 2) == Some(0) && DigitsAt(TENTH, 14, 2) == Some(0) && DigitsAt(TENTH, 17, 2) == Some(0)
  {
    hide DigitsAt;
    hide Decimal;
    Two(TENTH, 5);
    Two(TENTH, 8);
    Two(TENTH, 11);
    Two(TENTH, 14);
    Two(TENTH, 17);
    Four(TENTH);
  }

  lemma TenthTail()
    ensures HasFraction(TENTH) && DigitRun(TENTH, 20) == 1 && FractionValue(TENTH, 20) == 1
    ensures ZoneMinutes(TENTH, ZoneStart(TENTH)) == Some(0)
  {
    assert DigitRun(TENTH, 21) == 0;
    assert Decimal(TENTH, 20, 20) == 0;
  }

  /** One tenth of a second is read as 1 ms by the channel and as 100 ms by the pairing controller. */
  lemma ShortFractionDiffers()
    ensures ChannelMillis(TENTH) == Some(1) && PairingMillis(TENTH) == Some(100)
  {
    hide DigitsAt;
    hide DaysFromCivil;
    hide DigitRun;
    hide ZoneMinutes;
    hide FractionValue;
    TenthFields();
    TenthTail();
    NextDayAddsOne(Date(1970, 1, 1));
    assert Seconds(TENTH, 0) == 0;
  }

  lemma Two(s: string, pos: nat)
    requires pos + 2 <= |s| && IsDigit(s[pos]) && IsDigit(s[pos + 1])
    ensures DigitsAt(s, pos, 2) == Some(DigitValue(s[pos]) * 10 + DigitValue(s[pos + 1]))
  {
    assert Decimal(s, pos, pos + 1) == DigitValue(s[pos]);
  }

  lemma Four(s: string)
    requires AllDigits(s, 0, 4)
    ensures DigitsAt(s, 0, 4)
         == Some(DigitValue(s[0]) * 1000 + DigitValue(s[1]) * 100 + DigitValue(s[2]) * 10 + DigitValue(s[3]))
  {
    Two(s, 0);
    assert Decimal(s, 0, 3) == Decimal(s, 0, 2) * 10 + DigitValue(s[2]);
    assert Decimal(s, 0, 4) == Decimal(s, 0, 3) * 10 + DigitValue(s[3]);
  }
}
