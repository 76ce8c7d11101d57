/**
 RFC 3339 timestamps (user_worker/src/siwe.rs, `parse_rfc3339_epoch`; RFC 3339 section 5.6).

 A `Timestamp` is what a well-formed string says, and `Print` writes it. The parser is
 proved to accept exactly the printed strings, and to return the instant they name.
 A character stands for one byte.
 */
module Rfc3339 {
  import opened Calendar
  import opened Text
  import opened Wrappers

  /** "YYYY-MM-DDThh:mm:ss", with either case of the separator. */
  datatype Local = Local(year: int, month: int, day: int, sep: char, hour: int, min: int, sec: int)

  datatype Zone = Zulu(letter: char) | Offset(plus: bool, hour: int, min: int)

  datatype Timestamp = Timestamp(local: Local, fraction: Option<string>, zone: Zone)

  /** The ranges the parser checks; the day may be past the end of its month. */
  predicate WellFormedLocal(l: Local) {
    && 0 <= l.year <= 9999 && 1 <= l.month <= 12 && 1 <= l.day <= 31 && l.sep in {'T', 't'}
    && 0 <= l.hour <= 23 && 0 <= l.min <= 59 && 0 <= l.sec <= 59
  }

  predicate WellFormedZone(z: Zone) {
    match z
    case Zulu(letter) => letter in {'Z', 'z'}
    case Offset(_, hour, min) => 0 <= hour <= 23 && 0 <= min <= 59
  }

  predicate WellFormed(t: Timestamp) {
    && WellFormedLocal(t.local) && WellFormedZone(t.zone)
    && (t.fraction.Some? ==> t.fraction.value != "" && AllDigits(t.fraction.value))
  }

  // ---- the printer ---------------------------------------------------------

  function PrintLocal(l: Local): (s: string)
    requires WellFormedLocal(l)
    ensures |s| == 19
  {
    [DigitOf(l.year / 1000), DigitOf(l.year / 100 % 10), DigitOf(l.year / 10 % 10), DigitOf(l.year % 10), '-',
     DigitOf(l.month / 10), DigitOf(l.month % 10), '-', DigitOf(l.day / 10), DigitOf(l.day % 10), l.sep,
     DigitOf(l.hour / 10), DigitOf(l.hour % 10), ':', DigitOf(l.min / 10), DigitOf(l.min % 10), ':',
     DigitOf(l.sec / 10), DigitOf(l.sec % 10)]
  }

  function PrintFraction(f: Option<string>): string {
    if f.Some? then "." + f.value else ""
  }

  function PrintZone(z: Zone): (s: string)
    requires WellFormedZone(z)
    ensures |s| == if z.Zulu? then 1 else 6
  {
    match z
    case Zulu(letter) => [letter]
    case Offset(plus, hour, min) =>
      [if plus then '+' else '-', DigitOf(hour / 10), DigitOf(hour % 10), ':', DigitOf(min / 10), DigitOf(min % 10)]
  }

  function Print(t: Timestamp): string
    requires WellFormed(t)
  {
    PrintLocal(t.local) + PrintFraction(t.fraction) + PrintZone(t.zone)
  }

  function OffsetSecs(z: Zone): int {
    match z
    case Zulu(_) => 0
    case Offset(plus, hour, min) => if plus then hour * 3600 + min * 60 else -(hour * 3600 + min * 60)
  }

  /** Seconds since 1970-01-01T00:00:00Z; the fraction is dropped. */
  function Instant(t: Timestamp): int {
    var l := t.local;
    DaysFromCivil(l.year, l.month, l.day) * 86400 + (l.hour * 3600 + l.min * 60 + l.sec) - OffsetSecs(t.zone)
  }

  // ---- what the parser reads -----------------------------------------------

  /** The bytes `[lo, hi)` as a number, if they exist and are all digits. */
  function Num(b: string, lo: nat, hi: nat): Option<int>
    requires lo <= hi
  {
    if hi <= |b| && AllDigits(b[lo..hi]) then Some(Decimal(b[lo..hi])) else None
  }

  predicate Sep(b: string, i: nat, c: char) {
    i < |b| && b[i] == c
  }

  function SkipDigits(b: string, i: nat): (e: nat)
    requires i <= |b|
    ensures i <= e <= |b| && AllDigits(b[i..e]) && (e < |b| ==> !IsDigit(b[e]))
    decreases |b| - i
  {
    if i < |b| && IsDigit(b[i]) then
      var e := SkipDigits(b, i + 1);
      assert b[i..e] == [b[i]] + b[i + 1..e];
      e
    else i
  }

  function ReadLocal(b: string): Option<Local> {
    if |b| < 19 then None else
    match (Num(b, 0, 4), Num(b, 5, 7), Num(b, 8, 10), Num(b, 11, 13), Num(b, 14, 16), Num(b, 17, 19))
    case (Some(year), Some(month), Some(day), Some(hour), Some(min), Some(sec)) =>
      if !(b[4] == '-' && b[7] == '-') || !(b[10] == 'T' || b[10] == 't') || b[13] != ':' || b[16] != ':' then None
      else if !(1 <= month <= 12) || !(1 <= day <= 31) || hour > 23 || min > 59 || sec > 59 then None
      else Some(Local(year, month, day, b[10], hour, min, sec))
    case _ => None
  }

  function ReadZone(b: string, i: nat): Option<Zone> {
    if i >= |b| then None
    else if (b[i] == 'Z' || b[i] == 'z') && i + 1 == |b| then Some(Zulu(b[i]))
    else if (b[i] == '+' || b[i] == '-') && i + 6 == |b| && b[i + 3] == ':' then
      match (Num(b, i + 1, i + 3), Num(b, i + 4, i + 6))
      case (Some(oh), Some(om)) => if oh > 23 || om > 59 then None else Some(Offset(b[i] == '+', oh, om))
      case _ => None
    else None
  }

  function Read(b: string): Option<Timestamp> {
    if |b| < 20 || ReadLocal(b).None? then None
    else
      var fractional := b[19] == '.';
      var e := if fractional then SkipDigits(b, 20) else 19;
      if (fractional && e == 20) || ReadZone(b, e).None? then None
      else Some(Timestamp(ReadLocal(b).value, if fractional then Some(b[20..e]) else None, ReadZone(b, e).value))
  }

  function EpochOf(b: string): Option<nat> {
    if Read(b).Some? && Instant(Read(b).value) >= 0 then Some(Instant(Read(b).value)) else None
  }

  // ---- reading what was printed --------------------------------------------

  lemma NumTwo(b: string, lo: nat, n: int)
    requires lo + 2 <= |b|
    ensures Num(b, lo, lo + 2) == Some(n) <==> 0 <= n <= 99 && b[lo] == DigitOf(n / 10) && b[lo + 1] == DigitOf(n % 10)
  {
    var p := b[lo..lo + 2];
    assert p[0] == b[lo] && p[1] == b[lo + 1];
    assert p[..1][..0] == "" && Decimal(p[..1]) == ValueOf(p[0]);
    assert Decimal(p) == 10 * ValueOf(p[0]) + ValueOf(p[1]);
  }

  lemma FourDigits(n: int, a: int, b: int, c: int, d: int)
    requires 0 <= a <= 9 && 0 <= b <= 9 && 0 <= c <= 9 && 0 <= d <= 9
    ensures n == 10 * (10 * (10 * a + b) + c) + d <==>
            0 <= n <= 9999 && a == n / 1000 && b == n / 100 % 10 && c == n / 10 % 10 && d == n % 10
  {
    var n1, n2 := n / 10, n / 100;
    assert n == 10 * n1 + n % 10 && n1 == 10 * n2 + n1 % 10 && n2 == 10 * (n / 1000) + n2 % 10;
  }

  lemma NumFour(b: string, n: int)
    requires 4 <= |b|
    ensures Num(b, 0, 4) == Some(n) <==>
            && 0 <= n <= 9999 && b[0] == DigitOf(n / 1000) && b[1] == DigitOf(n / 100 % 10)
            && b[2] == DigitOf(n / 10 % 10) && b[3] == DigitOf(n % 10)
  {
    var p := b[0..4];
    assert p[0] == b[0] && p[1] == b[1] && p[2] == b[2] && p[3] == b[3];
    if AllDigits(p) {
      assert p[..3][..2][..1][..0] == "" && Decimal(p[..3][..2][..1]) == ValueOf(b[0]);
      assert Decimal(p[..3][..2]) == 10 * ValueOf(b[0]) + ValueOf(b[1]);
      assert Decimal(p[..3]) == 10 * Decimal(p[..3][..2]) + ValueOf(b[2]);
      assert Decimal(p) == 10 * Decimal(p[..3]) + ValueOf(b[3]);
      FourDigits(n, ValueOf(b[0]), ValueOf(b[1]), ValueOf(b[2]), ValueOf(b[3]));
    }
  }

  lemma LocalBytes(b: string, l: Local)
    requires |b| >= 19 && WellFormedLocal(l) && b[..19] == PrintLocal(l)
    ensures b[0] == DigitOf(l.year / 1000) && b[1] == DigitOf(l.year / 100 % 10)
    ensures b[2] == DigitOf(l.year / 10 % 10) && b[3] == DigitOf(l.year % 10)
    ensures b[5] == DigitOf(l.month / 10) && b[6] == DigitOf(l.month % 10)
    ensures b[8] == DigitOf(l.day / 10) && b[9] == DigitOf(l.day % 10)
    ensures b[11] == DigitOf(l.hour / 10) && b[12] == DigitOf(l.hour % 10)
    ensures b[14] == DigitOf(l.min / 10) && b[15] == DigitOf(l.min % 10)
    ensures b[17] == DigitOf(l.sec / 10) && b[18] == DigitOf(l.sec % 10)
    ensures b[4] == b[7] == '-' && b[10] == l.sep && b[13] == b[16] == ':'
  {
    var p := PrintLocal(l);
    assert forall i :: 0 <= i < 19 ==> b[i] == p[i];
  }

  lemma LocalRead(b: string, l: Local)
    requires |b| >= 19 && WellFormedLocal(l) && b[..19] == PrintLocal(l)
    ensures ReadLocal(b) == Some(l)
  {
    LocalBytes(b, l);
    NumFour(b, l.year);
    NumTwo(b, 5, l.month);
    NumTwo(b, 8, l.day);
    NumTwo(b, 11, l.hour);
    NumTwo(b, 14, l.min);
    NumTwo(b, 17, l.sec);
  }

  lemma LocalPrinted(b: string, l: Local)
    requires |b| >= 19 && ReadLocal(b) == Some(l)
    ensures WellFormedLocal(l) && b[..19] == PrintLocal(l)
  {
    NumFour(b, l.year);
    NumTwo(b, 5, l.month);
    NumTwo(b, 8, l.day);
    NumTwo(b, 11, l.hour);
    NumTwo(b, 14, l.min);
    NumTwo(b, 17, l.sec);
    assert b[..19] == [b[0], b[1], b[2], b[3], b[4], b[5], b[6], b[7], b[8], b[9], b[10],
                       b[11], b[12], b[13], b[14], b[15], b[16], b[17], b[18]];
  }

  lemma ZoneRoundTrip(b: string, i: nat, z: Zone)
    requires i <= |b|
    ensures ReadZone(b, i) == Some(z) <==> WellFormedZone(z) && b[i..] == PrintZone(z)
  {
    var p := b[i..];
    if z.Offset? && |p| == 6 {
      NumTwo(b, i + 1, z.hour);
      NumTwo(b, i + 4, z.min);
      assert forall k :: 0 <= k < 6 ==> b[i + k] == p[k];
    }
  }

  /** The parser reads exactly what the printer writes. */
  lemma ReadIffPrinted(b: string, t: Timestamp)
    ensures Read(b) == Some(t) <==> WellFormed(t) && b == Print(t)
  {
    if WellFormed(t) && b == Print(t) {
      PrintedIsRead(t);
    }
    if Read(b) == Some(t) {
      ReadIsPrinted(b, t);
    }
  }

  lemma {:induction false} SkipsAll(b: string, i: nat, e: nat)
    requires i <= e <= |b| && AllDigits(b[i..e]) && (e < |b| ==> !IsDigit(b[e]))
    ensures SkipDigits(b, i) == e
    decreases e - i
  {
    if i < e {
      assert b[i..e][0] == b[i] && b[i + 1..e] == b[i..e][1..];
      SkipsAll(b, i + 1, e);
    }
  }

  lemma PrintedIsRead(t: Timestamp)
    requires WellFormed(t)
    ensures Read(Print(t)) == Some(t)
  {
    var b, f := Print(t), PrintFraction(t.fraction);
    assert b[..19] == PrintLocal(t.local);
    LocalRead(b, t.local);
    var e := 19 + |f|;
    assert b[e..] == PrintZone(t.zone) && b[e] == PrintZone(t.zone)[0];
    ZoneRoundTrip(b, e, t.zone);
    if t.fraction.Some? {
      assert b[19] == f[0] && b[20..e] == t.fraction.value;
      SkipsAll(b, 20, e);
    }
  }

  lemma ReadIsPrinted(b: string, t: Timestamp)
    requires Read(b) == Some(t)
    ensures WellFormed(t) && b == Print(t)
  {
    LocalPrinted(b, t.local);
    var e := if b[19] == '.' then SkipDigits(b, 20) else 19;
    ZoneRoundTrip(b, e, t.zone);
    assert b[19..e] == PrintFraction(t.fraction);
    ThreeParts(b, 19, e);
  }

  lemma ThreeParts(b: string, i: nat, e: nat)
    requires i <= e <= |b|
    ensures b == b[..i] + b[i..e] + b[e..]
  {
  }

  // ---- the parser ----------------------------------------------------------

  /** The fraction after byte 19, if there is one, must have a digit; `i` is where it ends. */
  method SkipFraction(b: string) returns (ok: bool, i: nat)
    requires |b| >= 20
    ensures i == if b[19] == '.' then SkipDigits(b, 20) else 19
    ensures ok <==> !(b[19] == '.' && i == 20)
  {
    i := 19;
    ok := true;
    if Sep(b, i, '.') {
      i := i + 1;
      var start := i;
      while i < |b| && IsDigit(b[i])
        invariant start <= i <= |b| && SkipDigits(b, i) == SkipDigits(b, start)
      {
        i := i + 1;
      }
      ok := i != start;
    }
  }

  /** Parse a timestamp to epoch seconds. */
  method ParseRfc3339Epoch(b: string) returns (r: Option<nat>)
    ensures r == EpochOf(b)
  {
    if |b| < 20 {
      return None;
    }
    var year, month, day := Num(b, 0, 4), Num(b, 5, 7), Num(b, 8, 10);
    var hour, min, sec := Num(b, 11, 13), Num(b, 14, 16), Num(b, 17, 19);
    if year.None? || month.None? || day.None? || hour.None? || min.None? || sec.None? {
      return None;
    }
    if !(Sep(b, 4, '-') && Sep(b, 7, '-')) || !(Sep(b, 10, 'T') || Sep(b, 10, 't')) || !Sep(b, 13, ':') || !Sep(b, 16, ':') {
      return None;
    }
    if !(1 <= month.value <= 12) || !(1 <= day.value <= 31) || hour.value > 23 || min.value > 59 || sec.value > 59 {
      return None;
    }

    var ok, i := SkipFraction(b);
    if !ok {
      return None;
    }
    var zone := ReadZone(b, i);
    if zone.None? {
      return None;
    }
    var days := DaysFromCivil(year.value, month.value, day.value);
    var epoch := days * 86400 + (hour.value * 3600 + min.value * 60 + sec.value) - OffsetSecs(zone.value);
    if epoch < 0 {
      return None;
    }
    r := Some(epoch);
  }

  /** The printed strings are accepted, at their instant if that is not before the epoch; no others are. */
  lemma AcceptsExactlyPrinted(b: string)
    ensures EpochOf(b).Some? <==> exists t :: WellFormed(t) && b == Print(t) && Instant(t) >= 0
    ensures forall t | WellFormed(t) && b == Print(t) && Instant(t) >= 0 :: EpochOf(b) == Some(Instant(t))
  {
    forall t ensures Read(b) == Some(t) <==> WellFormed(t) && b == Print(t) {
      ReadIffPrinted(b, t);
    }
    if EpochOf(b).Some? {
      var t := Read(b).value;
      assert WellFormed(t) && b == Print(t) && Instant(t) >= 0;
    }
  }

  // ---- instants ------------------------------------------------------------

  /** The wall clock at local second `s`, counted day by day from 1970-01-01T00:00:00. */
  function WallClock(s: nat): Local {
    var d := NthDay(s / 86400);
    Local(d.year, d.month, d.day, 'T', s / 3600 % 24, s / 60 % 60, s % 60)
  }

  const LAST_SECOND := (LAST_DAY + 1) * 86400 - 1 // 9999-12-31T23:59:59

  /** An instant printed in any zone where its local time is in 1970..9999, with any fraction, parses back to itself.
      A zone of `+hh:mm` is ahead of UTC, one of `-hh:mm` behind: `ahead` says by how many seconds. */
  lemma PrintParse(epoch: nat, ahead: int, t: Timestamp)
    requires WellFormedZone(t.zone)
    requires match t.zone
             case Zulu(_) => ahead == 0
             case Offset(plus, hour, min) => if plus then ahead == hour * 3600 + min * 60 else ahead == -(hour * 3600 + min * 60)
    requires 0 <= epoch + ahead <= LAST_SECOND && t.local == WallClock(epoch + ahead)
    requires t.fraction.Some? ==> t.fraction.value != "" && AllDigits(t.fraction.value)
    ensures WellFormed(t) && EpochOf(Print(t)) == Some(epoch)
  {
    ClockInstant(epoch + ahead, t);
    PrintedEpoch(t, epoch);
  }

  /** `n` in two digits. */
  function TwoDigits(n: int): (s: string)
    requires 0 <= n <= 99
    ensures |s| == 2
  {
    [DigitOf(n / 10), DigitOf(n % 10)]
  }

  function NotNegative(e: int): Option<nat> {
    if e >= 0 then Some(e) else None
  }

  /** An offset as text: '+hh:mm' east of UTC, '-hh:mm' west of it. */
  function OffsetText(east: bool, hour: int, min: int): string
    requires 0 <= hour <= 23 && 0 <= min <= 59
  {
    (if east then "+" else "-") + TwoDigits(hour) + ":" + TwoDigits(min)
  }

  /** A text that names an instant in UTC names one earlier by hh hours and mm minutes when its 'Z' is replaced by
      '+hh:mm', and one later by as much when it is replaced by '-hh:mm'. */
  lemma OffsetShifts(text: string, t: Timestamp, utc: int, east: bool, hour: int, min: int)
    requires WellFormed(t) && text + "Z" == Print(t) && Instant(t) == utc && 0 <= hour <= 23 && 0 <= min <= 59
    ensures EpochOf(text + OffsetText(east, hour, min))
         == NotNegative(if east then utc - hour * 3600 - min * 60 else utc + hour * 3600 + min * 60)
  {
    EndsInZulu(text, t);
    ShiftedText(text, t, east, hour, min);
    ShiftedInstant(t, east, hour, min);
    PrintedEpoch(t.(zone := Offset(east, hour, min)), if east then utc - hour * 3600 - min * 60 else utc + hour * 3600 + min * 60);
  }

  lemma ShiftedInstant(t: Timestamp, east: bool, hour: int, min: int)
    requires t.zone.Zulu?
    ensures Instant(t.(zone := Offset(east, hour, min)))
         == if east then Instant(t) - hour * 3600 - min * 60 else Instant(t) + hour * 3600 + min * 60
  {
  }

  lemma EndsInZulu(text: string, t: Timestamp)
    requires WellFormed(t) && text + "Z" == Print(t)
    ensures t.zone == Zulu('Z') && text == PrintLocal(t.local) + PrintFraction(t.fraction)
  {
    var zone, front := PrintZone(t.zone), PrintLocal(t.local) + PrintFraction(t.fraction);
    var last := zone[|zone| - 1];
    assert t.zone.Offset? ==> IsDigit(last);
    SameEnd(text, front, zone);
  }

  lemma SameEnd(text: string, front: string, zone: string)
    requires zone != "" && text + "Z" == front + zone
    ensures zone[|zone| - 1] == 'Z' && (|zone| == 1 ==> text == front)
  {
    assert (text + "Z")[|text|] == 'Z' && (front + zone)[|text|] == zone[|zone| - 1];
    assert (text + "Z")[..|text|] == text && (front + zone)[..|front|] == front;
  }

  lemma ShiftedText(text: string, t: Timestamp, east: bool, hour: int, min: int)
    requires WellFormed(t) && text == PrintLocal(t.local) + PrintFraction(t.fraction)
    requires 0 <= hour <= 23 && 0 <= min <= 59
    ensures Print(t.(zone := Offset(east, hour, min))) == text + OffsetText(east, hour, min)
  {
    assert PrintZone(Offset(east, hour, min)) == OffsetText(east, hour, min);
  }

  lemma KnownText(t: Timestamp, local: string, dot: string, end: string, e: nat)
    requires WellFormed(t) && Instant(t) == e
    requires local == PrintLocal(t.local) && dot == PrintFraction(t.fraction) && end == PrintZone(t.zone)
    ensures EpochOf(local + dot + end) == Some(e)
  {
    PrintedEpoch(t, e);
  }

  /** One instant seen from eight hours west of UTC. */
  lemma KnownWest()
    ensures EpochOf("1996-12-19T16:39:57" + "" + "-08:00") == Some(851042397)
  {
    var l := Local(1996, 12, 19, 'T', 16, 39, 57);
    assert PrintLocal(l) == "1996-12-19T16:39:57";
    KnownText(Timestamp(l, None, Offset(false, 8, 0)), "1996-12-19T16:39:57", "", "-08:00", 851042397);
  }

  /** The same instant from eight hours east, on the next day there. */
  lemma KnownEast()
    ensures EpochOf("1996-12-20T08:39:57" + "" + "+08:00") == Some(851042397)
  {
    var l := Local(1996, 12, 20, 'T', 8, 39, 57);
    assert PrintLocal(l) == "1996-12-20T08:39:57";
    KnownText(Timestamp(l, None, Offset(true, 8, 0)), "1996-12-20T08:39:57", "", "+08:00", 851042397);
  }

  lemma PrintedEpoch(t: Timestamp, e: int)
    requires WellFormed(t) && Instant(t) == e
    ensures EpochOf(Print(t)) == if e >= 0 then Some(e) else None
  {
    PrintedIsRead(t);
  }

  lemma ClockInstant(s: nat, t: Timestamp)
    requires s <= LAST_SECOND && t.local == WallClock(s)
    ensures WellFormedLocal(t.local) && Instant(t) == s - OffsetSecs(t.zone)
  {
    WallClockOk(s);
    InstantFrom(t, s / 86400);
    SecondsOfDay(s);
  }

  lemma InstantFrom(t: Timestamp, days: int)
    requires DaysFromCivil(t.local.year, t.local.month, t.local.day) == days
    ensures Instant(t) == days * 86400 + (t.local.hour * 3600 + t.local.min * 60 + t.local.sec) - OffsetSecs(t.zone)
  {
  }

  lemma WallClockOk(s: nat)
    requires s <= LAST_SECOND
    ensures WellFormedLocal(WallClock(s))
    ensures var l := WallClock(s); DaysFromCivil(l.year, l.month, l.day) == s / 86400
  {
    ClosedFormCounts(s / 86400);
    YearsBelowTenThousand(s / 86400);
  }

  lemma MinutesOfHour(s: nat)
    ensures s / 60 == s / 3600 * 60 + s / 60 % 60
  {
    assert s == 3600 * (s / 3600) + s % 3600;
  }

  lemma HoursOfDay(s: nat)
    ensures s / 3600 == s / 86400 * 24 + s / 3600 % 24
  {
    assert s == 86400 * (s / 86400) + s % 86400;
  }

  lemma SecondsOfDay(s: nat)
    ensures s / 86400 * 86400 + (s / 3600 % 24 * 3600 + s / 60 % 60 * 60 + s % 60) == s
  {
    MinutesOfHour(s);
    HoursOfDay(s);
    assert s == 60 * (s / 60) + s % 60;
  }

  /** A date that does not exist is accepted, and read as a date of the next month: the parser refuses
      a day past 31, not one past the end of its month. */
  lemma MissingDaysAreAccepted(l: Local, zone: Zone)
    requires WellFormedLocal(l) && WellFormedZone(zone) && l.day > MonthLength(l.year, l.month)
    ensures var next := NextDay(Date(l.year, l.month, MonthLength(l.year, l.month)));
            var l' := l.(year := next.year, month := next.month, day := l.day - MonthLength(l.year, l.month));
            && ValidDate(Date(l'.year, l'.month, l'.day)) && WellFormedLocal(l')
            && Instant(Timestamp(l, None, zone)) == Instant(Timestamp(l', None, zone))
  {
    OverflowRollsOver(l.year, l.month, l.day);
  }
}
