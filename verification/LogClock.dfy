/** The clock behind log timestamps: calendar arithmetic in the proleptic Gregorian calendar,
    and a 32-bit millisecond counter extended to 64 bits. */
module LogClock {
  import opened Common

  const DAYS_PER_ERA: int := 146_097
  const EPOCH_OFFSET: int := 719_468

  datatype Date = Date(year: int, month: int, day: int)

  // ---- The calendar ----

  function IsLeapYear(year: int): bool {
    (year % 4 == 0 && year % 100 != 0) || year % 400 == 0
  }

  function DaysInMonth(year: int, month: int): int {
    if month == 1 || month == 3 || month == 5 || month == 7 || month == 8 || month == 10 || month == 12 then 31
    else if month == 4 || month == 6 || month == 9 || month == 11 then 30
    else if month == 2 then (if IsLeapYear(year) then 29 else 28)
    else 0
  }

  predicate Valid(t: Date) {
    1 <= t.month <= 12 && 1 <= t.day <= DaysInMonth(t.year, t.month)
  }

  /** The day after, read off the calendar. */
  function NextDay(t: Date): Date {
    if t.day < DaysInMonth(t.year, t.month) then t.(day := t.day + 1)
    else if t.month < 12 then Date(t.year, t.month + 1, 1)
    else Date(t.year + 1, 1, 1)
  }

  /** Rounds toward zero. */
  function TruncDiv(a: int, b: int): int
    requires b > 0
  {
    if a >= 0 then a / b else -(-a / b)
  }

  function DivFloor(a: int, b: int): int
    requires b > 0
  {
    var q := TruncDiv(a, b);
    var r := a - q * b;
    if r < 0 then q - 1 else q
  }

  /** Days since 1970-01-01; years run from March. */
  function DaysFromCivil(t: Date): int {
    var year := if t.month <= 2 then t.year - 1 else t.year;
    var era := DivFloor(year, 400);
    var yoe := year - era * 400;
    var doy := (153 * (t.month + if t.month > 2 then -3 else 9) + 2) / 5 + t.day - 1;
    era * DAYS_PER_ERA + DayOfEra(yoe, doy) - EPOCH_OFFSET
  }

  function DayOfEra(yoe: int, doy: int): int {
    yoe * 365 + yoe / 4 - yoe / 100 + doy
  }

  function YearOfEra(doe: int): int {
    (doe - doe / 1_460 + doe / 36_524 - doe / 146_096) / 365
  }

  function CivilFromDays(since: int): Date {
    var days := since + EPOCH_OFFSET;
    var era := TruncDiv(if days >= 0 then days else days - 146_096, DAYS_PER_ERA);
    var doe := days - era * DAYS_PER_ERA;
    var yoe := YearOfEra(doe);
    FromEra(era, yoe, doe - (365 * yoe + yoe / 4 - yoe / 100))
  }

  /** Year, month and day of day `doy` of a March-based year. */
  function FromEra(era: int, yoe: int, doy: int): Date {
    var mp := (5 * doy + 2) / 153;
    var day := doy - (153 * mp + 2) / 5 + 1;
    var month := mp + if mp < 10 then 3 else -9;
    var year := yoe + era * 400;
    Date(if month <= 2 then year + 1 else year, month, day)
  }

  // ---- Years of an era, in centuries, leap cycles and years ----

  /** Day `r` of year `100a + 4b + c`, whose last day is a leap day exactly every fourth year
      except in three centuries of four. */
  ghost predicate YearParts(a: int, b: int, c: int, r: int) {
    && 0 <= a <= 3 && 0 <= b <= 24 && 0 <= c <= 3 && 0 <= r <= 365
    && (r == 365 ==> c == 3 && (b < 24 || a == 3))
  }

  lemma YearOfParts(a: int, b: int, c: int, r: int)
    requires YearParts(a, b, c, r)
    ensures YearOfEra(36_524 * a + 1_461 * b + 365 * c + r) == 100 * a + 4 * b + c
  {
    var doe := 36_524 * a + 1_461 * b + 365 * c + r;
    var e1 := if 24 * a + b + 365 * c + r >= 1_460 then 1 else 0;
    var e2 := if 1_461 * b + 365 * c + r >= 36_524 then 1 else 0;
    var e3 := if doe >= 146_096 then 1 else 0;
    assert doe / 1_460 == 25 * a + b + e1;
    assert doe / 36_524 == a + e2;
    assert doe / 146_096 == e3;
    assert doe - doe / 1_460 + doe / 36_524 - doe / 146_096 == 365 * (100 * a + 4 * b + c) + (r - e1 + e2 - e3);
  }

  lemma SplitYear(yoe: int) returns (a: int, b: int, c: int)
    requires 0 <= yoe < 400
    ensures yoe == 100 * a + 4 * b + c && 0 <= a <= 3 && 0 <= b <= 24 && 0 <= c <= 3
    ensures forall doy :: DayOfEra(yoe, doy) == 36_524 * a + 1_461 * b + 365 * c + doy
  {
    a, b, c := yoe / 100, yoe % 100 / 4, yoe % 4;
    assert yoe / 4 == 25 * a + b;
  }

  lemma SplitDay(doe: int) returns (a: int, b: int, c: int, r: int)
    requires 0 <= doe < DAYS_PER_ERA
    ensures YearParts(a, b, c, r) && doe == 36_524 * a + 1_461 * b + 365 * c + r
  {
    a := if doe >= 109_572 then 3 else doe / 36_524;
    var x := doe - 36_524 * a;
    b := if x >= 35_064 then 24 else x / 1_461;
    var y := x - 1_461 * b;
    c := if y >= 1_095 then 3 else y / 365;
    r := y - 365 * c;
  }

  lemma LeapPeriod(era: int, k: int)
    ensures IsLeapYear(400 * era + k) == IsLeapYear(k)
  {
    hide IsLeapYear;
    RemainderBy4(100 * era, k);
    RemainderBy100(4 * era, k);
    RemainderBy400(era, k);
    Multiples(era);
    LeapBy(400 * era + k, k);
  }

  lemma Multiples(era: int)
    ensures 4 * (100 * era) == 400 * era == 100 * (4 * era)
  {}

  lemma LeapBy(x: int, y: int)
    requires x % 4 == y % 4 && x % 100 == y % 100 && x % 400 == y % 400
    ensures IsLeapYear(x) == IsLeapYear(y)
  {}

  lemma RemainderBy4(p: int, k: int)
    ensures (4 * p + k) % 4 == k % 4
  {
    assert 4 * p + k == 4 * (p + k / 4) + k % 4;
  }

  lemma RemainderBy100(q: int, k: int)
    ensures (100 * q + k) % 100 == k % 100
  {
    assert 100 * q + k == 100 * (q + k / 100) + k % 100;
  }

  lemma RemainderBy400(r: int, k: int)
    ensures (400 * r + k) % 400 == k % 400
  {
    assert 400 * r + k == 400 * (r + k / 400) + k % 400;
  }

  lemma LeapInEra(a: int, b: int, c: int)
    requires 0 <= a <= 3 && 0 <= b <= 24 && 0 <= c <= 3
    ensures IsLeapYear(100 * a + 4 * b + c + 1) <==> c == 3 && (b < 24 || a == 3)
  {
    var k := 100 * a + 4 * b + c + 1;
    assert k % 4 == (c + 1) % 4;
    assert k % 100 == (4 * b + c + 1) % 100;
  }

  /** A March-based year is a leap year when it is followed by a leap January. */
  lemma LeapParts(era: int, a: int, b: int, c: int)
    requires 0 <= a <= 3 && 0 <= b <= 24 && 0 <= c <= 3
    ensures IsLeapYear(400 * era + 100 * a + 4 * b + c + 1) <==> c == 3 && (b < 24 || a == 3)
  {
    hide IsLeapYear;
    LeapPeriod(era, 100 * a + 4 * b + c + 1);
    LeapInEra(a, b, c);
  }

  // ---- Months of a March-based year ----

  function MonthStart(mp: int): int {
    (153 * mp + 2) / 5
  }

  /** Which day of which month is day `doy`. */
  lemma MonthOfDay(doy: int)
    requires 0 <= doy <= 365
    ensures var mp := (5 * doy + 2) / 153;
      0 <= mp <= 11 && MonthStart(mp) <= doy && (mp < 11 ==> doy < MonthStart(mp + 1))
  {
    var mp := (5 * doy + 2) / 153;
    assert 153 * mp <= 5 * doy + 2 < 153 * mp + 153;
  }

  lemma DayOfMonth(mp: int, doy: int)
    requires 0 <= mp <= 11 && MonthStart(mp) <= doy && (mp < 11 ==> doy < MonthStart(mp + 1)) && doy <= 365
    ensures (5 * doy + 2) / 153 == mp
  {
    assert 5 * MonthStart(mp) <= 153 * mp + 2 < 5 * MonthStart(mp) + 5;
    assert 5 * MonthStart(mp + 1) <= 153 * mp + 155 < 5 * MonthStart(mp + 1) + 5;
  }

  /** Month lengths are the distances between month starts; February takes what is left. */
  lemma MonthLength(year: int, month: int)
    requires 1 <= month <= 12
    ensures var mp := month + if month > 2 then -3 else 9;
      if month == 2 then MonthStart(mp) == 337
      else DaysInMonth(year, month) == MonthStart(mp + 1) - MonthStart(mp)
  {}

  // ---- Both directions ----

  lemma FloorQuotient(a: int, b: int)
    requires b > 0
    ensures DivFloor(a, b) == a / b
  {
    var q := TruncDiv(a, b);
    var r := a - q * b;
    if a >= 0 {
      assert a == b * (a / b) + a % b;
    } else {
      var k := -a / b;
      assert -a == b * k + (-a) % b && q == -k;
      assert r == -((-a) % b) by { assert q * b == -(k * b); }
      Quotient(a, b, if r < 0 then q - 1 else q, if r < 0 then r + b else r);
    }
  }

  lemma Quotient(a: int, b: int, q: int, r: int)
    requires b > 0 && a == q * b + r && 0 <= r < b
    ensures a / b == q
  {
    var p := a / b;
    assert a == b * p + a % b;
    if p < q { TimesMonotone(p + 1, q, b); } else if p > q { TimesMonotone(q + 1, p, b); }
  }

  lemma TimesMonotone(x: int, y: int, b: int)
    requires x <= y && b > 0
    ensures x * b <= y * b
  {}

  /** The date of a day whose month is known. */
  lemma DateOf(era: int, yoe: int, doy: int, mp: int)
    requires 0 <= mp <= 11 && MonthStart(mp) <= doy <= 365 && (mp < 11 ==> doy < MonthStart(mp + 1))
    ensures FromEra(era, yoe, doy)
         == Date(yoe + era * 400 + (if mp >= 10 then 1 else 0), mp + (if mp < 10 then 3 else -9),
                doy - MonthStart(mp) + 1)
  {
    DayOfMonth(mp, doy);
  }

  lemma FromEraValid(era: int, a: int, b: int, c: int, r: int)
    requires YearParts(a, b, c, r)
    ensures Valid(FromEra(era, 100 * a + 4 * b + c, r))
  {
    var t := FromEra(era, 100 * a + 4 * b + c, r);
    MonthOfDay(r);
    MonthLength(t.year, t.month);
    LeapParts(era, a, b, c);
  }

  lemma EraOfYear(era: int, yoe: int)
    requires 0 <= yoe < 400
    ensures DivFloor(yoe + era * 400, 400) == era
  {
    hide DivFloor;
    FloorQuotient(yoe + era * 400, 400);
  }

  /** The day number of a date whose March-based year and day are known. */
  lemma CountDays(t: Date, era: int, yoe: int, doy: int)
    requires 0 <= yoe < 400 && (if t.month <= 2 then t.year - 1 else t.year) == yoe + era * 400
    requires doy == MonthStart(t.month + if t.month > 2 then -3 else 9) + t.day - 1
    ensures DaysFromCivil(t) == era * DAYS_PER_ERA + DayOfEra(yoe, doy) - EPOCH_OFFSET
  {
    hide DivFloor, DayOfEra;
    EraOfYear(era, yoe);
  }

  /** A day within its era is a valid date, and counts back to itself. */
  lemma FromEraOk(era: int, a: int, b: int, c: int, r: int)
    requires YearParts(a, b, c, r)
    ensures var t := FromEra(era, 100 * a + 4 * b + c, r);
      Valid(t) && DaysFromCivil(t) == era * DAYS_PER_ERA + 36_524 * a + 1_461 * b + 365 * c + r - EPOCH_OFFSET
  {
    hide DaysFromCivil, Valid, FromEra, MonthStart;
    FromEraValid(era, a, b, c, r);
    var yoe := 100 * a + 4 * b + c;
    MonthOfDay(r);
    DateOf(era, yoe, r, (5 * r + 2) / 153);
    CountDays(FromEra(era, yoe, r), era, yoe, r);
    DayOfYear(a, b, c, r);
  }

  /** Every valid date is a day within some era. */
  lemma ToEra(t: Date) returns (era: int, a: int, b: int, c: int, r: int)
    requires Valid(t)
    ensures YearParts(a, b, c, r) && t == FromEra(era, 100 * a + 4 * b + c, r)
  {
    var year := if t.month <= 2 then t.year - 1 else t.year;
    era := year / 400;
    var yoe := year % 400;
    a, b, c := SplitYear(yoe);
    var mp := t.month + if t.month > 2 then -3 else 9;
    r := MonthStart(mp) + t.day - 1;
    MonthLength(t.year, t.month);
    LeapParts(era, a, b, c);
    DayOfMonth(mp, r);
  }

  lemma CivilOfParts(era: int, a: int, b: int, c: int, r: int)
    requires YearParts(a, b, c, r)
    ensures CivilFromDays(era * DAYS_PER_ERA + 36_524 * a + 1_461 * b + 365 * c + r - EPOCH_OFFSET)
         == FromEra(era, 100 * a + 4 * b + c, r)
  {
    hide FromEra, YearOfEra, TruncDiv;
    var doe := 36_524 * a + 1_461 * b + 365 * c + r;
    EraOf(era * DAYS_PER_ERA + doe, era, doe);
    YearOfParts(a, b, c, r);
    DayOfYear(a, b, c, r);
  }

  lemma DayOfYear(a: int, b: int, c: int, r: int)
    requires YearParts(a, b, c, r)
    ensures var yoe := 100 * a + 4 * b + c;
      36_524 * a + 1_461 * b + 365 * c + r - (365 * yoe + yoe / 4 - yoe / 100) == r
  {
    assert (100 * a + 4 * b + c) / 4 == 25 * a + b && (100 * a + 4 * b + c) / 100 == a;
  }

  lemma EraOf(days: int, era: int, doe: int)
    requires days == era * DAYS_PER_ERA + doe && 0 <= doe < DAYS_PER_ERA
    ensures TruncDiv(if days >= 0 then days else days - 146_096, DAYS_PER_ERA) == era
  {}

  /** Every day number is the day number of the date it converts to. */
  lemma DaysRoundTrip(days: int)
    ensures Valid(CivilFromDays(days)) && DaysFromCivil(CivilFromDays(days)) == days
  {
    hide CivilFromDays, DaysFromCivil, FromEra, Valid;
    var n := days + EPOCH_OFFSET;
    var era, doe := n / DAYS_PER_ERA, n % DAYS_PER_ERA;
    var a, b, c, r := SplitDay(doe);
    CivilOfParts(era, a, b, c, r);
    FromEraOk(era, a, b, c, r);
  }

  /** Every valid date is the date of its day number. */
  lemma CivilRoundTrip(t: Date)
    requires Valid(t)
    ensures CivilFromDays(DaysFromCivil(t)) == t
  {
    hide CivilFromDays, DaysFromCivil, FromEra, Valid;
    var era, a, b, c, r := ToEra(t);
    FromEraOk(era, a, b, c, r);
    CivilOfParts(era, a, b, c, r);
  }

  /** Counting days is walking the calendar: the next day number is the next day. */
  lemma NextDayCounts(t: Date)
    requires Valid(t)
    ensures Valid(NextDay(t)) && DaysFromCivil(NextDay(t)) == DaysFromCivil(t) + 1
  {
    hide Valid, DaysFromCivil, NextDay, FromEra;
    var era, a, b, c, r := ToEra(t);
    FromEraOk(era, a, b, c, r);
    if YearParts(a, b, c, r + 1) {
      NextInYear(era, a, b, c, r);
      FromEraOk(era, a, b, c, r + 1);
    } else {
      NextYear(era, a, b, c, r);
      if c < 3 {
        FromEraOk(era, a, b, c + 1, 0);
      } else if b < 24 {
        FromEraOk(era, a, b + 1, 0, 0);
      } else if a < 3 {
        FromEraOk(era, a + 1, 0, 0, 0);
      } else {
        FromEraOk(era + 1, 0, 0, 0, 0);
        MarchFirst(era);
      }
    }
  }

  lemma NextInYear(era: int, a: int, b: int, c: int, r: int)
    requires YearParts(a, b, c, r) && YearParts(a, b, c, r + 1)
    ensures NextDay(FromEra(era, 100 * a + 4 * b + c, r)) == FromEra(era, 100 * a + 4 * b + c, r + 1)
  {
    hide FromEra, IsLeapYear;
    var yoe := 100 * a + 4 * b + c;
    MonthOfDay(r);
    var mp := (5 * r + 2) / 153;
    DateOf(era, yoe, r, mp);
    var t := FromEra(era, yoe, r);
    MonthLength(t.year, t.month);
    LeapParts(era, a, b, c);
    if mp < 11 && r + 1 == MonthStart(mp + 1) {
      DateOf(era, yoe, r + 1, mp + 1);
    } else {
      DateOf(era, yoe, r + 1, mp);
    }
  }

  /** After the last day of a March-based year comes 1 March of the next. */
  lemma NextYear(era: int, a: int, b: int, c: int, r: int)
    requires YearParts(a, b, c, r) && !YearParts(a, b, c, r + 1)
    ensures NextDay(FromEra(era, 100 * a + 4 * b + c, r)) == FromEra(era, 100 * a + 4 * b + c + 1, 0)
  {
    LeapParts(era, a, b, c);
  }

  lemma MarchFirst(era: int)
    ensures FromEra(era, 400, 0) == FromEra(era + 1, 0, 0)
  {}

  lemma Epoch()
    ensures Valid(Date(1970, 1, 1)) && DaysFromCivil(Date(1970, 1, 1)) == 0
  {}

  /** Day 0 is 1 January 1970, and each number after is the calendar's next day. */
  lemma CivilWalksCalendar(days: int)
    ensures CivilFromDays(0) == Date(1970, 1, 1)
    ensures CivilFromDays(days + 1) == NextDay(CivilFromDays(days))
  {
    hide DaysFromCivil, CivilFromDays, NextDay, Valid;
    Epoch();
    CivilRoundTrip(Date(1970, 1, 1));
    DaysRoundTrip(days);
    NextDayCounts(CivilFromDays(days));
    CivilRoundTrip(NextDay(CivilFromDays(days)));
  }

  // ---- Time of day ----

  const SECONDS_PER_DAY: int := 86_400

  /** Year as 16 bits, the rest as 8 bits; `offset` in minutes. */
  datatype NetworkTime = NetworkTime(year: int, month: nat, day: nat, hour: nat, minute: nat, second: nat, offset: int)

  predicate ValidTime(t: NetworkTime) {
    0 <= t.year < 0x1_0000 && Valid(Date(t.year, t.month, t.day)) && t.hour <= 23 && t.minute <= 59 && t.second <= 59
  }

  function LocalSeconds(t: NetworkTime): int {
    DaysFromCivil(Date(t.year, t.month, t.day)) * SECONDS_PER_DAY + t.hour * 3_600 + t.minute * 60 + t.second
  }

  function FromLocalSeconds(seconds: int, offset: int): NetworkTime {
    var days, secs := seconds / SECONDS_PER_DAY, seconds % SECONDS_PER_DAY;
    var date := CivilFromDays(days);
    NetworkTime(date.year % 0x1_0000, date.month % 0x100, date.day % 0x100, secs / 3_600,
                secs % 3_600 / 60, secs % 60, offset)
  }

  /** Converting to seconds and back returns every valid time. */
  lemma SecondsRoundTrip(t: NetworkTime)
    requires ValidTime(t)
    ensures FromLocalSeconds(LocalSeconds(t), t.offset) == t
  {
    hide DaysFromCivil, CivilFromDays;
    var date := Date(t.year, t.month, t.day);
    CivilRoundTrip(date);
    var secs := t.hour * 3_600 + t.minute * 60 + t.second;
    assert LocalSeconds(t) / SECONDS_PER_DAY == DaysFromCivil(date) && LocalSeconds(t) % SECONDS_PER_DAY == secs;
    assert secs / 3_600 == t.hour && secs % 3_600 == t.minute * 60 + t.second;
  }

  /** Any second count whose year fits comes back from the time it is shown as. */
  lemma TimeRoundTrip(seconds: int, offset: int)
    requires 0 <= CivilFromDays(seconds / SECONDS_PER_DAY).year < 0x1_0000
    ensures ValidTime(FromLocalSeconds(seconds, offset)) && LocalSeconds(FromLocalSeconds(seconds, offset)) == seconds
  {
    hide DaysFromCivil, CivilFromDays;
    var days, secs := seconds / SECONDS_PER_DAY, seconds % SECONDS_PER_DAY;
    DaysRoundTrip(days);
    assert secs == secs / 3_600 * 3_600 + secs % 3_600 / 60 * 60 + secs % 60;
  }

  // ---- Uptime ----

  const WRAP: int := 0x1_0000_0000
  const MAX_I32: int := 0x7FFF_FFFF

  datatype ClockSync = ClockSync(uptimeMs: nat, localSeconds: int, offset: int)

  /** The 64-bit uptime nearest to `previous` with these low 32 bits. */
  function Extend(previous: nat, uptimeMs: nat): nat {
    var low, epoch := previous % WRAP, previous / WRAP;
    var e := if uptimeMs < low && low - uptimeMs > MAX_I32 then epoch + 1
             else if uptimeMs > low && uptimeMs - low > MAX_I32 then (if epoch == 0 then 0 else epoch - 1)
             else epoch;
    e * WRAP + uptimeMs
  }

  /** One sample less than 2^31 ms away from the largest one seen is extended exactly. */
  lemma ExtendsExactly(previous: nat, uptime: nat)
    requires -(MAX_I32 + 1) < uptime - previous < MAX_I32 + 1
    ensures Extend(previous, uptime % WRAP) == uptime
  {
    var low, epoch, u, e := previous % WRAP, previous / WRAP, uptime % WRAP, uptime / WRAP;
    assert previous == epoch * WRAP + low && uptime == e * WRAP + u;
    assert epoch - 1 <= e <= epoch + 1;
  }

  function Timestamp(sync: Option<ClockSync>, uptime: nat): NetworkTime {
    match sync
    case Some(s) =>
      FromLocalSeconds(s.localSeconds + (if uptime >= s.uptimeMs then uptime - s.uptimeMs else 0) / 1000, s.offset)
    case None =>
      var date := CivilFromDays(DaysFromCivil(Date(0, 1, 1)) + uptime / 1000 / SECONDS_PER_DAY);
      var secs := uptime / 1000 % SECONDS_PER_DAY;
      NetworkTime(date.year, date.month % 0x100, date.day % 0x100,
                  secs / 3_600, secs % 3_600 / 60, secs % 60, 0)
  }

  class Clock {
    var sync: Option<ClockSync>
    var extendedUptimeMs: nat

    constructor ()
      ensures sync == None && extendedUptimeMs == 0
    {
      sync, extendedUptimeMs := None, 0;
    }

    method ExtendUptime(uptimeMs: nat) returns (extended: nat)
      requires uptimeMs < WRAP
      modifies this`extendedUptimeMs
      ensures extended == Extend(old(extendedUptimeMs), uptimeMs)
      ensures extendedUptimeMs == Max(old(extendedUptimeMs), extended)
    {
      var low, epoch := extendedUptimeMs % WRAP, extendedUptimeMs / WRAP;
      if uptimeMs < low && low - uptimeMs > MAX_I32 {
        epoch := epoch + 1;
      } else if uptimeMs > low && uptimeMs - low > MAX_I32 && epoch > 0 {
        epoch := epoch - 1;
      }
      extended := epoch * WRAP + uptimeMs;
      if extended > extendedUptimeMs {
        extendedUptimeMs := extended;
      }
    }

    method SyncFromNetwork(uptimeMs: nat, time: NetworkTime)
      requires uptimeMs < WRAP
      modifies this
      ensures var extended := Extend(old(extendedUptimeMs), uptimeMs);
        && extendedUptimeMs == Max(old(extendedUptimeMs), extended)
        && sync == Some(ClockSync(extended, LocalSeconds(time), time.offset))
    {
      var extended := ExtendUptime(uptimeMs);
      sync := Some(ClockSync(extended, LocalSeconds(time), time.offset));
    }

    method TimestampAt(uptimeMs: nat) returns (t: NetworkTime)
      requires uptimeMs < WRAP
      modifies this`extendedUptimeMs
      ensures var extended := Extend(old(extendedUptimeMs), uptimeMs);
        extendedUptimeMs == Max(old(extendedUptimeMs), extended) && t == Timestamp(sync, extended)
    {
      hide Extend, FromLocalSeconds, CivilFromDays, DaysFromCivil;
      var extended := ExtendUptime(uptimeMs);
      match sync {
        case Some(s) =>
          var elapsed := if extended >= s.uptimeMs then extended - s.uptimeMs else 0;
          t := FromLocalSeconds(s.localSeconds + elapsed / 1000, s.offset);
        case None =>
          var seconds := extended / 1000;
          var date := CivilFromDays(DaysFromCivil(Date(0, 1, 1)) + seconds / SECONDS_PER_DAY);
          var secs := seconds % SECONDS_PER_DAY;
          t := NetworkTime(date.year, date.month % 0x100, date.day % 0x100,
                           secs / 3_600, secs % 3_600 / 60, secs % 60, 0);
      }
    }
  }

  // ---- Every run of the clock ----

  /** The clock is asked for a timestamp, or told the time, at a true uptime. */
  datatype Sample = Ask(uptime: nat) | Tell(uptime: nat, time: NetworkTime)

  datatype ClockState = ClockState(sync: Option<ClockSync>, largest: nat)

  function Sampled(st: ClockState, s: Sample): ClockState {
    var extended := Extend(st.largest, s.uptime % WRAP);
    ClockState(if s.Tell? then Some(ClockSync(extended, LocalSeconds(s.time), s.time.offset)) else st.sync,
               Max(st.largest, extended))
  }

  function SampledAll(st: ClockState, samples: seq<Sample>): ClockState
    decreases |samples|
  {
    if samples == [] then st
    else Sampled(SampledAll(st, samples[..|samples| - 1]), samples[|samples| - 1])
  }

  /** The largest true uptime so far, 0 at the start. */
  function Largest(samples: seq<Sample>): nat {
    if samples == [] then 0 else Max(Largest(samples[..|samples| - 1]), samples[|samples| - 1].uptime)
  }

  /** Every sample is less than 2^31 ms away from the largest one before it. */
  ghost predicate Close(samples: seq<Sample>) {
    forall i :: 0 <= i < |samples| ==> NearLargest(samples[..i], samples[i].uptime)
  }

  ghost predicate NearLargest(before: seq<Sample>, uptime: nat) {
    -(MAX_I32 + 1) < uptime - Largest(before) < MAX_I32 + 1
  }

  /** The last time the clock was told. */
  function LastTold(samples: seq<Sample>): Option<ClockSync> {
    if samples == [] then None
    else
      var s := samples[|samples| - 1];
      if s.Tell? then Some(ClockSync(s.uptime, LocalSeconds(s.time), s.time.offset))
      else LastTold(samples[..|samples| - 1])
  }

  /** Through any number of 32-bit wraps the clock knows the true uptime. */
  lemma {:induction false} ClockIsTrue(samples: seq<Sample>)
    requires Close(samples)
    ensures SampledAll(ClockState(None, 0), samples) == ClockState(LastTold(samples), Largest(samples))
    decreases |samples|
  {
    hide Extend, LocalSeconds;
    if samples != [] {
      var n := |samples| - 1;
      var before := samples[..n];
      forall i | 0 <= i < n ensures NearLargest(before[..i], before[i].uptime) {
        assert before[..i] == samples[..i];
      }
      ClockIsTrue(before);
      assert NearLargest(samples[..n], samples[n].uptime);
      ExtendsExactly(Largest(before), samples[n].uptime);
    }
  }

  /** After a sync, a timestamp is the time told plus the whole seconds since. */
  lemma TimestampsElapse(samples: seq<Sample>, k: nat, uptime: nat)
    requires Close(samples) && NearLargest(samples, uptime)
    requires k < |samples| && samples[k].Tell? && samples[k].uptime <= uptime
    requires forall i :: k < i < |samples| ==> samples[i].Ask?
    ensures var st := SampledAll(ClockState(None, 0), samples);
      Timestamp(st.sync, Extend(st.largest, uptime % WRAP))
      == FromLocalSeconds(LocalSeconds(samples[k].time) + (uptime - samples[k].uptime) / 1000, samples[k].time.offset)
  {
    hide Extend, LocalSeconds, FromLocalSeconds, SampledAll, LastTold, Largest, Close;
    ClockIsTrue(samples);
    assert NearLargest(samples, uptime);
    ExtendsExactly(Largest(samples), uptime);
    ToldAt(samples, k);
  }

  /** Before the first sync, a timestamp counts whole seconds of uptime from the first day of
      year 0, whatever day that leads to. */
  lemma TimestampsBeforeSync(samples: seq<Sample>, uptime: nat)
    requires Close(samples) && NearLargest(samples, uptime)
    requires forall i :: 0 <= i < |samples| ==> samples[i].Ask?
    ensures var st := SampledAll(ClockState(None, 0), samples);
      var t := Timestamp(st.sync, Extend(st.largest, uptime % WRAP));
      && Valid(Date(t.year, t.month, t.day)) && t.hour <= 23 && t.minute <= 59 && t.second <= 59 && t.offset == 0
      && LocalSeconds(t) - LocalSeconds(NetworkTime(0, 1, 1, 0, 0, 0, 0)) == uptime / 1000
  {
    hide Extend, SampledAll, LastTold, Largest, Close, Timestamp, LocalSeconds, Valid;
    ClockIsTrue(samples);
    assert NearLargest(samples, uptime);
    ExtendsExactly(Largest(samples), uptime);
    NeverTold(samples);
    UnsyncedTimestamp(uptime);
  }

  lemma UnsyncedTimestamp(uptime: nat)
    ensures var t := Timestamp(None, uptime);
      && Valid(Date(t.year, t.month, t.day)) && t.hour <= 23 && t.minute <= 59 && t.second <= 59 && t.offset == 0
      && LocalSeconds(t) - LocalSeconds(NetworkTime(0, 1, 1, 0, 0, 0, 0)) == uptime / 1000
  {
    hide CivilFromDays, DaysFromCivil, Valid;
    UnsyncedSeconds(uptime / 1000);
    var days, secs := uptime / 1000 / SECONDS_PER_DAY, uptime / 1000 % SECONDS_PER_DAY;
    var date := CivilFromDays(DaysFromCivil(Date(0, 1, 1)) + days);
    assert Timestamp(None, uptime)
        == NetworkTime(date.year, date.month, date.day, secs / 3_600, secs % 3_600 / 60, secs % 60, 0);
  }

  lemma UnsyncedSeconds(seconds: nat)
    ensures var date := CivilFromDays(DaysFromCivil(Date(0, 1, 1)) + seconds / SECONDS_PER_DAY);
      var secs := seconds % SECONDS_PER_DAY;
      && Valid(date) && 0 <= date.month < 0x100 && 0 <= date.day < 0x100
      && DaysFromCivil(date) == DaysFromCivil(Date(0, 1, 1)) + seconds / SECONDS_PER_DAY
      && secs / 3_600 * 3_600 + secs % 3_600 / 60 * 60 + secs % 60 == secs
      && secs / 3_600 <= 23 && secs % 3_600 / 60 <= 59 && secs % 60 <= 59
      && seconds == seconds / SECONDS_PER_DAY * SECONDS_PER_DAY + secs
  {
    hide DaysFromCivil, CivilFromDays;
    DaysRoundTrip(DaysFromCivil(Date(0, 1, 1)) + seconds / SECONDS_PER_DAY);
  }

  lemma {:induction false} NeverTold(samples: seq<Sample>)
    requires forall i :: 0 <= i < |samples| ==> samples[i].Ask?
    ensures LastTold(samples) == None
    decreases |samples|
  {
    hide LocalSeconds;
    if samples != [] { NeverTold(samples[..|samples| - 1]); }
  }

  lemma {:induction false} ToldAt(samples: seq<Sample>, k: nat)
    requires k < |samples| && samples[k].Tell? && forall i :: k < i < |samples| ==> samples[i].Ask?
    ensures LastTold(samples) == Some(ClockSync(samples[k].uptime, LocalSeconds(samples[k].time),
                               samples[k].time.offset))
    decreases |samples|
  {
    hide LocalSeconds;
    if k < |samples| - 1 { ToldAt(samples[..|samples| - 1], k); }
  }
}
