/** The time range a partition key stands for, rebuilt from the date components in the key. */
module PartitionTime {
  import opened Wrappers

  // ---------- the proleptic Gregorian calendar ----------

  const DAY_NANOSECONDS: int := 86_400_000_000_000

  predicate IsLeap(y: int) {
    y % 4 == 0 && (y % 100 != 0 || y % 400 == 0)
  }

  function DaysInMonth(y: int, m: int): (n: int)
    requires 1 <= m <= 12
    ensures 28 <= n <= 31
  {
    if m == 2 then (if IsLeap(y) then 29 else 28)
    else if m == 4 || m == 6 || m == 9 || m == 11 then 30
    else 31
  }

  datatype Date = Date(year: int, month: int, day: int)

  predicate ValidDate(d: Date) {
    1 <= d.month <= 12 && 1 <= d.day <= DaysInMonth(d.year, d.month)
  }

  /** Days from the start of year 1 to the start of year `y`. */
  function DaysBeforeYear(y: int): (n: int) {
    365 * (y - 1) + (y - 1) / 4 - (y - 1) / 100 + (y - 1) / 400
  }

  function DaysBeforeMonth(y: int, m: int): (n: int)
    requires 1 <= m <= 13
    decreases m
  {
    if m == 1 then 0 else DaysBeforeMonth(y, m - 1) + DaysInMonth(y, m - 1)
  }

  /** Days from the start of year 1 to 1970-01-01. */
  const EPOCH: int := 719162

  /** The day number of a date, counted from 1970-01-01. */
  function DayNumber(d: Date): (n: int)
    requires ValidDate(d)
  {
    DaysBeforeYear(d.year) + DaysBeforeMonth(d.year, d.month) + d.day - 1 - EPOCH
  }

  /** Day numbers count as timestamps do. */
  lemma EpochIsDayZero()
    ensures DayNumber(Date(1970, 1, 1)) == 0
  {
  }

  lemma YearLength(y: int)
    ensures DaysBeforeMonth(y, 13) == (if IsLeap(y) then 366 else 365)
  {
    assert DaysBeforeMonth(y, 3) == 31 + DaysInMonth(y, 2);
    assert DaysBeforeMonth(y, 6) == DaysBeforeMonth(y, 3) + 92;
    assert DaysBeforeMonth(y, 9) == DaysBeforeMonth(y, 6) + 92;
    assert DaysBeforeMonth(y, 12) == DaysBeforeMonth(y, 9) + 91;
  }

  /** Years follow each other without a gap. */
  lemma YearsAdjoin(y: int)
    ensures DaysBeforeYear(y + 1) == DaysBeforeYear(y) + DaysBeforeMonth(y, 13)
  {
    YearLength(y);
    assert y / 4 == (y - 1) / 4 + (if y % 4 == 0 then 1 else 0);
    assert y / 100 == (y - 1) / 100 + (if y % 100 == 0 then 1 else 0);
    assert y / 400 == (y - 1) / 400 + (if y % 400 == 0 then 1 else 0);
    LeapCases(y);
  }

  lemma LeapCases(y: int)
    ensures y % 400 == 0 ==> y % 100 == 0
    ensures y % 100 == 0 ==> y % 4 == 0
  {
  }

  // ---------- against the usual closed form ----------

  /** Days from 1 March to the start of a month of the same year, counted without the lengths of the months. */
  function DaysFromMarch(m: int): int {
    (153 * (m - 3) + 2) / 5
  }

  /** The months follow the closed form, with January and February in front. */
  lemma MonthsClosedForm(y: int, m: int)
    requires 1 <= m <= 13
    ensures m == 2 ==> DaysBeforeMonth(y, m) == 31
    ensures 3 <= m <= 12 ==> DaysBeforeMonth(y, m) == (if IsLeap(y) then 60 else 59) + DaysFromMarch(m)
    ensures m == 13 ==> DaysBeforeMonth(y, m) == (if IsLeap(y) then 366 else 365)
  {
    if m > 1 {
      MonthsClosedForm(y, m - 1);
    }
  }

  /** The day number of a date by the closed form in which years start in March. */
  function CivilDay(d: Date): int {
    var y, m := if d.month <= 2 then d.year - 1 else d.year, if d.month <= 2 then d.month + 12 else d.month;
    365 * y + y / 4 - y / 100 + y / 400 + DaysFromMarch(m) + d.day - 1 - 719_468
  }

  /** A date is valid when its day is not behind the last one of its month, and then the two day numbers agree. */
  lemma DayNumberClosedForm(d: Date)
    requires 1 <= d.month <= 12
    ensures ValidDate(d) <==> 1 <= d.day && CivilDay(d) < CivilDay(AfterMonth(d))
    ensures ValidDate(d) ==> DayNumber(d) == CivilDay(d)
  {
    hide DaysBeforeMonth, DaysInMonth, IsLeap, CivilDay;
    MonthStep(d.year, d.month);
    MonthStarts(d.year, d.month, d.day);
    MonthStarts(d.year, d.month + 1, 1);
    MonthStarts(d.year + 1, 1, 1);
    YearsAdjoin(d.year);
  }

  /** Counting from the first of a month on, also of the month behind the last one. */
  lemma MonthStarts(y: int, m: int, day: int)
    requires 1 <= m <= 13
    ensures m <= 12 ==> CivilDay(Date(y, m, day)) == DaysBeforeYear(y) + DaysBeforeMonth(y, m) + day - 1 - EPOCH
    ensures m == 1 ==> DaysBeforeMonth(y, m) == 0
  {
    hide DaysBeforeMonth, IsLeap;
    MonthsClosedForm(y, m);
    MonthStep(y, 1);
    YearsAdjoin(y);
    YearLength(y);
  }

  /** The first day of the next month. */
  function AfterMonth(d: Date): Date {
    if d.month == 12 then Date(d.year + 1, 1, 1) else Date(d.year, d.month + 1, 1)
  }

  lemma {:induction false} MonthsWithin(y: int, m: int, n: int)
    requires 1 <= m <= n <= 13
    ensures 28 * (n - m) <= DaysBeforeMonth(y, n) - DaysBeforeMonth(y, m) <= 31 * (n - m)
    decreases n
  {
    if m < n {
      MonthsWithin(y, m, n - 1);
    }
  }

  lemma {:induction false} YearsWithin(a: int, b: int)
    requires a <= b
    ensures 365 * (b - a) <= DaysBeforeYear(b) - DaysBeforeYear(a) <= 366 * (b - a)
    decreases b - a
  {
    if a < b {
      YearsWithin(a, b - 1);
      YearsAdjoin(b - 1);
      YearLength(b - 1);
    }
  }

  predicate Earlier(a: Date, b: Date) {
    a.year < b.year || (a.year == b.year && (a.month < b.month || (a.month == b.month && a.day < b.day)))
  }

  /** Later dates have larger day numbers. */
  lemma DayNumberMonotone(a: Date, b: Date)
    requires ValidDate(a) && ValidDate(b) && Earlier(a, b)
    ensures DayNumber(a) < DayNumber(b)
  {
    hide DaysBeforeYear, DaysBeforeMonth, IsLeap, DaysInMonth;
    MonthStep(a.year, a.month);
    MonthStep(b.year, b.month);
    MonthsWithin(a.year, a.month + 1, 13);
    MonthsWithin(b.year, 1, b.month);
    if a.year < b.year {
      YearsAdjoin(a.year);
      YearsWithin(a.year + 1, b.year);
    } else if a.month < b.month {
      MonthsWithin(a.year, a.month + 1, b.month);
    }
  }

  lemma MonthStep(y: int, m: int)
    requires 1 <= m <= 12
    ensures DaysBeforeMonth(y, m + 1) == DaysBeforeMonth(y, m) + DaysInMonth(y, m)
    ensures DaysBeforeMonth(y, 1) == 0
  {
  }

  lemma DayNumberInjective(a: Date, b: Date)
    requires ValidDate(a) && ValidDate(b) && DayNumber(a) == DayNumber(b)
    ensures a == b
  {
    if Earlier(a, b) {
      DayNumberMonotone(a, b);
    } else if Earlier(b, a) {
      DayNumberMonotone(b, a);
    }
  }

  function YearFrom(n: int, y: int): (r: int)
    requires DaysBeforeYear(y) <= n
    ensures DaysBeforeYear(r) <= n < DaysBeforeYear(r + 1)
    decreases n - DaysBeforeYear(y)
  {
    YearsWithin(y, y + 1);
    if n < DaysBeforeYear(y + 1) then y else YearFrom(n, y + 1)
  }

  function MonthFrom(y: int, k: int, m: int): (r: int)
    requires 1 <= m <= 12 && DaysBeforeMonth(y, m) <= k < DaysBeforeMonth(y, 13)
    ensures 1 <= r <= 12 && DaysBeforeMonth(y, r) <= k < DaysBeforeMonth(y, r + 1)
    decreases 12 - m
  {
    if k < DaysBeforeMonth(y, m + 1) then m else MonthFrom(y, k, m + 1)
  }

  /** A year that starts no later than day `n`. */
  function SomeYearBefore(n: int): (y: int)
    ensures DaysBeforeYear(y) <= n
  {
    var y := if n >= 0 then 1 else n;
    if n < 0 then YearsWithin(n, 1); y else y
  }

  /** The date of a day number. */
  function DateOfDay(n: int): (d: Date)
    ensures ValidDate(d) && DayNumber(d) == n
  {
    var k := n + EPOCH;
    var y := YearFrom(k, SomeYearBefore(k));
    YearsAdjoin(y);
    var m := MonthFrom(y, k - DaysBeforeYear(y), 1);
    Date(y, m, k - DaysBeforeYear(y) - DaysBeforeMonth(y, m) + 1)
  }

  /** The date of an instant given in nanoseconds since the epoch. */
  function DateOf(t: int): (d: Date)
    ensures ValidDate(d) && DayNumber(d) * DAY_NANOSECONDS <= t < (DayNumber(d) + 1) * DAY_NANOSECONDS
  {
    DateOfDay(t / DAY_NANOSECONDS)
  }

  /** The date `n` months later, its day clamped to the length of the month it lands in. */
  function AddMonths(d: Date, n: nat): (r: Date)
    requires ValidDate(d)
    ensures ValidDate(r)
  {
    var months := d.month - 1 + n;
    var y := d.year + months / 12;
    var m := months % 12 + 1;
    Date(y, m, if d.day <= DaysInMonth(y, m) then d.day else DaysInMonth(y, m))
  }

  // ---------- reading a key part ----------

  datatype NumericKind = Year | Month | Day | OtherNumeric

  datatype Item = Literal | Space | Numeric(kind: NumericKind) | Fixed | Error

  /** What the text parser read from a key part. */
  datatype Parsed = Parsed(
    year: Option<int>, month: Option<int>, day: Option<int>,
    hourDiv12: Option<int>, hourMod12: Option<int>, minute: Option<int>,
    second: Option<int>, nanosecond: Option<int>)

  /** Fills in the smallest value of every missing component, refusing gaps such as a day without a month. */
  function ImplicitDefaults(p: Parsed): (r: Option<Parsed>) {
    if p.year == None then None
    else if p.month == None && p.day.Some? then None
    else
      var p1 := if p.month == None then p.(month := Some(1)) else p;
      if p1.day == None && (p1.hourDiv12.Some? || p1.hourMod12.Some?) then None
      else
        var p2 := if p1.day == None then p1.(day := Some(1)) else p1;
        if (p2.hourDiv12 == None || p2.hourMod12 == None) &&
           (p2.hourDiv12.Some? || p2.hourMod12.Some? || p2.minute.Some?) then None
        else
          var p3 := if p2.hourDiv12 == None || p2.hourMod12 == None
                    then p2.(hourDiv12 := Some(0), hourMod12 := Some(0)) else p2;
          if p3.minute == None && (p3.second.Some? || p3.nanosecond.Some?) then None
          else Some(if p3.minute == None then p3.(minute := Some(0)) else p3)
  }

  /** The date and the time of day within it, when the components make one. */
  function ToDatetime(p: Parsed): (r: Option<(Date, int)>)
    ensures r.Some? ==> ValidDate(r.value.0)
  {
    if p.year == None || p.month == None || p.day == None then
      None
    else if p.hourDiv12 == None || p.hourMod12 == None || p.minute == None then
      None
    else
      var d := Date(p.year.value, p.month.value, p.day.value);
      var second := if p.second.Some? then p.second.value else 0;
      var nano := if p.nanosecond.Some? then p.nanosecond.value else 0;
      if !ValidDate(d) then None
      else
        var seconds := (p.hourDiv12.value * 12 + p.hourMod12.value) * 3600 + p.minute.value * 60 + second;
        Some((d, seconds * 1_000_000_000 + nano))
  }

  /** No component is there without the next coarser one. */
  predicate NoGaps(p: Parsed) {
    && p.year.Some? && (p.day.Some? ==> p.month.Some?) && (p.hourMod12.Some? ==> p.day.Some?)
    && (p.hourDiv12.Some? <==> p.hourMod12.Some?) && (p.minute.Some? ==> p.hourMod12.Some?)
    && (p.second.Some? || p.nanosecond.Some? ==> p.minute.Some?)
  }

  /** Components without gaps, and no others, are filled up with the first month, day, hour and minute. */
  lemma DefaultsIff(p: Parsed)
    ensures ImplicitDefaults(p).Some? <==> NoGaps(p)
    ensures NoGaps(p) ==>
      var r := ImplicitDefaults(p).value;
      && r.year == p.year && r.month == OrElse(p.month, 1) && r.day == OrElse(p.day, 1)
      && r.hourDiv12 == OrElse(p.hourDiv12, 0) && r.hourMod12 == OrElse(p.hourMod12, 0)
      && r.minute == OrElse(p.minute, 0) && r.second == p.second && r.nanosecond == p.nanosecond
  {
  }

  function OrElse(x: Option<int>, y: int): Option<int> {
    if x.Some? then x else Some(y)
  }

  /** The components are in their ranges. */
  predicate InRanges(p: Parsed) {
    && p.hourDiv12.Some? && 0 <= p.hourDiv12.value < 2 && p.hourMod12.Some? && 0 <= p.hourMod12.value < 12
    && p.minute.Some? && 0 <= p.minute.value < 60 && (p.second.Some? ==> 0 <= p.second.value < 60)
    && (p.nanosecond.Some? ==> 0 <= p.nanosecond.value < 1_000_000_000)
  }

  /** There is a datetime exactly for a valid date, and its time of day splits into the components read. */
  lemma TimeOfDay(p: Parsed)
    requires p.year.Some? && p.month.Some? && p.day.Some? && InRanges(p)
    ensures
      var d := Date(p.year.value, p.month.value, p.day.value);
      var r := ToDatetime(p);
      && (r.Some? <==> ValidDate(d))
      && (r.Some? ==>
            var t := r.value.1;
            && r.value.0 == d && 0 <= t < DAY_NANOSECONDS
            && t / 43_200_000_000_000 == p.hourDiv12.value && t / 3_600_000_000_000 % 12 == p.hourMod12.value
            && t / 60_000_000_000 % 60 == p.minute.value && Some(t / 1_000_000_000 % 60) == OrElse(p.second, 0)
            && Some(t % 1_000_000_000) == OrElse(p.nanosecond, 0))
  {
    var s := if p.second.Some? then p.second.value else 0;
    var n := if p.nanosecond.Some? then p.nanosecond.value else 0;
    TimeParts(p.hourDiv12.value, p.hourMod12.value, p.minute.value, s, n);
  }

  lemma TimeParts(half: int, hour: int, minute: int, second: int, nano: int)
    requires 0 <= half < 2 && 0 <= hour < 12 && 0 <= minute < 60 && 0 <= second < 60 && 0 <= nano < 1_000_000_000
    ensures
      var t := ((half * 12 + hour) * 3600 + minute * 60 + second) * 1_000_000_000 + nano;
      && 0 <= t < DAY_NANOSECONDS && t / 43_200_000_000_000 == half && t / 3_600_000_000_000 % 12 == hour
      && t / 60_000_000_000 % 60 == minute && t / 1_000_000_000 % 60 == second && t % 1_000_000_000 == nano
  {
    var t := ((half * 12 + hour) * 3600 + minute * 60 + second) * 1_000_000_000 + nano;
    assert t / 1_000_000_000 == (half * 12 + hour) * 3600 + minute * 60 + second;
    assert t / 60_000_000_000 == (half * 12 + hour) * 60 + minute;
    assert t / 3_600_000_000_000 == half * 12 + hour;
  }

  /** How far the range reaches if `kind` is its finest component. */
  function ItemEnd(d: Date, kind: NumericKind): (n: int)
    requires ValidDate(d) && kind != OtherNumeric
  {
    match kind
    case Year => DayNumber(AddMonths(d, 12))
    case Month => DayNumber(AddMonths(d, 1))
    case Day => DayNumber(d) + 1
  }

  predicate Supported(items: seq<Item>) {
    forall i :: 0 <= i < |items| ==>
      match items[i]
      case Literal => true
      case Space => true
      case Numeric(kind) => kind != OtherNumeric
      case _ => false
  }

  /** The half-open range of instants a key part stands for. */
  method ParsePartTimeFormat(items: seq<Item>, read: Parsed) returns (r: Option<(int, int)>)
    ensures r == RangeOf(items, read)
  {
    hide DayNumber, AddMonths, ImplicitDefaults, ToDatetime, ValidDate;
    var filled := ImplicitDefaults(read);
    if filled == None {
      return None;
    }
    var start := ToDatetime(filled.value);
    if start == None {
      return None;
    }
    var (date, time) := start.value;
    var begin := DayNumber(date) * DAY_NANOSECONDS + time;
    var end: Option<int> := None;
    var i := 0;
    while i < |items|
      invariant 0 <= i <= |items| && Supported(items[..i])
      invariant end == if Smallest(date, items[..i]).Some?
                       then Some(Smallest(date, items[..i]).value * DAY_NANOSECONDS + time) else None
    {
      var itemEnd: Option<int> := None;
      match items[i] {
        case Literal =>
        case Space =>
        case Numeric(kind) =>
          match kind {
            case Year => itemEnd := Some(DayNumber(AddMonths(date, 12)) * DAY_NANOSECONDS + time);
            case Month => itemEnd := Some(DayNumber(AddMonths(date, 1)) * DAY_NANOSECONDS + time);
            case Day => itemEnd := Some((DayNumber(date) + 1) * DAY_NANOSECONDS + time);
            case OtherNumeric => return None;
          }
        case Fixed => return None;
        case Error => return None;
      }
      assert items[..i + 1][..i] == items[..i];
      if end.Some? && itemEnd.Some? {
        end := if end.value - begin < itemEnd.value - begin then end else itemEnd;
      } else if end == None {
        end := itemEnd;
      }
      i := i + 1;
    }
    assert items[..i] == items;
    r := if end.Some? then Some((begin, end.value)) else None;
  }

  /** The earliest day at which some named component ends. */
  ghost function Smallest(d: Date, items: seq<Item>): (r: Option<int>)
    requires ValidDate(d) && Supported(items)
  {
    if items == [] then None
    else
      var n := |items| - 1;
      var rest := Smallest(d, items[..n]);
      match items[n]
      case Numeric(kind) =>
        var e := ItemEnd(d, kind);
        if rest.Some? && rest.value < e then rest else Some(e)
      case _ => rest
  }

  ghost function RangeOf(items: seq<Item>, read: Parsed): (r: Option<(int, int)>) {
    var filled := ImplicitDefaults(read);
    if filled == None || ToDatetime(filled.value) == None || !Supported(items) then None
    else
      var (d, time) := ToDatetime(filled.value).value;
      var end := Smallest(d, items);
      if end == None then None
      else Some((DayNumber(d) * DAY_NANOSECONDS + time, end.value * DAY_NANOSECONDS + time))
  }

  // ---------- the range is exact ----------

  predicate Named(items: seq<Item>, kind: NumericKind) {
    Numeric(kind) in items
  }

  function Component(d: Date, kind: NumericKind): int
    requires kind != OtherNumeric
  {
    match kind case Year => d.year case Month => d.month case Day => d.day
  }

  function Field(p: Parsed, kind: NumericKind): Option<int>
    requires kind != OtherNumeric
  {
    match kind case Year => p.year case Month => p.month case Day => p.day
  }

  /** `read` holds exactly the numbers that the date items of the format named. */
  ghost predicate Reads(items: seq<Item>, read: Parsed) {
    && (forall kind :: kind != OtherNumeric ==> (Field(read, kind).Some? <==> Named(items, kind)))
    && read.hourDiv12 == None && read.hourMod12 == None && read.minute == None
    && read.second == None && read.nanosecond == None
  }

  /** The date agrees with every component the key names. */
  ghost predicate Agrees(d: Date, items: seq<Item>, read: Parsed) {
    forall kind :: kind != OtherNumeric && Named(items, kind) ==> Field(read, kind) == Some(Component(d, kind))
  }

  /** The first date of the period the key names. */
  function FirstDate(read: Parsed): (d: Date)
    requires read.year.Some?
  {
    Date(read.year.value,
         if read.month.Some? then read.month.value else 1,
         if read.day.Some? then read.day.value else 1)
  }

  /** `Smallest` is the end of some named component, and no named component ends earlier. */
  lemma {:induction false} SmallestIsLeast(d: Date, items: seq<Item>)
    requires ValidDate(d) && Supported(items)
    ensures Smallest(d, items) == None ==> forall kind :: !Named(items, kind)
    ensures Smallest(d, items).Some? ==>
      exists kind :: kind != OtherNumeric && Named(items, kind) && ItemEnd(d, kind) == Smallest(d, items).value
    ensures Smallest(d, items).Some? ==>
      forall kind :: kind != OtherNumeric && Named(items, kind) ==> Smallest(d, items).value <= ItemEnd(d, kind)
  {
    hide ItemEnd, ValidDate;
    if items != [] {
      var n := |items| - 1;
      assert items == items[..n] + [items[n]];
      assert forall kind :: Named(items, kind) <==> Named(items[..n], kind) || items[n] == Numeric(kind);
      SmallestIsLeast(d, items[..n]);
      var rest := Smallest(d, items[..n]);
      if rest.Some? {
        var kind :| kind != OtherNumeric && Named(items[..n], kind) && ItemEnd(d, kind) == rest.value;
        assert Named(items, kind);
      }
      if items[n].Numeric? {
        assert Named(items, items[n].kind);
      }
    }
  }

  lemma MonthsLater(d: Date, n: nat)
    requires ValidDate(d) && n > 0
    ensures Earlier(d, AddMonths(d, n)) && DayNumber(d) < DayNumber(AddMonths(d, n))
  {
    hide DayNumber;
    DayNumberMonotone(d, AddMonths(d, n));
  }

  /** Finer components end no later than coarser ones. */
  lemma FinerEndsFirst(d: Date)
    requires ValidDate(d)
    ensures ItemEnd(d, Day) <= ItemEnd(d, Month) && ItemEnd(d, Day) <= ItemEnd(d, Year)
    ensures d.day == 1 ==> ItemEnd(d, Month) <= ItemEnd(d, Year)
  {
    hide DayNumber;
    MonthsLater(d, 1);
    MonthsLater(d, 12);
    if d.day == 1 {
      var a, b := AddMonths(d, 1), AddMonths(d, 12);
      if a != b {
        assert Earlier(a, b);
        DayNumberMonotone(a, b);
      }
    }
  }

  lemma NotLater(a: Date, b: Date)
    requires ValidDate(a) && ValidDate(b) && !Earlier(b, a)
    ensures DayNumber(a) <= DayNumber(b)
  {
    hide DayNumber;
    if a != b {
      DayNumberMonotone(a, b);
    }
  }

  /** A day lies between two dates exactly when its date does. */
  lemma Between(a: Date, x: Date, b: Date)
    requires ValidDate(a) && ValidDate(b) && ValidDate(x)
    ensures DayNumber(a) <= DayNumber(x) < DayNumber(b) <==> !Earlier(x, a) && Earlier(x, b)
  {
    hide DayNumber;
    if Earlier(x, a) { DayNumberMonotone(x, a); } else { NotLater(a, x); }
    if Earlier(x, b) { DayNumberMonotone(x, b); } else { NotLater(b, x); }
  }

  /** The days from `d` to the end of its finest named component are those that agree with the key. */
  lemma PeriodIsExact(items: seq<Item>, read: Parsed, x: Date)
    requires Supported(items) && Reads(items, read) && Named(items, Year) && (Named(items, Day) ==> Named(items, Month))
    requires ValidDate(FirstDate(read)) && ValidDate(x)
    ensures
      var d := FirstDate(read);
      Smallest(d, items).Some? &&
      (DayNumber(d) <= DayNumber(x) < Smallest(d, items).value <==> Agrees(x, items, read))
  {
    hide DayNumber;
    var d := FirstDate(read);
    SmallestIsLeast(d, items);
    FinerEndsFirst(d);
    var e := Smallest(d, items).value;
    assert Field(read, Year).Some? && Field(read, Month).Some? == Named(items, Month);
    assert Field(read, Day).Some? == Named(items, Day);
    if Named(items, Day) {
      assert e == ItemEnd(d, Day);
      if DayNumber(x) == DayNumber(d) { DayNumberInjective(x, d); }
      AgreesMeans(items, read, x);
    } else if Named(items, Month) {
      assert e == ItemEnd(d, Month);
      Between(d, x, AddMonths(d, 1));
      AgreesMeans(items, read, x);
    } else {
      assert e == ItemEnd(d, Year);
      Between(d, x, AddMonths(d, 12));
      AgreesMeans(items, read, x);
    }
  }

  lemma AgreesMeans(items: seq<Item>, read: Parsed, x: Date)
    requires Reads(items, read) && read.year.Some?
    ensures Agrees(x, items, read) <==>
      && read.year.value == x.year
      && (Named(items, Month) ==> read.month == Some(x.month))
      && (Named(items, Day) ==> read.day == Some(x.day))
  {
    assert Named(items, Year) by { assert Field(read, Year).Some?; }
    if Agrees(x, items, read) {
      assert Field(read, Year) == Some(Component(x, Year));
      assert Named(items, Month) ==> Field(read, Month) == Some(Component(x, Month));
      assert Named(items, Day) ==> Field(read, Day) == Some(Component(x, Day));
    }
  }

  /** A key part of date components is accepted exactly when it names a year, names no day without a
      month, and its components make a date; the range it then stands for holds exactly the instants
      whose date agrees with it. */
  lemma RangeIsExact(items: seq<Item>, read: Parsed, t: int)
    requires Supported(items) && Reads(items, read)
    ensures RangeOf(items, read).Some? <==>
      Named(items, Year) && (Named(items, Day) ==> Named(items, Month)) && ValidDate(FirstDate(read))
    ensures RangeOf(items, read).Some? ==>
      var (begin, end) := RangeOf(items, read).value;
      begin <= t < end <==> Agrees(DateOf(t), items, read)
  {
    hide DayNumber, ValidDate, Supported, Smallest, DateOf, Agrees;
    assert Field(read, Year).Some? == Named(items, Year);
    assert Field(read, Month).Some? == Named(items, Month);
    assert Field(read, Day).Some? == Named(items, Day);
    if Named(items, Year) && (Named(items, Day) ==> Named(items, Month)) {
      Filled(read);
      if ValidDate(FirstDate(read)) {
        PeriodIsExact(items, read, DateOf(t));
        InDays(DayNumber(FirstDate(read)), DayNumber(DateOf(t)), Smallest(FirstDate(read), items).value, t);
      }
    }
  }

  lemma Filled(read: Parsed)
    requires read.year.Some? && (read.day.Some? ==> read.month.Some?)
    requires read.hourDiv12 == None && read.hourMod12 == None && read.minute == None
    requires read.second == None && read.nanosecond == None
    ensures ImplicitDefaults(read).Some?
    ensures ToDatetime(ImplicitDefaults(read).value) ==
      if ValidDate(FirstDate(read)) then Some((FirstDate(read), 0)) else None
  {
  }

  lemma InDays(a: int, x: int, b: int, t: int)
    requires x * DAY_NANOSECONDS <= t < (x + 1) * DAY_NANOSECONDS
    ensures a * DAY_NANOSECONDS <= t < b * DAY_NANOSECONDS <==> a <= x < b
  {
  }

  /** A format with any other item stands for no range. */
  lemma UnsupportedHasNoRange(items: seq<Item>, read: Parsed, i: nat)
    requires i < |items| && items[i] in {Numeric(OtherNumeric), Fixed, Error}
    ensures RangeOf(items, read) == None
  {
  }
}
