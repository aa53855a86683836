/**
 Whole-second UTC instants and their text in the form of section 5.6 of
 RFC 3339. An instant counts seconds from the start of the year 0.
 */
module Times {
  import opened Wrappers

  predicate Leap(y: nat) { y % 4 == 0 && (y % 100 != 0 || y % 400 == 0) }

  function DaysInYear(y: nat): (n: nat)
    ensures n == MonthStart(y, 13)
  {
    if Leap(y) then 366 else 365
  }

  function DaysInMonth(y: nat, m: nat): nat {
    if m in {4, 6, 9, 11} then 30 else if m == 2 then (if Leap(y) then 29 else 28) else 31
  }

  /** Days of the year before its month m; month 13 is the end of the year. */
  function MonthStart(y: nat, m: nat): nat {
    var leap := if Leap(y) then 1 else 0;
    match m
    case 2 => 31 case 3 => 59 + leap case 4 => 90 + leap case 5 => 120 + leap
    case 6 => 151 + leap case 7 => 181 + leap case 8 => 212 + leap case 9 => 243 + leap
    case 10 => 273 + leap case 11 => 304 + leap case 12 => 334 + leap case 13 => 365 + leap
    case _ => 0
  }

  function YearStart(y: nat): nat {
    if y == 0 then 0 else YearStart(y - 1) + DaysInYear(y - 1)
  }

  /** The year a day falls in, searching from year y on. */
  function YearOf(day: nat, y: nat): (r: nat)
    requires YearStart(y) <= day
    ensures YearStart(r) <= day < YearStart(r + 1)
    decreases day - YearStart(y)
  {
    if day < YearStart(y + 1) then y else YearOf(day, y + 1)
  }

  /** The month a day of the year falls in, searching from month m on. */
  function MonthOf(y: nat, rest: nat, m: nat): (r: nat)
    requires 1 <= m <= 12 && MonthStart(y, m) <= rest < DaysInYear(y)
    ensures 1 <= r <= 12 && MonthStart(y, r) <= rest < MonthStart(y, r) + DaysInMonth(y, r)
    decreases 12 - m
  {
    if rest < MonthStart(y, m) + DaysInMonth(y, m) then m else MonthOf(y, rest, m + 1)
  }

  datatype Date = Date(year: nat, month: nat, day: nat) {
    predicate Valid() { year <= 9999 && 1 <= month <= 12 && 1 <= day <= DaysInMonth(year, month) }

    function Number(): nat
      requires day >= 1
    {
      YearStart(year) + MonthStart(year, month) + day - 1
    }
  }

  function DateOf(n: nat): (d: Date)
    requires YearOf(n, 0) <= 9999
    ensures d.Valid() && d.Number() == n
  {
    var y := YearOf(n, 0);
    var m := MonthOf(y, n - YearStart(y), 1);
    Date(y, m, n - YearStart(y) - MonthStart(y, m) + 1)
  }

  lemma {:induction false} YearsIncrease(a: nat, b: nat)
    ensures a <= b ==> YearStart(a) <= YearStart(b)
    ensures YearStart(a) < YearStart(b) ==> a < b
    decreases if a <= b then b - a else a - b
  {
    if a < b { YearsIncrease(a, b - 1); }
    if b < a { YearsIncrease(a - 1, b); }
  }

  const DAY := 86400

  /** The years 0 to 9999, the only ones this text form can name. */
  predicate InCalendar(t: int) { t >= 0 && YearOf(t / DAY, 0) <= 9999 }

  function Figure(n: nat): (c: char)
    requires n < 10
    ensures IsFigure(c) && c as int == 48 + n
  {
    (48 + n) as char
  }

  predicate IsFigure(c: char) { '0' <= c <= '9' }

  function Two(a: char, b: char): int { (a as int - 48) * 10 + (b as int - 48) }

  function Text(d: Date, h: nat, m: nat, s: nat): string
    requires d.year < 10000 && d.month < 100 && d.day < 100 && h < 100 && m < 100 && s < 100
  {
    var c, y := d.year / 100, d.year % 100;
    [ Figure(c / 10), Figure(c % 10), Figure(y / 10), Figure(y % 10), '-',
      Figure(d.month / 10), Figure(d.month % 10), '-', Figure(d.day / 10), Figure(d.day % 10), 'T',
      Figure(h / 10), Figure(h % 10), ':', Figure(m / 10), Figure(m % 10), ':', Figure(s / 10), Figure(s % 10), 'Z']
  }

  function TimeText(t: int): string
    requires InCalendar(t)
  {
    var day := t / DAY;
    Clock(DateOf(day), t - day * DAY)
  }

  function Clock(d: Date, seconds: nat): string
    requires d.Valid() && seconds < DAY
  {
    var h := seconds / 3600;
    var m := (seconds - h * 3600) / 60;
    Text(d, h, m, seconds - h * 3600 - m * 60)
  }

  predicate TimeShape(s: string) {
    |s| == 20 && s[4] == '-' && s[7] == '-' && s[10] == 'T' && s[13] == ':' && s[16] == ':' && s[19] == 'Z' &&
    forall i | i in {0, 1, 2, 3, 5, 6, 8, 9, 11, 12, 14, 15, 17, 18} :: IsFigure(s[i])
  }

  function ParseTime(s: string): (t: Option<int>)
    ensures t.Some? ==> InCalendar(t.value)
  {
    if !TimeShape(s) then None
    else
      var date := Date(Two(s[0], s[1]) * 100 + Two(s[2], s[3]), Two(s[5], s[6]), Two(s[8], s[9]));
      var h, m, sec := Two(s[11], s[12]), Two(s[14], s[15]), Two(s[17], s[18]);
      if !date.Valid() || h > 23 || m > 59 || sec > 59 then None
      else
        DayInCalendar(date, h * 3600 + m * 60 + sec);
        Some(date.Number() * DAY + h * 3600 + m * 60 + sec)
  }

  lemma DayInCalendar(d: Date, seconds: nat)
    requires d.Valid() && seconds < DAY
    ensures InCalendar(d.Number() * DAY + seconds)
  {
    assert MonthStart(d.year, d.month) + d.day <= MonthStart(d.year, 13);
    var y := YearOf(d.Number(), 0);
    YearsIncrease(y + 1, d.year);
    YearsIncrease(d.year + 1, y);
    assert (d.Number() * DAY + seconds) / DAY == d.Number();
  }

  lemma TwoFigures(n: nat)
    requires n < 100
    ensures Two(Figure(n / 10), Figure(n % 10)) == n
  {
  }

  lemma TextNumbers(d: Date, h: nat, m: nat, s: nat)
    requires d.year < 10000 && d.month < 100 && d.day < 100 && h < 100 && m < 100 && s < 100
    ensures var x := Text(d, h, m, s);
      |x| == 20 &&
      Two(x[0], x[1]) * 100 + Two(x[2], x[3]) == d.year && Two(x[5], x[6]) == d.month && Two(x[8], x[9]) == d.day &&
      Two(x[11], x[12]) == h && Two(x[14], x[15]) == m && Two(x[17], x[18]) == s
  {
    TwoFigures(d.year / 100);
    TwoFigures(d.year % 100);
    TwoFigures(d.month);
    TwoFigures(d.day);
    TwoFigures(h);
    TwoFigures(m);
    TwoFigures(s);
  }

  lemma TextShape(d: Date, h: nat, m: nat, s: nat)
    requires d.year < 10000 && d.month < 100 && d.day < 100 && h < 100 && m < 100 && s < 100
    ensures TimeShape(Text(d, h, m, s))
  {
  }

  /** A text of this shape breaks no tab-separated line. */
  lemma ShapeIsClean(s: string)
    requires TimeShape(s)
    ensures forall c | c in s :: c !in "\t\r\n"
  {
    forall i | 0 <= i < |s| ensures s[i] !in "\t\r\n" {
      assert i in {0, 1, 2, 3, 5, 6, 8, 9, 11, 12, 14, 15, 17, 18} || i in {4, 7, 10, 13, 16, 19};
    }
  }

  lemma ParseText(d: Date, h: nat, m: nat, s: nat)
    requires d.Valid() && h < 24 && m < 60 && s < 60
    ensures ParseTime(Text(d, h, m, s)) == Some(d.Number() * DAY + h * 3600 + m * 60 + s)
  {
    hide Text, Two, TimeShape, YearStart, MonthStart;
    var x := Text(d, h, m, s);
    TextNumbers(d, h, m, s);
    TextShape(d, h, m, s);
    assert Date(Two(x[0], x[1]) * 100 + Two(x[2], x[3]), Two(x[5], x[6]), Two(x[8], x[9])) == d;
  }

  lemma SecondsOfDay(t: nat)
    ensures 0 <= t - t / DAY * DAY < DAY
  {
  }

  /** An instant survives being written and read back, and its text breaks no line. */
  lemma TimeRoundTrip(t: int)
    requires InCalendar(t)
    ensures ParseTime(TimeText(t)) == Some(t)
    ensures forall c | c in TimeText(t) :: c !in "\t\r\n"
  {
    hide ParseTime, Clock, YearOf, YearStart, MonthOf, MonthStart, Leap;
    SecondsOfDay(t);
    ClockRoundTrip(DateOf(t / DAY), t - t / DAY * DAY);
  }

  lemma ClockRoundTrip(d: Date, seconds: nat)
    requires d.Valid() && seconds < DAY
    ensures ParseTime(Clock(d, seconds)) == Some(d.Number() * DAY + seconds)
    ensures forall c | c in Clock(d, seconds) :: c !in "\t\r\n"
  {
    hide ParseTime, Text, YearStart, MonthStart;
    var h := seconds / 3600;
    var m := (seconds - h * 3600) / 60;
    var s := seconds - h * 3600 - m * 60;
    ParseText(d, h, m, s);
    TextShape(d, h, m, s);
    ShapeIsClean(Text(d, h, m, s));
  }

  lemma ParsedIsClean(s: string)
    requires ParseTime(s).Some?
    ensures forall c | c in s :: c !in "\t\r\n"
  {
    ShapeIsClean(s);
  }

  lemma ParsedIsSpaceless(s: string)
    requires ParseTime(s).Some?
    ensures ' ' !in s
  {
    forall i | 0 <= i < |s| ensures s[i] != ' ' {
      assert i in {0, 1, 2, 3, 5, 6, 8, 9, 11, 12, 14, 15, 17, 18} || i in {4, 7, 10, 13, 16, 19};
    }
  }
}
