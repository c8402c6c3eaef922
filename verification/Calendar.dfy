/** The calendar behind the partition names (workers/partition_cron.go): days of the Gregorian calendar numbered from Monday,
    1 January of year 1, their ISO weeks (section 2.2.10 of ISO 8601:2004), and the names made of them. */
module Calendar {
  import opened Arithmetic

  /** The number of the first day of a year. */
  function YearStart(y: int): int {
    365 * (y - 1) + (y - 1) / 4 - (y - 1) / 100 + (y - 1) / 400
  }

  lemma YearLength(y: int)
    ensures YearStart(y + 1) == YearStart(y) + (if y % 4 == 0 && (y % 100 != 0 || y % 400 == 0) then 366 else 365)
  {
    DivStep(y - 1, 4);
    DivStep(y - 1, 100);
    DivStep(y - 1, 400);
    if y % 400 == 0 {
      assert y == 100 * (4 * (y / 400));
      DivModUnique(y, 100, 4 * (y / 400), 0);
    }
    if y % 100 == 0 {
      DivModUnique(y, 4, 25 * (y / 100), 0);
    }
  }

  lemma YearLengths(y: int)
    ensures 365 <= YearStart(y + 1) - YearStart(y) <= 366
  {
    YearLength(y);
  }

  /** The year a day lies in, searched from year y on. */
  function YearFrom(y: int, day: int): (year: int)
    requires 1 <= y && YearStart(y) <= day
    ensures y <= year && YearStart(year) <= day < YearStart(year + 1)
    decreases day - YearStart(y)
  {
    YearLength(y);
    if day < YearStart(y + 1) then y else YearFrom(y + 1, day)
  }

  function YearOf(day: nat): (year: int)
    ensures 1 <= year && YearStart(year) <= day < YearStart(year + 1)
  {
    YearFrom(1, day)
  }

  lemma {:induction false} YearStartMono(a: int, b: int)
    requires a <= b
    ensures YearStart(a) <= YearStart(b)
    decreases b - a
  {
    if a < b {
      YearStartMono(a, b - 1);
      YearLength(b - 1);
    }
  }

  lemma YearIs(day: nat, y: int)
    requires 1 <= y && YearStart(y) <= day < YearStart(y + 1)
    ensures YearOf(day) == y
  {
    var year := YearOf(day);
    hide YearStart, YearOf;
    if year < y {
      YearStartMono(year + 1, y);
    } else if y < year {
      YearStartMono(y + 1, year);
    }
  }

  predicate IsMonday(day: nat) {
    day % 7 == 0
  }

  /** Monday's ISO year and week are those of its Thursday: the Thursday's year, and which Thursday of that year it is. */
  function IsoWeek(monday: nat): (yw: (int, int))
    ensures yw.0 >= 1 && 1 <= yw.1 <= 53
  {
    var thursday := monday + 3;
    YearLength(YearOf(thursday));
    (YearOf(thursday), (thursday - YearStart(YearOf(thursday))) / 7 + 1)
  }

  /** The week in which a year's day x lies, counted from Thursdays. */
  function WeekOf(x: int): int {
    x / 7 + 1
  }

  lemma IsoWeekIs(monday: nat, y: int)
    requires 1 <= y && YearStart(y) <= monday + 3 < YearStart(y + 1)
    ensures IsoWeek(monday) == (y, WeekOf(monday + 3 - YearStart(y)))
  {
    YearIs(monday + 3, y);
    hide YearStart, YearOf;
  }

  /** Distinct Mondays have distinct ISO weeks, over all dates. */
  lemma IsoWeekInjective(a: nat, b: nat)
    requires IsMonday(a) && IsMonday(b) && IsoWeek(a) == IsoWeek(b)
    ensures a == b
  {
    hide *;
    var ya, yb := YearOf(a + 3), YearOf(b + 3);
    IsoWeekIs(a, ya);
    IsoWeekIs(b, yb);
    SevenApart(a, b, YearStart(ya));
  }

  lemma SevenApart(a: nat, b: nat, start: int)
    requires IsMonday(a) && IsMonday(b) && WeekOf(a + 3 - start) == WeekOf(b + 3 - start)
    ensures a == b
  {
    SameWeek(a / 7, b / 7, start, (a + 3 - start) / 7, (a + 3 - start) % 7, (b + 3 - start) % 7);
  }

  lemma SameWeek(i: int, j: int, start: int, q: int, r: int, s: int)
    requires 7 * i + 3 - start == 7 * q + r && 7 * j + 3 - start == 7 * q + s && 0 <= r < 7 && 0 <= s < 7
    ensures i == j
  {}

  lemma WeekOfNext(x: int, length: int)
    requires 0 <= x < length && 365 <= length <= 366
    ensures WeekOf(x + 7) == WeekOf(x) + 1
    ensures x + 7 >= length ==> WeekOf(x + 7 - length) == 1 && WeekOf(x) >= 52
  {}

  /** Weeks count up through a year and begin again at 1, after week 52 or 53. */
  lemma NextWeek(monday: nat)
    ensures var (y, w), (y', w') := IsoWeek(monday), IsoWeek(monday + 7);
            (y' == y && w' == w + 1) || (y' == y + 1 && w' == 1 && w >= 52)
  {
    hide *;
    var y := YearOf(monday + 3);
    YearLengths(y);
    YearLengths(y + 1);
    var x, length := monday + 3 - YearStart(y), YearStart(y + 1) - YearStart(y);
    IsoWeekIs(monday, y);
    WeekOfNext(x, length);
    if x + 7 < length {
      IsoWeekIs(monday + 7, y);
    } else {
      IsoWeekIs(monday + 7, y + 1);
    }
  }

  /** Week 1 of a year is the week of its fourth of January. */
  lemma WeekOneHasJanuaryFourth(monday: nat, y: int)
    requires IsMonday(monday) && y >= 1
    ensures IsoWeek(monday) == (y, 1) <==> monday <= YearStart(y) + 3 < monday + 7
  {
    hide *;
    YearLengths(y);
    if monday <= YearStart(y) + 3 < monday + 7 {
      IsoWeekIs(monday, y);
    } else {
      var year := YearOf(monday + 3);
      IsoWeekIs(monday, year);
    }
    FirstWeek(monday + 3 - YearStart(y));
  }

  lemma FirstWeek(x: int)
    ensures WeekOf(x) == 1 <==> 0 <= x < 7
  {}

  /** The partitions that the schema creates by hand are named like those created later: 19 May 2025 begins week 21. */
  lemma SchemaNamesAgree(k: nat)
    requires k < 4
    ensures IsMonday(739389 + 7 * k) && 739389 == YearStart(2025) + 138
    ensures IsoWeek(739389 + 7 * k) == (2025, 21 + k)
  {
    assert YearStart(2025) == 739251 && YearStart(2026) == 739616;
    IsoWeekIs(739389 + 7 * k, 2025);
  }

  // ---- Names ----

  function Digit(d: int): char
    requires 0 <= d < 10
  {
    "0123456789"[d]
  }

  lemma DigitInjective(a: int, b: int)
    requires 0 <= a < 10 && 0 <= b < 10 && Digit(a) == Digit(b)
    ensures a == b
  {}

  /** The decimal form of a number. */
  function Decimal(n: nat): (s: string)
    ensures s != []
  {
    if n < 10 then [Digit(n)] else Decimal(n / 10) + [Digit(n % 10)]
  }

  lemma {:induction false} DecimalInjective(a: nat, b: nat)
    requires Decimal(a) == Decimal(b)
    ensures a == b
    decreases a + b
  {
    var s, t := Decimal(a), Decimal(b);
    LastDigit(a);
    LastDigit(b);
    DigitInjective(a % 10, b % 10);
    if a >= 10 && b >= 10 {
      assert Decimal(a / 10) == s[..|s| - 1] && Decimal(b / 10) == t[..|t| - 1];
      DecimalInjective(a / 10, b / 10);
    }
  }

  lemma LastDigit(n: nat)
    ensures var s := Decimal(n); s[|s| - 1] == Digit(n % 10) && (|s| == 1 <==> n < 10)
  {}

  /** A partition's name: ping_logs_<year>_w<two digits of the week>. */
  function TableName(year: nat, week: nat): string
    requires week < 100
  {
    "ping_logs_" + Decimal(year) + "_w" + [Digit(week / 10), Digit(week % 10)]
  }

  lemma TableNameInjective(y: nat, w: nat, y': nat, w': nat)
    requires w < 100 && w' < 100 && TableName(y, w) == TableName(y', w')
    ensures y == y' && w == w'
  {
    var d, d' := Decimal(y), Decimal(y');
    var s, s' := TableName(y, w), TableName(y', w');
    assert |s| == |d| + 14 && |s'| == |d'| + 14;
    assert s[10..|s| - 4] == d && s'[10..|s'| - 4] == d';
    assert s[|s| - 2] == Digit(w / 10) && s[|s| - 1] == Digit(w % 10);
    assert s'[|s'| - 2] == Digit(w' / 10) && s'[|s'| - 1] == Digit(w' % 10);
    hide Decimal, TableName;
    DecimalInjective(y, y');
    DigitInjective(w / 10, w' / 10);
    DigitInjective(w % 10, w' % 10);
  }

  function NameOf(monday: nat): string {
    TableName(IsoWeek(monday).0, IsoWeek(monday).1)
  }

  /** Distinct Mondays have distinct partition names. */
  lemma NameInjective(a: nat, b: nat)
    requires IsMonday(a) && IsMonday(b) && NameOf(a) == NameOf(b)
    ensures a == b
  {
    hide TableName, IsoWeek;
    TableNameInjective(IsoWeek(a).0, IsoWeek(a).1, IsoWeek(b).0, IsoWeek(b).1);
    IsoWeekInjective(a, b);
  }
}
