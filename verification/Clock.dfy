/** Times as text: the date of a second count, by arithmetic, against the
    calendar counted day by day. */
module Clocks {
  import opened Ids

  datatype Date = Date(year: int, month: int, day: int)

  // === the calendar ===

  predicate IsLeap(year: int) {
    (year % 4 == 0 && year % 100 != 0) || year % 400 == 0
  }

  function DaysIn(year: int, month: int): nat {
    if month == 2 then (if IsLeap(year) then 29 else 28)
    else if month == 4 || month == 6 || month == 9 || month == 11 then 30
    else 31
  }

  function NextDay(d: Date): Date {
    if d.day < DaysIn(d.year, d.month) then d.(day := d.day + 1)
    else if d.month < 12 then Date(d.year, d.month + 1, 1)
    else Date(d.year + 1, 1, 1)
  }

  /** The reference: so many days after 1970-01-01, one at a time. */
  function Counted(days: nat): Date {
    if days == 0 then Date(1970, 1, 1) else NextDay(Counted(days - 1))
  }

  predicate IsDate(d: Date) {
    1 <= d.month <= 12 && 1 <= d.day <= DaysIn(d.year, d.month)
  }

  predicate Before(a: Date, b: Date) {
    a.year < b.year || (a.year == b.year && (a.month < b.month || (a.month == b.month && a.day < b.day)))
  }

  lemma {:induction false} CountedIsDate(days: nat)
    ensures IsDate(Counted(days)) && Counted(days).year >= 1970
  {
    if days > 0 {
      CountedIsDate(days - 1);
    }
  }

  lemma {:induction false} CountedIncreases(a: nat, b: nat)
    requires a < b
    ensures Before(Counted(a), Counted(b))
    decreases b
  {
    CountedIsDate(b - 1);
    if a < b - 1 {
      CountedIncreases(a, b - 1);
    }
  }

  // === the arithmetic ===

  /** The year of an era of 400 that begins in March, by its day. */
  function YearOfEra(doe: int): int {
    (doe - doe / 1460 + doe / 36524 - doe / 146096) / 365
  }

  /** Days before such a year. */
  function DaysBefore(year: int): int { 365 * year + year / 4 - year / 100 }

  /** The civil date of a day, as the code computes it. */
  function Civil(days: nat): Date {
    var z := days + 719468;
    var era := z / 146097;
    var doe := z % 146097;
    var yoe := YearOfEra(doe);
    var doy := doe - DaysBefore(yoe);
    var mp := (5 * doy + 2) / 153;
    var day := doy - (153 * mp + 2) / 5 + 1;
    var month := if mp < 10 then mp + 3 else mp - 9;
    Date(yoe + era * 400 + (if month <= 2 then 1 else 0), month, day)
  }

  // === years ===

  /** Days of year `y` of an era: the leap day of the next calendar year is its last. */
  function YearLength(y: nat): nat {
    if IsLeap(y + 1) then 366 else 365
  }

  /** A year by its century, its four years and its rest. */
  lemma YearByParts(y: nat)
    requires y < 400
    ensures var c, q, r := y / 100, y % 100 / 4, y % 4;
      && y == 100 * c + 4 * q + r && c <= 3 && q <= 24 && r <= 3
      && DaysBefore(y) == 36524 * c + 1461 * q + 365 * r
      && (YearLength(y) == 366 <==> r == 3 && (q < 24 || c == 3))
  {
  }

  lemma FourYears(c: nat, q: nat, r: nat, d: nat)
    requires c <= 3 && q <= 24 && r <= 3 && d <= 365
    ensures (36524 * c + 1461 * q + 365 * r + d) / 1460
      == 25 * c + q + (if 24 * c + q + 365 * r + d >= 1460 then 1 else 0)
  {
    var rest := 24 * c + q + 365 * r + d;
    assert 36524 * c + 1461 * q + 365 * r + d == 1460 * (25 * c + q) + rest;
    assert rest < 2920;
  }

  lemma Centuries(c: nat, q: nat, r: nat, d: nat)
    requires c <= 3 && q <= 24 && r <= 3 && d <= 365
    requires d == 365 ==> r == 3 && (q < 24 || c == 3)
    ensures var doe := 36524 * c + 1461 * q + 365 * r + d;
      doe / 36524 - doe / 146096 == c && doe < 146097
  {
    var rest := 1461 * q + 365 * r + d;
    assert rest <= 36524 && (rest == 36524 ==> c == 3);
  }

  /** The year comes out of the days before it and in it. */
  lemma YearOfParts(c: nat, q: nat, r: nat, d: nat)
    requires c <= 3 && q <= 24 && r <= 3 && d <= 365
    requires d == 365 ==> r == 3 && (q < 24 || c == 3)
    ensures YearOfEra(36524 * c + 1461 * q + 365 * r + d) == 100 * c + 4 * q + r
  {
    FourYears(c, q, r, d);
    Centuries(c, q, r, d);
    var doe := 36524 * c + 1461 * q + 365 * r + d;
    var e := if 24 * c + q + 365 * r + d >= 1460 then 1 else 0;
    var y := 100 * c + 4 * q + r;
    assert doe - doe / 1460 + doe / 36524 - doe / 146096 == 365 * y + (d - e);
    assert 0 <= d - e < 365;
  }

  lemma YearOfDays(y: nat, d: nat)
    requires y < 400 && d < YearLength(y)
    ensures YearOfEra(DaysBefore(y) + d) == y && DaysBefore(y) + d < 146097
  {
    YearByParts(y);
    YearOfParts(y / 100, y % 100 / 4, y % 4, d);
    Centuries(y / 100, y % 100 / 4, y % 4, d);
  }

  lemma NextYear(y: nat)
    requires y < 400
    ensures y < 399 ==> DaysBefore(y + 1) == DaysBefore(y) + YearLength(y)
    ensures y == 399 ==> DaysBefore(y) + YearLength(y) == 146097
  {
    assert (y + 1) / 4 == y / 4 + (if (y + 1) % 4 == 0 then 1 else 0);
    assert (y + 1) / 100 == y / 100 + (if (y + 1) % 100 == 0 then 1 else 0);
    assert (y + 1) % 100 == 0 ==> (y + 1) % 4 == 0;
    assert (y + 1) % 400 == 0 <==> y == 399;
  }

  lemma By4(n: nat, q: nat, r: nat)
    requires n == 4 * q + r && r < 4
    ensures n % 4 == r
  {
  }

  lemma By100(n: nat, q: nat, r: nat)
    requires n == 100 * q + r && r < 100
    ensures n % 100 == r
  {
  }

  lemma By400(n: nat, q: nat, r: nat)
    requires n == 400 * q + r && r < 400
    ensures n % 400 == r
  {
  }

  lemma LeapInEra(era: nat, y: nat)
    ensures IsLeap(y + era * 400 + 1) == IsLeap(y + 1)
  {
    var year := y + 1;
    By4(year + era * 400, year / 4 + 100 * era, year % 4);
    By100(year + era * 400, year / 100 + 4 * era, year % 100);
    By400(year + era * 400, year / 400 + era, year % 400);
  }

  // === months ===

  /** The first day of a month, both counted from March. */
  function MonthStart(mp: nat): nat
    requires mp < 12
  {
    [0, 31, 61, 92, 122, 153, 184, 214, 245, 275, 306, 337][mp]
  }

  function MonthLength(y: nat, mp: nat): nat
    requires mp < 12
  {
    if mp == 11 then YearLength(y) - 337 else MonthStart(mp + 1) - MonthStart(mp)
  }

  /** A date by its era, its year and month counted from March, and the days before it in that month. */
  function DateOf(era: nat, y: nat, mp: nat, k: nat): Date {
    Date(y + era * 400 + (if mp < 10 then 0 else 1), if mp < 10 then mp + 3 else mp - 9, k + 1)
  }

  lemma MonthsAreTheCalendars(era: nat, y: nat, mp: nat)
    requires mp < 12
    ensures var d := DateOf(era, y, mp, 0); MonthLength(y, mp) == DaysIn(d.year, d.month)
  {
    LeapInEra(era, y);
  }

  /** The two divisions of the code are the table. */
  lemma MonthOfDay(y: nat, mp: nat, k: nat)
    requires mp < 12 && k < MonthLength(y, mp)
    ensures var doy := MonthStart(mp) + k; (5 * doy + 2) / 153 == mp && (153 * mp + 2) / 5 == MonthStart(mp)
  {
    var doy := MonthStart(mp) + k;
    assert 153 * mp <= 5 * doy + 2 < 153 * (mp + 1);
    assert 5 * MonthStart(mp) <= 153 * mp + 2 < 5 * (MonthStart(mp) + 1);
  }

  // === days ===

  /** That date is so many days after 1970-01-01. */
  predicate Stands(era: nat, y: nat, mp: nat, k: nat, days: nat) {
    && y < 400 && mp < 12 && k < MonthLength(y, mp)
    && days + 719468 == 146097 * era + DaysBefore(y) + MonthStart(mp) + k
  }

  lemma StandsCivil(era: nat, y: nat, mp: nat, k: nat, days: nat)
    requires Stands(era, y, mp, k, days)
    ensures Civil(days) == DateOf(era, y, mp, k)
  {
    var doy := MonthStart(mp) + k;
    assert doy < YearLength(y);
    YearOfDays(y, doy);
    MonthOfDay(y, mp, k);
    var z, doe := days + 719468, DaysBefore(y) + doy;
    assert z == 146097 * era + doe && doe < 146097;
    assert z / 146097 == era && z % 146097 == doe;
  }

  lemma StandsNext(era: nat, y: nat, mp: nat, k: nat, days: nat) returns (era': nat, y': nat, mp': nat, k': nat)
    requires Stands(era, y, mp, k, days)
    ensures Stands(era', y', mp', k', days + 1) && DateOf(era', y', mp', k') == NextDay(DateOf(era, y, mp, k))
  {
    MonthsAreTheCalendars(era, y, mp);
    if k + 1 < MonthLength(y, mp) {
      era', y', mp', k' := era, y, mp, k + 1;
    } else if mp < 11 {
      era', y', mp', k' := era, y, mp + 1, 0;
    } else {
      NextYear(y);
      era', y', mp', k' := if y == 399 then era + 1 else era, if y == 399 then 0 else y + 1, 0, 0;
    }
  }

  lemma {:induction false} StandsSomewhere(days: nat) returns (era: nat, y: nat, mp: nat, k: nat)
    ensures Stands(era, y, mp, k, days) && DateOf(era, y, mp, k) == Counted(days)
  {
    if days == 0 {
      era, y, mp, k := 4, 369, 10, 0;
    } else {
      var era0, y0, mp0, k0 := StandsSomewhere(days - 1);
      era, y, mp, k := StandsNext(era0, y0, mp0, k0, days - 1);
    }
  }

  /** The main result on dates: the arithmetic is the calendar. */
  lemma CivilIsCounted(days: nat)
    ensures Civil(days) == Counted(days) && IsDate(Civil(days)) && Civil(days).year >= 1970
  {
    var era, y, mp, k := StandsSomewhere(days);
    StandsCivil(era, y, mp, k, days);
    CountedIsDate(days);
  }

  // === text ===

  function Digit(n: nat): char
    requires n < 10
  {
    "0123456789"[n]
  }

  /** A number in decimal, with zeros before it up to a width. */
  function Padded(n: nat, width: nat): string
    decreases n, width
  {
    if n == 0 && width == 0 then ""
    else Padded(n / 10, if width == 0 then 0 else width - 1) + [Digit(n % 10)]
  }

  function Field(n: nat, width: nat, end: char): string { Padded(n, width) + [end] }

  function DateText(date: Date): string
    requires date.year >= 0 && date.month >= 0 && date.day >= 0
  {
    Field(date.year, 4, '-') + (Field(date.month, 2, '-') + Field(date.day, 2, 'T'))
  }

  function TimeText(rest: nat): string {
    Field(rest / 3600, 2, ':') + (Field(rest % 3600 / 60, 2, ':') + Field(rest % 60, 2, 'Z'))
  }

  /** A time as the API writes it. */
  function Rfc3339(unix: nat): string {
    CivilIsCounted(unix / 86400);
    DateText(Civil(unix / 86400)) + TimeText(unix % 86400)
  }

  function Ten(power: nat): nat {
    if power == 0 then 1 else 10 * Ten(power - 1)
  }

  function Value(text: string): nat {
    if text == "" then 0
    else 10 * Value(text[..|text| - 1]) + (var c := text[|text| - 1]; if '0' <= c <= '9' then (c - '0') as nat else 0)
  }

  predicate IsDecimal(text: string) { forall c <- text :: '0' <= c <= '9' }

  lemma {:induction false} PaddedReads(n: nat, width: nat)
    requires n < Ten(width)
    ensures |Padded(n, width)| == width && IsDecimal(Padded(n, width)) && Value(Padded(n, width)) == n
    decreases width
  {
    if width > 0 {
      PaddedReads(n / 10, width - 1);
      var text := Padded(n, width);
      assert text[..|text| - 1] == Padded(n / 10, width - 1);
      assert text[|text| - 1] == Digit(n % 10) && (Digit(n % 10) - '0') as nat == n % 10;
    }
  }

  lemma {:induction false} BelowAfter(prefix: string, a: string, b: string)
    requires Below(a, b)
    ensures Below(prefix + a, prefix + b)
  {
    if prefix == "" {
      assert prefix + a == a && prefix + b == b;
    } else {
      assert (prefix + a)[1..] == prefix[1..] + a && (prefix + b)[1..] == prefix[1..] + b;
      BelowAfter(prefix[1..], a, b);
    }
  }

  lemma BelowBefore(a: string, b: string, s: string, t: string)
    requires |a| == |b| && Below(a, b)
    ensures Below(a + s, b + t)
  {
    assert (a + s)[..|a|] == a && (b + t)[..|a|] == b;
    OlderByTime(a + s, b + t, |a|);
  }

  lemma DigitsOrder(x: nat, y: nat)
    requires x < y < 10
    ensures Below([Digit(x)], [Digit(y)])
  {
    assert Digit(x) == '0' + x as char && Digit(y) == '0' + y as char;
  }

  lemma ByTens(a: nat, b: nat, ten: nat)
    requires a < b < 10 * ten
    ensures a / 10 <= b / 10 < ten && (a / 10 == b / 10 ==> a % 10 < b % 10)
  {
  }

  lemma {:induction false} PaddedOrder(a: nat, b: nat, width: nat)
    requires a < b < Ten(width)
    ensures Below(Padded(a, width), Padded(b, width))
    decreases width
  {
    ByTens(a, b, Ten(width - 1));
    var x, y := Padded(a / 10, width - 1), Padded(b / 10, width - 1);
    assert Padded(a, width) == x + [Digit(a % 10)] && Padded(b, width) == y + [Digit(b % 10)];
    if a / 10 < b / 10 {
      PaddedOrder(a / 10, b / 10, width - 1);
      PaddedReads(a / 10, width - 1);
      PaddedReads(b / 10, width - 1);
      BelowBefore(x, y, [Digit(a % 10)], [Digit(b % 10)]);
    } else {
      DigitsOrder(a % 10, b % 10);
      BelowAfter(x, [Digit(a % 10)], [Digit(b % 10)]);
    }
  }

  /** The first field that differs decides. */
  lemma FieldOrder(a: nat, b: nat, width: nat, end: char, s: string, t: string)
    requires a <= b < Ten(width) && (a == b ==> Below(s, t))
    ensures Below(Field(a, width, end) + s, Field(b, width, end) + t)
  {
    if a == b {
      BelowAfter(Field(a, width, end), s, t);
    } else {
      PaddedOrder(a, b, width);
      PaddedReads(a, width);
      PaddedReads(b, width);
      BelowBefore(Padded(a, width), Padded(b, width), [end], [end]);
      BelowBefore(Field(a, width, end), Field(b, width, end), s, t);
    }
  }

  /** Seconds from the epoch to the end of the year 9999. */
  const END_OF_9999 := 253402300800

  lemma LastDayOf9999()
    ensures Civil(2932896) == Date(9999, 12, 31)
  {
    StandsCivil(24, 399, 9, 30, 2932896);
  }

  lemma UpTo9999(unix: nat)
    ensures unix < END_OF_9999 <==> Civil(unix / 86400).year <= 9999
  {
    var last := 2932896;
    LastDayOf9999();
    CivilIsCounted(last);
    CivilIsCounted(unix / 86400);
    if unix / 86400 < last {
      CountedIncreases(unix / 86400, last);
    } else if unix / 86400 > last {
      CountedIncreases(last, unix / 86400);
    }
  }

  lemma SecondsOrder(a: nat, b: nat)
    requires a < b < 60
    ensures Below(Field(a, 2, 'Z'), Field(b, 2, 'Z'))
  {
    FieldOrder(a, b, 2, 'Z', "", "");
    assert Field(a, 2, 'Z') + "" == Field(a, 2, 'Z') && Field(b, 2, 'Z') + "" == Field(b, 2, 'Z');
  }

  lemma ByHours(a: nat, b: nat)
    requires a < b < 86400
    ensures a / 3600 <= b / 3600 < 24 && a % 3600 / 60 < 60 && b % 3600 / 60 < 60
    ensures a / 3600 == b / 3600 ==> a % 3600 / 60 <= b % 3600 / 60
    ensures a / 3600 == b / 3600 && a % 3600 / 60 == b % 3600 / 60 ==> a % 60 < b % 60
  {
    SecondsOfDay(a);
    SecondsOfDay(b);
  }

  lemma TimeOrder(a: nat, b: nat)
    requires a < b < 86400
    ensures Below(TimeText(a), TimeText(b))
  {
    ByHours(a, b);
    assert Ten(2) == 100;
    var sa, sb := Field(a % 60, 2, 'Z'), Field(b % 60, 2, 'Z');
    if a / 3600 == b / 3600 {
      if a % 3600 / 60 == b % 3600 / 60 {
        SecondsOrder(a % 60, b % 60);
      }
      FieldOrder(a % 3600 / 60, b % 3600 / 60, 2, ':', sa, sb);
    }
    FieldOrder(a / 3600, b / 3600, 2, ':', Field(a % 3600 / 60, 2, ':') + sa, Field(b % 3600 / 60, 2, ':') + sb);
  }

  lemma DateThen(d: Date, s: string)
    requires d.year >= 0 && d.month >= 0 && d.day >= 0
    ensures DateText(d) + s == Field(d.year, 4, '-') + (Field(d.month, 2, '-') + (Field(d.day, 2, 'T') + s))
  {
  }

  lemma DateOrder(a: Date, b: Date, s: string, t: string)
    requires IsDate(a) && IsDate(b) && 0 <= a.year && b.year <= 9999
    requires Before(a, b) || (a == b && Below(s, t))
    ensures Below(DateText(a) + s, DateText(b) + t)
  {
    assert Ten(2) == 100 && Ten(4) == 10000;
    DateThen(a, s);
    DateThen(b, t);
    var da, db := Field(a.day, 2, 'T') + s, Field(b.day, 2, 'T') + t;
    if a.year == b.year && a.month == b.month {
      FieldOrder(a.day, b.day, 2, 'T', s, t);
    }
    var ma, mb := Field(a.month, 2, '-') + da, Field(b.month, 2, '-') + db;
    if a.year == b.year {
      FieldOrder(a.month, b.month, 2, '-', da, db);
    }
    FieldOrder(a.year, b.year, 4, '-', ma, mb);
  }

  lemma MomentOrder(a: Date, b: Date, s: nat, t: nat)
    requires IsDate(a) && IsDate(b) && 0 <= a.year && b.year <= 9999 && s < 86400 && t < 86400
    requires Before(a, b) || (a == b && s < t)
    ensures Below(DateText(a) + TimeText(s), DateText(b) + TimeText(t))
  {
    if a == b && s < t {
      TimeOrder(s, t);
    }
    DateOrder(a, b, TimeText(s), TimeText(t));
  }

  /** Times with a later date or, on one date, a later second come later. */
  lemma ByDate(a: nat, b: nat)
    requires a < b
    ensures Before(Counted(a / 86400), Counted(b / 86400)) || (a / 86400 == b / 86400 && a % 86400 < b % 86400)
  {
    if a / 86400 < b / 86400 {
      CountedIncreases(a / 86400, b / 86400);
    }
  }

  /** Up to the year 9999 the texts sort as the times do. */
  lemma TextsSort(a: nat, b: nat)
    requires a < b < END_OF_9999
    ensures Below(Rfc3339(a), Rfc3339(b))
  {
    var x, y := a / 86400, b / 86400;
    ByDate(a, b);
    CivilIsCounted(x);
    CivilIsCounted(y);
    UpTo9999(b);
    MomentOrder(Counted(x), Counted(y), a % 86400, b % 86400);
  }

  /** A date-time of section 5.6 of RFC 3339, in UTC. */
  predicate IsDateTime(text: string) {
    && |text| == 20
    && text[4] == '-' && text[7] == '-' && text[10] == 'T' && text[13] == ':' && text[16] == ':' && text[19] == 'Z'
    && IsDecimal(text[..4]) && IsDecimal(text[5..7]) && IsDecimal(text[8..10])
    && IsDecimal(text[11..13]) && IsDecimal(text[14..16]) && IsDecimal(text[17..19])
    && IsDate(Date(Value(text[..4]), Value(text[5..7]), Value(text[8..10])))
    && Value(text[11..13]) < 24 && Value(text[14..16]) < 60 && Value(text[17..19]) < 60
  }

  /** The text is a date-time, and it says the very second. */
  lemma TextIsDateTime(unix: nat)
    requires unix < END_OF_9999
    ensures var text := Rfc3339(unix);
      && IsDateTime(text)
      && Date(Value(text[..4]), Value(text[5..7]), Value(text[8..10])) == Counted(unix / 86400)
      && Value(text[11..13]) * 3600 + Value(text[14..16]) * 60 + Value(text[17..19]) == unix % 86400
  {
    var date, rest := Civil(unix / 86400), unix % 86400;
    CivilIsCounted(unix / 86400);
    UpTo9999(unix);
    assert Ten(2) == 100 && Ten(4) == 10000;
    PaddedReads(date.year, 4);
    PaddedReads(date.month, 2);
    PaddedReads(date.day, 2);
    PaddedReads(rest / 3600, 2);
    PaddedReads(rest % 3600 / 60, 2);
    PaddedReads(rest % 60, 2);
    FieldsApart(Padded(date.year, 4), Padded(date.month, 2), Padded(date.day, 2),
                Padded(rest / 3600, 2), Padded(rest % 3600 / 60, 2), Padded(rest % 60, 2), Rfc3339(unix));
    SecondsOfDay(rest);
    var text := Rfc3339(unix);
    assert Date(Value(text[..4]), Value(text[5..7]), Value(text[8..10])) == date;
  }

  lemma SecondsOfDay(rest: nat)
    requires rest < 86400
    ensures rest / 3600 < 24 && rest % 3600 / 60 < 60 && rest % 60 < 60
    ensures rest / 3600 * 3600 + rest % 3600 / 60 * 60 + rest % 60 == rest
  {
  }

  lemma FieldsApart(year: string, month: string, day: string, hour: string, minute: string, second: string,
          text: string)
    requires |year| == 4 && |month| == |day| == |hour| == |minute| == |second| == 2
    requires text
      == ((year + ['-']) + ((month + ['-']) + (day + ['T']))) + ((hour + [':']) + ((minute + [':']) + (second + ['Z'])))
    ensures |text| == 20 && text[..4] == year && text[5..7] == month && text[8..10] == day
    ensures text[11..13] == hour && text[14..16] == minute && text[17..19] == second
    ensures text[4] == '-' && text[7] == '-' && text[10] == 'T' && text[13] == ':' && text[16] == ':' && text[19] == 'Z'
  {
  }
}
