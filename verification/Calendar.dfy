/** Calendar arithmetic of the log viewer: a closed-form civil date and the timestamps printed from it. */
module Calendar {
  import opened Bytes

  datatype Date = Date(year: int, month: int, day: int)

  // ----- the simple calendar

  predicate LeapYear(y: int) {
    y % 4 == 0 && (y % 100 != 0 || y % 400 == 0)
  }

  function DaysIn(y: int, m: int): int {
    if m == 2 then (if LeapYear(y) then 29 else 28)
    else if m == 4 || m == 6 || m == 9 || m == 11 then 30
    else 31
  }

  function NextDay(d: Date): Date {
    if d.day < DaysIn(d.year, d.month) then d.(day := d.day + 1)
    else if d.month < 12 then Date(d.year, d.month + 1, 1)
    else Date(d.year + 1, 1, 1)
  }

  /** The proleptic Gregorian date reached from 1970-01-01 by `n` single-day steps. */
  function DayByDay(n: nat): Date {
    if n == 0 then Date(1970, 1, 1) else NextDay(DayByDay(n - 1))
  }

  // ----- the program's closed form: years of 400-year eras, years and months counted from March

  function YearOfEra(doe: nat): int {
    (doe - doe / 1460 + doe / 36524 - doe / 146096) / 365
  }

  function DaysBeforeYear(yoe: int): int {
    365 * yoe + yoe / 4 - yoe / 100
  }

  function MonthFromMarch(doy: int): int {
    (5 * doy + 2) / 153
  }

  function DaysBeforeMonth(mp: int): int {
    (153 * mp + 2) / 5
  }

  function DaysToYmd(days: nat): Date {
    var z := days + 719468;
    var era := (if z >= 0 then z else z - 146096) / 146097;
    var doe := z - era * 146097;
    var yoe := YearOfEra(doe);
    var y := yoe + era * 400;
    var doy := doe - DaysBeforeYear(yoe);
    var mp := MonthFromMarch(doy);
    var d := doy - DaysBeforeMonth(mp) + 1;
    var m := if mp < 10 then mp + 3 else mp - 9;
    Date(if m <= 2 then y + 1 else y, m, d)
  }

  // ----- its parts

  /** Length of the year that starts in March of year `yoe` of an era; its February belongs to the next year. */
  function YearLength(yoe: int): int {
    if LeapYear(yoe + 1) then 366 else 365
  }

  lemma YearStarts(yoe: int)
    requires 0 <= yoe < 400
    ensures DaysBeforeYear(yoe) + YearLength(yoe) == if yoe == 399 then 146097 else DaysBeforeYear(yoe + 1)
  {
  }

  /** A day of an era by century, four-year group, year and day of year; only the last day of a group is a 366th. */
  ghost predicate EraDay(doe: int, c: int, q: int, k: int, doy: int) {
    && doe == 36524 * c + 1461 * q + 365 * k + doy
    && 0 <= c < 4 && 0 <= q < 25 && 0 <= k < 4
    && 0 <= doy <= 365 && (doy == 365 ==> k == 3 && (q == 24 ==> c == 3))
  }

  lemma SplitEra(doe: nat) returns (c: int, q: int, k: int, doy: int)
    requires doe < 146097
    ensures EraDay(doe, c, q, k, doy)
  {
    c := if doe == 146096 then 3 else doe / 36524;
    var inCentury := doe - 36524 * c;
    q := inCentury / 1461;
    var inGroup := inCentury - 1461 * q;
    k := if inGroup == 1460 then 3 else inGroup / 365;
    doy := inGroup - 365 * k;
  }

  // Division by each divisor of the algorithm; a literal divisor keeps the arithmetic linear.

  lemma Quotient4(n: int, q: int)
    requires 4 * q <= n < 4 * q + 4
    ensures n / 4 == q
  {
  }

  lemma Quotient100(n: int, q: int)
    requires 100 * q <= n < 100 * q + 100
    ensures n / 100 == q
  {
  }

  lemma Quotient365(n: int, q: int)
    requires 365 * q <= n < 365 * q + 365
    ensures n / 365 == q
  {
  }

  lemma Quotient400(n: int, q: int)
    requires 400 * q <= n < 400 * q + 400
    ensures n / 400 == q
  {
  }

  lemma Quotient1460(n: int, q: int)
    requires 1460 * q <= n < 1460 * q + 1460
    ensures n / 1460 == q
  {
  }

  lemma Quotient36524(n: int, q: int)
    requires 36524 * q <= n < 36524 * q + 36524
    ensures n / 36524 == q
  {
  }

  lemma Quotient146096(n: int, q: int)
    requires 146096 * q <= n < 146096 * q + 146096
    ensures n / 146096 == q
  {
  }

  lemma Quotient146097(n: int, q: int)
    requires 146097 * q <= n < 146097 * q + 146097
    ensures n / 146097 == q
  {
  }

  lemma YearOfEraCorrect(doe: nat)
    requires doe < 146097
    ensures 0 <= YearOfEra(doe) < 400
    ensures 0 <= doe - DaysBeforeYear(YearOfEra(doe)) < YearLength(YearOfEra(doe))
  {
    var c, q, k, doy := SplitEra(doe);
    var yoe := 100 * c + 4 * q + k;
    Quotient4(yoe, 25 * c + q);
    Quotient100(yoe, c);
    assert DaysBeforeYear(yoe) == doe - doy;
    var late := if 24 * c + q + 365 * k + doy >= 1460 then 1 else 0;
    Quotient1460(doe, 25 * c + q + late);
    var last := if doe == 146096 then 1 else 0;
    Quotient36524(doe, c + last);
    Quotient146096(doe, last);
    Quotient365(365 * yoe + doy - late, yoe);
    assert YearOfEra(doe) == yoe;
    if doy == 365 {
      assert yoe + 1 == 100 * c + 4 * (q + 1);
      assert LeapYear(yoe + 1) by {
        Quotient4(yoe + 1, 25 * c + q + 1);
        if q < 24 {
          Quotient100(yoe + 1, c);
        }
      }
    }
  }

  /** Only one year of the era holds a given day. */
  lemma YearUnique(yoe: int, doe: nat)
    requires doe < 146097 && 0 <= yoe < 400
    requires 0 <= doe - DaysBeforeYear(yoe) < YearLength(yoe)
    ensures YearOfEra(doe) == yoe
  {
    YearOfEraCorrect(doe);
    var other := YearOfEra(doe);
    YearStarts(yoe);
    YearStarts(other);
    if other < yoe {
      YearsGrow(other + 1, yoe);
    } else if yoe < other {
      YearsGrow(yoe + 1, other);
    }
  }

  lemma YearsGrow(a: int, b: int)
    requires a <= b
    ensures DaysBeforeYear(a) <= DaysBeforeYear(b)
  {
    assert b / 4 >= a / 4;
    assert b / 100 <= a / 100 + (b - a);
  }

  lemma YearsInEra(yoe: int)
    requires 0 <= yoe < 400
    ensures DaysBeforeYear(0) == 0 && DaysBeforeYear(yoe) + YearLength(yoe) <= 146097 && YearLength(yoe) >= 365
  {
    YearStarts(yoe);
    YearStarts(399);
    if yoe < 399 {
      YearsGrow(yoe + 1, 399);
    }
  }

  // ----- one day at a time

  function FromMarch(y: int, doy: int): Date {
    var mp := MonthFromMarch(doy);
    var m := MonthNumber(mp);
    Date(if m <= 2 then y + 1 else y, m, doy - DaysBeforeMonth(mp) + 1)
  }

  lemma MonthInRange(doy: int)
    requires 0 <= doy <= 365
    ensures 0 <= MonthFromMarch(doy) <= 11
    ensures DaysBeforeMonth(MonthFromMarch(doy)) <= doy < DaysBeforeMonth(MonthFromMarch(doy) + 1)
  {
  }

  lemma MonthIs(doy: int, mp: int)
    requires 0 <= mp <= 11 && DaysBeforeMonth(mp) <= doy < DaysBeforeMonth(mp + 1)
    ensures MonthFromMarch(doy) == mp
  {
  }

  function MonthNumber(mp: int): int {
    if mp < 10 then mp + 3 else mp - 9
  }

  lemma MonthLength(y: int, mp: int)
    requires 0 <= mp <= 11
    ensures mp < 11 ==> DaysBeforeMonth(mp + 1) - DaysBeforeMonth(mp) == DaysIn(y, MonthNumber(mp))
    ensures mp == 11 ==> DaysBeforeMonth(mp) == 337 && DaysBeforeMonth(mp + 1) == 367 && MonthNumber(mp) == 2
  {
    if mp == 0 { } else if mp == 1 { } else if mp == 2 { } else if mp == 3 { } else if mp == 4 { } else if mp == 5 { }
    else if mp == 6 { } else if mp == 7 { } else if mp == 8 { } else if mp == 9 { } else if mp == 10 { } else { }
  }

  lemma NextInYear(y: int, doy: int)
    requires 0 <= doy && doy + 1 < (if LeapYear(y + 1) then 366 else 365)
    ensures FromMarch(y, doy + 1) == NextDay(FromMarch(y, doy))
  {
    hide MonthFromMarch, DaysBeforeMonth, LeapYear;
    MonthInRange(doy);
    var mp := MonthFromMarch(doy);
    MonthLength(if MonthNumber(mp) <= 2 then y + 1 else y, mp);
    if doy + 1 < DaysBeforeMonth(mp + 1) {
      MonthIs(doy + 1, mp);
    } else {
      MonthGrows(mp + 1);
      MonthIs(doy + 1, mp + 1);
    }
  }

  lemma MonthGrows(mp: int)
    ensures DaysBeforeMonth(mp) < DaysBeforeMonth(mp + 1)
  {
  }

  lemma LastOfFebruary(y: int)
    ensures FromMarch(y + 1, 0) == NextDay(FromMarch(y, (if LeapYear(y + 1) then 366 else 365) - 1))
  {
    hide MonthFromMarch, DaysBeforeMonth, LeapYear;
    MonthLength(y, 11);
    MonthIs((if LeapYear(y + 1) then 366 else 365) - 1, 11);
    FirstOfMarch();
  }

  lemma FirstOfMarch()
    ensures MonthFromMarch(0) == 0 && DaysBeforeMonth(0) == 0
  {
  }

  lemma EraLeap(yoe: int, era: int)
    ensures LeapYear(yoe + era * 400) == LeapYear(yoe)
  {
    Remainders(yoe, era);
  }

  lemma Remainders(n: int, era: int)
    ensures (n + era * 400) % 4 == n % 4 && (n + era * 400) % 100 == n % 100 && (n + era * 400) % 400 == n % 400
  {
    Quotient4(n + era * 400, n / 4 + 100 * era);
    Quotient100(n + era * 400, n / 100 + 4 * era);
    Quotient400(n + era * 400, n / 400 + era);
  }

  lemma ClosedForm(days: nat, era: int, doe: nat)
    requires days + 719468 == era * 146097 + doe && doe < 146097
    ensures DaysToYmd(days) == FromMarch(YearOfEra(doe) + era * 400, doe - DaysBeforeYear(YearOfEra(doe)))
  {
    Quotient146097(days + 719468, era);
  }

  lemma OneDayLater(days: nat)
    ensures DaysToYmd(days + 1) == NextDay(DaysToYmd(days))
  {
    hide YearOfEra, DaysBeforeYear, FromMarch, LeapYear, DaysToYmd, NextDay;
    var z := days + 719468;
    var era, doe := z / 146097, z % 146097;
    YearOfEraCorrect(doe);
    var yoe := YearOfEra(doe);
    var doy := doe - DaysBeforeYear(yoe);
    var y := yoe + era * 400;
    ClosedForm(days, era, doe);
    EraLeap(yoe + 1, era);
    YearStarts(yoe);
    YearsInEra(yoe);
    if doy + 1 < YearLength(yoe) {
      YearUnique(yoe, doe + 1);
      ClosedForm(days + 1, era, doe + 1);
      NextInYear(y, doy);
    } else {
      LastOfFebruary(y);
      if yoe < 399 {
        YearsInEra(yoe + 1);
        YearUnique(yoe + 1, doe + 1);
        ClosedForm(days + 1, era, doe + 1);
      } else {
        YearUnique(0, 0);
        ClosedForm(days + 1, era + 1, 0);
      }
    }
  }

  lemma Epoch()
    ensures DaysToYmd(0) == Date(1970, 1, 1)
  {
    hide DaysToYmd;
    ClosedForm(0, 4, 135080);
    assert YearOfEra(135080) == 369 && DaysBeforeYear(369) == 134774;
    assert MonthFromMarch(306) == 10 && DaysBeforeMonth(10) == 306;
  }

  /** The closed form is the calendar: day `n` is the date reached by `n` single-day steps from 1970-01-01. */
  lemma {:induction false} ClosedFormIsCalendar(n: nat)
    ensures DaysToYmd(n) == DayByDay(n)
  {
    hide DaysToYmd;
    if n == 0 {
      Epoch();
    } else {
      ClosedFormIsCalendar(n - 1);
      OneDayLater(n - 1);
    }
  }

  // ----- dates in order

  predicate ValidDate(d: Date) {
    1 <= d.month <= 12 && 1 <= d.day <= DaysIn(d.year, d.month)
  }

  /** A number that orders valid dates as year, month, day do. */
  function Key(d: Date): int {
    d.year * 512 + d.month * 32 + d.day
  }

  lemma NextIsLater(d: Date)
    requires ValidDate(d)
    ensures ValidDate(NextDay(d)) && Key(d) < Key(NextDay(d))
  {
  }

  lemma NoneBetween(d: Date, e: Date)
    requires ValidDate(d) && ValidDate(e) && Key(d) < Key(e)
    ensures Key(NextDay(d)) <= Key(e)
  {
    hide LeapYear;
    if e.year == d.year && e.month == d.month {
      assert d.day < e.day;
    }
  }

  lemma {:induction false} DatesGrow(n: nat)
    ensures ValidDate(DayByDay(n)) && Key(DayByDay(n)) >= Key(Date(1970, 1, 1)) + n
  {
    if n == 0 {
    } else {
      DatesGrow(n - 1);
      NextIsLater(DayByDay(n - 1));
    }
  }

  lemma {:induction false} DatesOrdered(a: nat, b: nat)
    requires a < b
    ensures Key(DayByDay(a)) < Key(DayByDay(b))
  {
    DatesGrow(b - 1);
    NextIsLater(DayByDay(b - 1));
    if a < b - 1 {
      DatesOrdered(a, b - 1);
    }
  }

  lemma KeyInjective(d: Date, e: Date)
    requires ValidDate(d) && ValidDate(e) && Key(d) == Key(e)
    ensures d == e
  {
  }

  lemma {:induction false} FirstDayFrom(date: Date, n: nat) returns (k: nat)
    requires ValidDate(date) && Key(Date(1970, 1, 1)) <= Key(date) <= Key(DayByDay(n))
    ensures DayByDay(k) == date
  {
    DatesGrow(n);
    if Key(DayByDay(n)) == Key(date) {
      KeyInjective(DayByDay(n), date);
      k := n;
    } else {
      DatesGrow(n - 1);
      if Key(DayByDay(n - 1)) < Key(date) {
        NoneBetween(DayByDay(n - 1), date);
        assert false;
      }
      k := FirstDayFrom(date, n - 1);
    }
  }

  /** Every valid date from 1970-01-01 on is produced, by one day number and no other. */
  lemma EveryDateOnce(date: Date)
    requires ValidDate(date) && Key(Date(1970, 1, 1)) <= Key(date)
    ensures exists n: nat :: DaysToYmd(n) == date && forall k: nat :: DaysToYmd(k) == date ==> k == n
  {
    hide DaysToYmd;
    var far := Key(date) - Key(Date(1970, 1, 1));
    DatesGrow(far);
    var n := FirstDayFrom(date, far);
    ClosedFormIsCalendar(n);
    forall k: nat | DaysToYmd(k) == date
      ensures k == n
    {
      ClosedFormIsCalendar(k);
      if k < n {
        DatesOrdered(k, n);
      } else if n < k {
        DatesOrdered(n, k);
      }
    }
  }

  // ----- printed timestamps

  function Digit(n: int): char
    requires 0 <= n < 10
  {
    '0' + n as char
  }

  function Decimal(n: nat): string {
    if n < 10 then [Digit(n)] else Decimal(n / 10) + [Digit(n % 10)]
  }

  /** A number in decimal, filled with zeros on the left up to `width` characters. */
  function Padded(n: nat, width: nat): string {
    Filled(Decimal(n), width)
  }

  function Filled(s: string, width: nat): string
    decreases width - |s|
  {
    if |s| >= width then s else Filled("0" + s, width)
  }

  const U64_LIMIT: nat := 0x1_0000_0000_0000_0000

  function ParseDigits(s: string, acc: nat): (r: int)
    ensures r == -1 || r >= 0
    decreases |s|
  {
    if s == "" then acc
    else if !('0' <= s[0] <= '9') then -1
    else if acc * 10 + (s[0] - '0') as int >= U64_LIMIT then -1
    else ParseDigits(s[1..], acc * 10 + (s[0] - '0') as int)
  }

  /** Rust's `str::parse::<u64>().unwrap_or(0)`. */
  function ParseOrZero(s: string): nat {
    var digits := if s != "" && s[0] == '+' then s[1..] else s;
    var n := if digits == "" then -1 else ParseDigits(digits, 0);
    if n < 0 then 0 else n
  }

  lemma DayInRange(n: nat)
    ensures var d := DaysToYmd(n); d.year >= 1970 && 1 <= d.month <= 12 && 1 <= d.day <= 31
  {
    hide DaysToYmd, LeapYear;
    ClosedFormIsCalendar(n);
    DatesGrow(n);
  }

  /** One placeholder of a format string and the literal text after it. */
  datatype Field = Field(n: nat, width: nat, separator: string)

  function Formatted(fields: seq<Field>): string {
    if fields == [] then ""
    else Padded(fields[0].n, fields[0].width) + (fields[0].separator + Formatted(fields[1..]))
  }

  function StampFields(secs: nat): seq<Field> {
    var timeOfDay := secs % 86400;
    var date := DaysToYmd(secs / 86400);
    DayInRange(secs / 86400);
    [Field(date.year, 4, "-"), Field(date.month, 2, "-"), Field(date.day, 2, " "),
     Field(timeOfDay / 3600, 2, ":"), Field(timeOfDay % 3600 / 60, 2, ":"), Field(timeOfDay % 60, 2, "")]
  }

  /** `YYYY-MM-DD HH:MM:SS` */
  function FormatSeconds(secs: nat): string {
    Formatted(StampFields(secs))
  }

  function FormatTimestamp(us: Option<string>): string {
    match us
    case None => ""
    case Some(s) =>
      var n := ParseOrZero(s);
      if n == 0 then "" else FormatSeconds(n / 1_000_000)
  }

  // ----- printed timestamps in order

  /** Dictionary order on strings. */
  predicate StringLess(a: string, b: string) {
    b != "" && (a == "" || a[0] < b[0] || (a[0] == b[0] && StringLess(a[1..], b[1..])))
  }

  function Pow10(w: nat): nat {
    if w == 0 then 1 else 10 * Pow10(w - 1)
  }

  /** Exactly `w` digits. */
  function Digits(n: nat, w: nat): (s: string)
    ensures |s| == w
  {
    if w == 0 then "" else Digits(n / 10, w - 1) + [Digit(n % 10)]
  }

  lemma {:induction false} StringLessConcat(a: string, b: string, x: string, y: string)
    requires |a| == |b|
    ensures StringLess(a + x, b + y) <==> StringLess(a, b) || (a == b && StringLess(x, y))
  {
    if a == "" {
      assert a + x == x && b + y == y;
    } else {
      assert (a + x)[1..] == a[1..] + x && (b + y)[1..] == b[1..] + y;
      assert a == [a[0]] + a[1..] && b == [b[0]] + b[1..];
      StringLessConcat(a[1..], b[1..], x, y);
    }
  }

  lemma {:induction false} DigitsOrdered(m: nat, n: nat, w: nat)
    requires m < Pow10(w) && n < Pow10(w)
    ensures StringLess(Digits(m, w), Digits(n, w)) <==> m < n
    ensures Digits(m, w) == Digits(n, w) <==> m == n
  {
    if w == 0 {
    } else {
      DigitsOrdered(m / 10, n / 10, w - 1);
      StringLessConcat(Digits(m / 10, w - 1), Digits(n / 10, w - 1), [Digit(m % 10)], [Digit(n % 10)]);
      assert StringLess([Digit(m % 10)], [Digit(n % 10)]) <==> m % 10 < n % 10;
      var a, b := Digits(m / 10, w - 1), Digits(n / 10, w - 1);
      if Digits(m, w) == Digits(n, w) {
        assert a == Digits(m, w)[..w - 1] == b;
        assert Digits(m, w)[w - 1] == Digit(m % 10) && Digits(n, w)[w - 1] == Digit(n % 10);
      }
    }
  }

  lemma {:induction false} FilledIsDigits(n: nat, k: nat, w: nat)
    requires k <= w && n < Pow10(k)
    ensures Filled(Digits(n, k), w) == Digits(n, w)
    decreases w - k
  {
    if k < w {
      LeadingZero(n, k);
      FilledIsDigits(n, k + 1, w);
    }
  }

  lemma {:induction false} LeadingZero(n: nat, k: nat)
    requires n < Pow10(k)
    ensures "0" + Digits(n, k) == Digits(n, k + 1) && n < Pow10(k + 1)
  {
    if k == 0 {
      assert Digits(0, 1) == Digits(0, 0) + [Digit(0)];
    } else {
      LeadingZero(n / 10, k - 1);
      assert "0" + (Digits(n / 10, k - 1) + [Digit(n % 10)]) == "0" + Digits(n / 10, k - 1) + [Digit(n % 10)];
    }
  }

  lemma {:induction false} DecimalIsDigits(n: nat) returns (k: nat)
    ensures k >= 1 && Decimal(n) == Digits(n, k) && n < Pow10(k) && (k > 1 ==> Pow10(k - 1) <= n)
  {
    if n < 10 {
      k := 1;
      assert Digits(n, 1) == Digits(0, 0) + [Digit(n)];
      assert Pow10(1) == 10 * Pow10(0);
    } else {
      k := DecimalIsDigits(n / 10);
      k := k + 1;
    }
  }

  lemma {:induction false} Pow10Grows(a: nat, b: nat)
    requires a <= b
    ensures 1 <= Pow10(a) <= Pow10(b)
  {
    if a < b {
      Pow10Grows(a, b - 1);
    } else if a > 0 {
      Pow10Grows(a - 1, a - 1);
    }
  }

  lemma PaddedIsDigits(n: nat, w: nat)
    requires w >= 1 && n < Pow10(w)
    ensures Padded(n, w) == Digits(n, w)
  {
    var k := DecimalIsDigits(n);
    if k > w {
      Pow10Grows(w, k - 1);
      assert false;
    }
    FilledIsDigits(n, k, w);
  }

  /** The text when every number fits its width. */
  function Rendered(fields: seq<Field>): string {
    if fields == [] then ""
    else Digits(fields[0].n, fields[0].width) + (fields[0].separator + Rendered(fields[1..]))
  }

  predicate FieldsLess(a: seq<Field>, b: seq<Field>)
    requires |a| == |b|
  {
    a != [] && (a[0].n < b[0].n || (a[0].n == b[0].n && FieldsLess(a[1..], b[1..])))
  }

  predicate SameLayout(a: seq<Field>, b: seq<Field>) {
    |a| == |b| && forall i :: 0 <= i < |a| ==>
      a[i].width == b[i].width && a[i].separator == b[i].separator
      && a[i].n < Pow10(a[i].width) && b[i].n < Pow10(b[i].width)
  }

  lemma {:induction false} RenderedOrdered(a: seq<Field>, b: seq<Field>)
    requires SameLayout(a, b)
    ensures StringLess(Rendered(a), Rendered(b)) <==> FieldsLess(a, b)
  {
    if a == [] {
    } else {
      var sep, x, y := a[0].separator, Rendered(a[1..]), Rendered(b[1..]);
      StringLessConcat(Digits(a[0].n, a[0].width), Digits(b[0].n, b[0].width), sep + x, sep + y);
      DigitsOrdered(a[0].n, b[0].n, a[0].width);
      StringLessConcat(sep, sep, x, y);
      Irreflexive(sep);
      RenderedOrdered(a[1..], b[1..]);
    }
  }

  lemma {:induction false} Irreflexive(s: string)
    ensures !StringLess(s, s)
  {
    if s == "" {
    } else {
      Irreflexive(s[1..]);
    }
  }

  predicate FourDigitYear(secs: nat) {
    DaysToYmd(secs / 86400).year <= 9999
  }

  lemma FieldsInRange(secs: nat)
    requires FourDigitYear(secs)
    ensures forall f <- StampFields(secs) :: f.n < Pow10(f.width) && f.width >= 1
  {
    hide DaysToYmd;
    DayInRange(secs / 86400);
    assert Pow10(2) == 100 && Pow10(4) == 10000;
  }

  lemma {:induction false} FormattedIsRendered(fields: seq<Field>)
    requires forall f <- fields :: f.n < Pow10(f.width) && f.width >= 1
    ensures Formatted(fields) == Rendered(fields)
  {
    hide Padded, Digits;
    if fields == [] {
    } else {
      PaddedIsDigits(fields[0].n, fields[0].width);
      FormattedIsRendered(fields[1..]);
    }
  }

  lemma TimesOrdered(a: nat, b: nat)
    requires a < 86400 && b < 86400
    ensures a < b <==>
            a / 3600 < b / 3600 ||
            (a / 3600 == b / 3600 && (a % 3600 / 60 < b % 3600 / 60 ||
                                      (a % 3600 / 60 == b % 3600 / 60 && a % 60 < b % 60)))
  {
    ClockParts(a);
    ClockParts(b);
  }

  lemma ClockParts(t: nat)
    ensures t == 3600 * (t / 3600) + 60 * (t % 3600 / 60) + t % 60
    ensures t % 3600 / 60 < 60 && t % 60 < 60
  {
    assert t % 60 == t % 3600 % 60;
  }

  lemma FieldsLessUnfold(a: seq<Field>, b: seq<Field>)
    requires |a| == |b| == 6
    ensures FieldsLess(a, b) <==>
            a[0].n < b[0].n || (a[0].n == b[0].n && (
            a[1].n < b[1].n || (a[1].n == b[1].n && (
            a[2].n < b[2].n || (a[2].n == b[2].n && (
            a[3].n < b[3].n || (a[3].n == b[3].n && (
            a[4].n < b[4].n || (a[4].n == b[4].n && a[5].n < b[5].n)))))))))
  {
    FieldsLessAt(a, b, 5);
    FieldsLessAt(a, b, 4);
    FieldsLessAt(a, b, 3);
    FieldsLessAt(a, b, 2);
    FieldsLessAt(a, b, 1);
    FieldsLessAt(a, b, 0);
    assert a[0..] == a && b[0..] == b && a[6..] == [] && b[6..] == [];
  }

  lemma FieldsLessAt(a: seq<Field>, b: seq<Field>, i: nat)
    requires i < |a| == |b|
    ensures FieldsLess(a[i..], b[i..]) <==> a[i].n < b[i].n || (a[i].n == b[i].n && FieldsLess(a[i + 1..], b[i + 1..]))
  {
    assert a[i..][1..] == a[i + 1..] && b[i..][1..] == b[i + 1..];
  }

  lemma FieldsOrdered(a: nat, b: nat)
    ensures FieldsLess(StampFields(a), StampFields(b)) <==> a < b
  {
    hide DaysToYmd, LeapYear, DayByDay;
    var i, j := a / 86400, b / 86400;
    FieldsLessUnfold(StampFields(a), StampFields(b));
    TimesOrdered(a % 86400, b % 86400);
    ClosedFormIsCalendar(i);
    ClosedFormIsCalendar(j);
    DatesGrow(i);
    DatesGrow(j);
    DayInRange(i);
    DayInRange(j);
    if i < j {
      DatesOrdered(i, j);
    } else if j < i {
      DatesOrdered(j, i);
    }
  }

  /** Printed seconds sort as strings exactly as they sort in time, up to the end of year 9999. */
  lemma StampsSortByTime(a: nat, b: nat)
    requires FourDigitYear(a) && FourDigitYear(b)
    ensures StringLess(FormatSeconds(a), FormatSeconds(b)) <==> a < b
    ensures FormatSeconds(a) == FormatSeconds(b) <==> a == b
  {
    hide Formatted, Rendered, StringLess, FourDigitYear, StampFields, FieldsLess;
    FieldsInRange(a);
    FieldsInRange(b);
    FormattedIsRendered(StampFields(a));
    FormattedIsRendered(StampFields(b));
    SameStampLayout(a, b);
    RenderedOrdered(StampFields(a), StampFields(b));
    RenderedOrdered(StampFields(b), StampFields(a));
    FieldsOrdered(a, b);
    FieldsOrdered(b, a);
    Irreflexive(FormatSeconds(a));
  }

  /** Width and separator of each field of a timestamp. */
  predicate StampLayout(fields: seq<Field>) {
    && |fields| == 6 && fields[0].width == 4
    && fields[1].width == fields[2].width == fields[3].width == fields[4].width == fields[5].width == 2
    && fields[0].separator == fields[1].separator == "-" && fields[2].separator == " "
    && fields[3].separator == fields[4].separator == ":" && fields[5].separator == ""
  }

  lemma StampsAreLaidOut(secs: nat)
    ensures StampLayout(StampFields(secs))
  {
    hide DaysToYmd;
  }

  lemma SameStampLayout(a: nat, b: nat)
    requires forall f <- StampFields(a) :: f.n < Pow10(f.width)
    requires forall f <- StampFields(b) :: f.n < Pow10(f.width)
    ensures SameLayout(StampFields(a), StampFields(b)) && SameLayout(StampFields(b), StampFields(a))
  {
    hide StampFields, Pow10;
    var fa, fb := StampFields(a), StampFields(b);
    StampsAreLaidOut(a);
    StampsAreLaidOut(b);
    forall i | 0 <= i < 6
      ensures fa[i].width == fb[i].width && fa[i].separator == fb[i].separator
      ensures fa[i].n < Pow10(fa[i].width) && fb[i].n < Pow10(fb[i].width)
    {
      assert fa[i] in fa && fb[i] in fb;
    }
  }

  /** The same for journal timestamps: microseconds in decimal, of which whole seconds are shown. */
  lemma TimestampsSortByTime(a: string, b: string)
    requires ParseOrZero(a) != 0 && ParseOrZero(b) != 0
    requires FourDigitYear(ParseOrZero(a) / 1_000_000) && FourDigitYear(ParseOrZero(b) / 1_000_000)
    ensures StringLess(FormatTimestamp(Some(a)), FormatTimestamp(Some(b))) <==>
            ParseOrZero(a) / 1_000_000 < ParseOrZero(b) / 1_000_000
    ensures FormatTimestamp(Some(a)) == FormatTimestamp(Some(b)) <==>
            ParseOrZero(a) / 1_000_000 == ParseOrZero(b) / 1_000_000
  {
    hide FormatSeconds, StringLess, FourDigitYear, ParseOrZero;
    StampsSortByTime(ParseOrZero(a) / 1_000_000, ParseOrZero(b) / 1_000_000);
  }

  lemma LeadingDigits()
    ensures |Padded(9999, 4)| > 0 && |Padded(10000, 4)| > 0
    ensures Padded(9999, 4)[0] == '9' && Padded(10000, 4)[0] == '1'
  {
    assert Decimal(9999) == Decimal(999) + [Digit(9)] && Decimal(999) == Decimal(99) + [Digit(9)]
        && Decimal(99) == Decimal(9) + [Digit(9)];
    assert Decimal(10000) == Decimal(1000) + [Digit(0)] && Decimal(1000) == Decimal(100) + [Digit(0)];
    assert Decimal(100) == Decimal(10) + [Digit(0)] && Decimal(10) == Decimal(1) + [Digit(0)];
  }

  lemma FormattedStart(fields: seq<Field>)
    requires fields != [] && Padded(fields[0].n, fields[0].width) != ""
    ensures Formatted(fields) != "" && Formatted(fields)[0] == Padded(fields[0].n, fields[0].width)[0]
  {
    hide Padded;
  }

  lemma LastOfFourDigitYears()
    ensures DaysToYmd(2932896).year == 9999 && DaysToYmd(2932897).year == 10000
  {
    hide DaysToYmd;
    ClosedForm(2932896, 24, 146036);
    ClosedForm(2932897, 24, 146037);
    assert YearOfEra(146036) == 399 && YearOfEra(146037) == 399 && DaysBeforeYear(399) == 145731;
    assert MonthFromMarch(305) == 9 && MonthFromMarch(306) == 10;
  }

  /** The bound is tight: the first second of year 10000 sorts before the midnight that precedes it by a day. */
  lemma YearTenThousandSortsEarly()
    ensures FourDigitYear(2932896 * 86400) && !FourDigitYear(2932897 * 86400)
    ensures StringLess(FormatSeconds(2932897 * 86400), FormatSeconds(2932896 * 86400))
  {
    hide Padded, DaysToYmd, Formatted;
    LastOfFourDigitYears();
    LeadingDigits();
    assert StampFields(2932896 * 86400)[0].n == 9999 && StampFields(2932897 * 86400)[0].n == 10000;
    FormattedStart(StampFields(2932896 * 86400));
    FormattedStart(StampFields(2932897 * 86400));
  }

  // ----- timestamps read back

  /** The number a string of digits spells. */
  function Value(s: string): int {
    if s == "" then 0 else Value(s[..|s| - 1]) * 10 + (s[|s| - 1] as int - '0' as int)
  }

  lemma {:induction false} DigitsSpell(n: nat, w: nat)
    requires n < Pow10(w)
    ensures Value(Digits(n, w)) == n
  {
    if w == 0 {
    } else {
      DigitsSpell(n / 10, w - 1);
      assert Digits(n, w)[..w - 1] == Digits(n / 10, w - 1);
    }
  }

  lemma StampSlices(y: string, m: string, d: string, h: string, mi: string, s: string)
    requires |y| == 4 && |m| == |d| == |h| == |mi| == |s| == 2
    ensures var t := y + ("-" + (m + ("-" + (d + (" " + (h + (":" + (mi + (":" + s)))))))));
            && |t| == 19 && t[..4] == y && t[5..7] == m && t[8..10] == d && t[11..13] == h && t[14..16] == mi
            && t[17..] == s && t[4] == '-' && t[7] == '-' && t[10] == ' ' && t[13] == ':' && t[16] == ':'
  {
    var minutes := mi + (":" + s);
    var hours := h + (":" + minutes);
    var days := d + (" " + hours);
    var months := m + ("-" + days);
    var t := y + ("-" + months);
    Parted(y, "-", months, t, 0);
    Parted(m, "-", days, t, 5);
    Parted(d, " ", hours, t, 8);
    Parted(h, ":", minutes, t, 11);
    Parted(mi, ":", s, t, 14);
  }

  lemma Parted(a: string, sep: string, rest: string, t: string, i: nat)
    requires |sep| == 1 && i <= |t| && t[i..] == a + (sep + rest)
    ensures |t| == i + |a| + 1 + |rest|
    ensures t[i..i + |a|] == a && t[i + |a|] == sep[0] && t[i + |a| + 1..] == rest
  {
    var tail := t[i..];
    assert tail[..|a|] == a && tail[|a|] == sep[0] && tail[|a| + 1..] == rest;
    assert t[i..i + |a|] == tail[..|a|] && t[i + |a|] == tail[|a|] && t[i + |a| + 1..] == tail[|a| + 1..];
  }

  lemma RenderedUnfold(fields: seq<Field>, i: nat)
    requires i <= |fields|
    ensures Rendered(fields[i..]) ==
            if i == |fields| then ""
            else Digits(fields[i].n, fields[i].width) + (fields[i].separator + Rendered(fields[i + 1..]))
  {
    if i < |fields| {
      assert fields[i..][1..] == fields[i + 1..];
    }
  }

  lemma RenderedStamp(f: seq<Field>)
    requires StampLayout(f)
    ensures Rendered(f) ==
            Digits(f[0].n, 4) + ("-" + (Digits(f[1].n, 2) + ("-" + (Digits(f[2].n, 2) + (" " + (Digits(f[3].n, 2)
            + (":" + (Digits(f[4].n, 2) + (":" + Digits(f[5].n, 2))))))))))
  {
    hide Rendered, Digits;
    assert f[5].width == 2 && f[5].separator == "";
    LastRendered(f);
    RenderedUnfold(f, 4);
    RenderedUnfold(f, 3);
    RenderedUnfold(f, 2);
    RenderedUnfold(f, 1);
    RenderedUnfold(f, 0);
    assert f[0..] == f;
  }

  lemma LastRendered(f: seq<Field>)
    requires |f| == 6 && f[5].separator == ""
    ensures Rendered(f[5..]) == Digits(f[5].n, f[5].width)
  {
    hide Digits;
    RenderedUnfold(f, 5);
    RenderedUnfold(f, 6);
    var last := Digits(f[5].n, f[5].width);
    assert Rendered(f[5..]) == last + (f[5].separator + Rendered(f[6..])) == last;
  }

  /** A printed timestamp, read digit by digit, gives back the calendar date and the time of day it was printed from. */
  lemma StampReadsBack(secs: nat)
    requires FourDigitYear(secs)
    ensures var t, date := FormatSeconds(secs), DayByDay(secs / 86400);
            && |t| == 19 && t[4] == '-' && t[7] == '-' && t[10] == ' ' && t[13] == ':' && t[16] == ':'
            && date == Date(Value(t[..4]), Value(t[5..7]), Value(t[8..10]))
            && 0 <= Value(t[14..16]) < 60 && 0 <= Value(t[17..]) < 60
            && secs % 86400 == 3600 * Value(t[11..13]) + 60 * Value(t[14..16]) + Value(t[17..])
  {
    hide DaysToYmd, DayByDay, Digits, Rendered, Formatted, Value, Pow10;
    var f := StampFields(secs);
    StampsAreLaidOut(secs);
    FieldsInRange(secs);
    FormattedIsRendered(f);
    RenderedStamp(f);
    StampSlices(Digits(f[0].n, 4), Digits(f[1].n, 2), Digits(f[2].n, 2), Digits(f[3].n, 2), Digits(f[4].n, 2),
                Digits(f[5].n, 2));
    forall i | 0 <= i < 6
      ensures Value(Digits(f[i].n, f[i].width)) == f[i].n
    {
      assert f[i] in f;
      DigitsSpell(f[i].n, f[i].width);
    }
    ClosedFormIsCalendar(secs / 86400);
    ClockParts(secs % 86400);
  }

  lemma {:induction false} ParsedPrefix(s: string, d: char, acc: nat)
    requires '0' <= d <= '9' && ParseDigits(s, acc) >= 0
    ensures ParseDigits(s + [d], acc) ==
            var n := ParseDigits(s, acc) * 10 + (d - '0') as int;
            if n >= U64_LIMIT then -1 else n
    decreases |s|
  {
    if s == "" {
      assert s + [d] == [d];
      assert [d][1..] == "";
    } else {
      assert (s + [d])[1..] == s[1..] + [d];
      ParsedPrefix(s[1..], d, acc * 10 + (s[0] - '0') as int);
    }
  }

  lemma {:induction false} TooLong(s: string, d: char, acc: nat)
    requires ParseDigits(s, acc) < 0
    ensures ParseDigits(s + [d], acc) < 0
    decreases |s|
  {
    if s == "" {
    } else {
      assert (s + [d])[1..] == s[1..] + [d];
      if '0' <= s[0] <= '9' && acc * 10 + (s[0] - '0') as int < U64_LIMIT {
        TooLong(s[1..], d, acc * 10 + (s[0] - '0') as int);
      }
    }
  }

  lemma {:induction false} BadEnd(s: string, d: char, acc: nat)
    requires !('0' <= d <= '9')
    ensures ParseDigits(s + [d], acc) < 0
    decreases |s|
  {
    if s == "" {
      assert s + [d] == [d];
    } else {
      assert (s + [d])[1..] == s[1..] + [d];
      if '0' <= s[0] <= '9' && acc * 10 + (s[0] - '0') as int < U64_LIMIT {
        BadEnd(s[1..], d, acc * 10 + (s[0] - '0') as int);
      }
    }
  }

  predicate AllDigits(s: string) {
    forall i :: 0 <= i < |s| ==> '0' <= s[i] <= '9'
  }

  lemma {:induction false} DigitsParse(s: string)
    ensures AllDigits(s) ==> Value(s) >= 0
    ensures ParseDigits(s, 0) == if AllDigits(s) && Value(s) < U64_LIMIT then Value(s) else -1
  {
    if s == "" {
    } else {
      var init, d := s[..|s| - 1], s[|s| - 1];
      assert s == init + [d];
      DigitsParse(init);
      if !('0' <= d <= '9') {
        BadEnd(init, d, 0);
      } else if ParseDigits(init, 0) < 0 {
        TooLong(init, d, 0);
      } else {
        ParsedPrefix(init, d, 0);
      }
    }
  }

  /**
   What a journal timestamp shows: decimal digits, behind a plus sign or not, that spell a non-zero number of
   microseconds of at most 64 bits are shown as its whole seconds, and anything else as nothing.
   */
  lemma TimestampReads(s: string)
    ensures FormatTimestamp(None) == ""
    ensures var digits := if s != "" && s[0] == '+' then s[1..] else s;
            FormatTimestamp(Some(s)) ==
            if AllDigits(digits) && 0 < Value(digits) < 0x1_0000_0000_0000_0000
            then FormatSeconds(Value(digits) / 1_000_000)
            else ""
  {
    hide FormatSeconds, ParseDigits, AllDigits;
    var digits := if s != "" && s[0] == '+' then s[1..] else s;
    DigitsParse(digits);
  }
}
