/** The time-string layer: RFC 3339 timestamps in UTC at second resolution.

Rows carry their times as text; some decisions compare the text, others parse it back.
Times here are whole seconds since the Unix epoch; instants with a fraction are
nanoseconds since the epoch and are truncated by `SecondsOf` when they are written.
*/
module Rfc3339 {
  import opened Domain

  // ---------------------------------------------------------------- text order

  /** The byte order that DynamoDB conditions and Go's `<` use on strings. */
  predicate TextLess(a: string, b: string) {
    if b == "" then false
    else if a == "" then true
    else if a[0] != b[0] then a[0] < b[0]
    else TextLess(a[1..], b[1..])
  }

  /** Equal prefixes do not matter; different prefixes of one length decide. */
  lemma {:induction false} TextLessPrefix(a: string, b: string, x: string, y: string)
    requires |a| == |b|
    ensures TextLess(a + x, b + y) == if a == b then TextLess(x, y) else TextLess(a, b)
  {
    if a == "" {
      assert a + x == x && b + y == y;
    } else {
      assert (a + x)[1..] == a[1..] + x && (b + y)[1..] == b[1..] + y;
      TextLessPrefix(a[1..], b[1..], x, y);
      assert a == [a[0]] + a[1..] && b == [b[0]] + b[1..];
    }
  }

  lemma {:induction false} TextLessIrreflexive(a: string)
    ensures !TextLess(a, a)
  {
    if a != "" {
      TextLessIrreflexive(a[1..]);
    }
  }

  lemma {:induction false} TextLessTransitive(a: string, b: string, c: string)
    ensures TextLess(a, b) && TextLess(b, c) ==> TextLess(a, c)
    ensures !TextLess(a, b) && !TextLess(b, c) ==> !TextLess(a, c)
  {
    if a != "" && b != "" && c != "" {
      TextLessTransitive(a[1..], b[1..], c[1..]);
    }
  }

  lemma {:induction false} TextLessAsymmetric(a: string, b: string)
    ensures !(TextLess(a, b) && TextLess(b, a))
  {
    if a != "" && b != "" {
      TextLessAsymmetric(a[1..], b[1..]);
    }
  }

  lemma {:induction false} TextLessTotal(a: string, b: string)
    ensures TextLess(a, b) || TextLess(b, a) || a == b
  {
    if a != "" && b != "" && a[0] == b[0] {
      TextLessTotal(a[1..], b[1..]);
      assert a == [a[0]] + a[1..] && b == [b[0]] + b[1..];
    }
  }

  // ---------------------------------------------------------------- digits

  function Digit(n: nat): (c: char)
    requires n < 10
    ensures '0' <= c <= '9'
  {
    '0' + n as char
  }

  function Pow10(width: nat): (p: nat)
    ensures p > 0
  {
    if width == 0 then 1 else 10 * Pow10(width - 1)
  }

  /** `n` in decimal, zero-padded to `width` characters. */
  function Digits(width: nat, n: nat): (s: string)
    requires n < Pow10(width)
    ensures |s| == width
    ensures forall i :: 0 <= i < width ==> '0' <= s[i] <= '9'
  {
    if width == 0 then "" else Digits(width - 1, n / 10) + [Digit(n % 10)]
  }

  /** The number a run of digits denotes; nothing when some character is not a digit. */
  function Number(s: string): (r: Option<nat>)
    ensures r.Some? ==> r.value < Pow10(|s|)
  {
    if s == "" then Some(0)
    else
      var c := s[|s| - 1];
      match Number(s[..|s| - 1])
      case None => None
      case Some(hi) => if '0' <= c <= '9' then Some(10 * hi + (c - '0') as nat) else None
  }

  lemma {:induction false} NumberOfDigits(width: nat, n: nat)
    requires n < Pow10(width)
    ensures Number(Digits(width, n)) == Some(n)
  {
    if width > 0 {
      var s := Digits(width, n);
      assert s[..|s| - 1] == Digits(width - 1, n / 10);
      NumberOfDigits(width - 1, n / 10);
    }
  }

  lemma {:induction false} DigitsOrder(width: nat, m: nat, n: nat)
    requires m < Pow10(width) && n < Pow10(width)
    ensures TextLess(Digits(width, m), Digits(width, n)) <==> m < n
  {
    if width > 0 {
      DigitsOrder(width - 1, m / 10, n / 10);
      TextLessPrefix(Digits(width - 1, m / 10), Digits(width - 1, n / 10), [Digit(m % 10)], [Digit(n % 10)]);
      if m / 10 == n / 10 {
        assert TextLess([Digit(m % 10)], [Digit(n % 10)]) <==> m % 10 < n % 10;
      } else {
        NumberOfDigits(width - 1, m / 10);
        NumberOfDigits(width - 1, n / 10);
      }
    }
  }

  // ---------------------------------------------------------------- the calendar

  predicate IsLeap(y: nat) {
    y % 4 == 0 && (y % 100 != 0 || y % 400 == 0)
  }

  function DaysInYear(y: nat): nat {
    if IsLeap(y) then 366 else 365
  }

  function DaysInMonth(y: nat, m: nat): nat {
    if m == 2 then (if IsLeap(y) then 29 else 28)
    else if m == 4 || m == 6 || m == 9 || m == 11 then 30
    else 31
  }

  /** Days from 0000-01-01 to the first day of year `y`. */
  function DaysBeforeYear(y: nat): nat {
    if y == 0 then 0 else DaysBeforeYear(y - 1) + DaysInYear(y - 1)
  }

  /** Days from the first day of year `y` to the first day of its month `m`. */
  function DaysBeforeMonth(y: nat, m: nat): nat
    requires 1 <= m <= 13
  {
    if m == 1 then 0 else DaysBeforeMonth(y, m - 1) + DaysInMonth(y, m - 1)
  }

  lemma ProductSign(k: int, d: int)
    requires k > 0
    ensures d >= 1 ==> k * d >= k
    ensures d <= -1 ==> k * d <= -k
  {
  }

  lemma DivisionIsUnique(x: int, k: int, q: int, r: int)
    requires x == k * q + r && 0 <= r < k
    ensures x / k == q && x % k == r
  {
    var d := q - x / k;
    assert k * d == x % k - r;
    ProductSign(k, d);
  }

  /** A rounded-up quotient grows by one exactly past a multiple. */
  lemma CeilingStep(y: nat, k: nat)
    requires k > 1
    ensures (y + k) / k == (y + k - 1) / k + OneIf(y % k == 0)
  {
    var q, r := y / k, y % k;
    assert k * (q + 1) == k * q + k;
    DivisionIsUnique(y + k, k, q + 1, r);
    if r == 0 {
      DivisionIsUnique(y + k - 1, k, q, k - 1);
    } else {
      DivisionIsUnique(y + k - 1, k, q + 1, r - 1);
    }
  }

  lemma LeapDay(y: nat)
    ensures DaysInYear(y) == 365 + OneIf(y % 4 == 0) - OneIf(y % 100 == 0) + OneIf(y % 400 == 0)
  {
    if y % 100 == 0 {
      DivisionIsUnique(y, 4, 25 * (y / 100), 0);
    }
    if y % 400 == 0 {
      DivisionIsUnique(y, 100, 4 * (y / 400), 0);
    }
  }

  lemma YearByCeilings(y: nat)
    ensures DaysInYear(y) == 365 + ((y + 4) / 4 - (y + 3) / 4) - ((y + 100) / 100 - (y + 99) / 100)
                             + ((y + 400) / 400 - (y + 399) / 400)
  {
    LeapDay(y);
    CeilingStep(y, 4);
    CeilingStep(y, 100);
    CeilingStep(y, 400);
  }

  lemma {:induction false} DaysBeforeYearClosedForm(y: nat)
    ensures DaysBeforeYear(y) == 365 * y + (y + 3) / 4 - (y + 99) / 100 + (y + 399) / 400
  {
    if y > 0 {
      DaysBeforeYearClosedForm(y - 1);
      YearByCeilings(y - 1);
    }
  }

  lemma {:induction false} DaysBeforeYearMonotone(y: nat, z: nat)
    requires y <= z
    ensures DaysBeforeYear(y) + 365 * (z - y) <= DaysBeforeYear(z)
  {
    if y < z {
      DaysBeforeYearMonotone(y, z - 1);
    }
  }

  lemma {:induction false} DaysBeforeMonthMonotone(y: nat, m: nat, n: nat)
    requires 1 <= m <= n <= 13
    ensures DaysBeforeMonth(y, m) <= DaysBeforeMonth(y, n)
    ensures m < n ==> DaysBeforeMonth(y, m) + DaysInMonth(y, m) <= DaysBeforeMonth(y, n)
  {
    if m < n {
      DaysBeforeMonthMonotone(y, m, n - 1);
    }
  }

  lemma MonthsFillYear(y: nat)
    ensures DaysBeforeMonth(y, 13) == DaysInYear(y)
  {
    assert DaysBeforeMonth(y, 2) == 31;
    assert DaysBeforeMonth(y, 3) == 31 + DaysInMonth(y, 2);
    assert DaysBeforeMonth(y, 5) == DaysBeforeMonth(y, 3) + 61;
    assert DaysBeforeMonth(y, 7) == DaysBeforeMonth(y, 5) + 61;
    assert DaysBeforeMonth(y, 9) == DaysBeforeMonth(y, 7) + 62;
    assert DaysBeforeMonth(y, 11) == DaysBeforeMonth(y, 9) + 61;
  }

  /** The number of a date's day, counted from 0000-01-01, in closed form: no table of month lengths. */
  function GregorianDay(y: nat, m: nat, d: nat): int
    requires 1 <= m <= 13
  {
    365 * y + (y + 3) / 4 - (y + 99) / 100 + (y + 399) / 400
    + (if m == 1 then 0
       else if m == 2 then 31
       else 59 + ((y + 4) / 4 - (y + 3) / 4) - ((y + 100) / 100 - (y + 99) / 100) + ((y + 400) / 400 - (y + 399) / 400)
            + (153 * (m - 3) + 2) / 5)
    + d - 1
  }

  lemma MonthClosedForm(y: nat, m: nat)
    requires 1 <= m <= 13
    ensures DaysBeforeMonth(y, m)
            == if m == 1 then 0 else if m == 2 then 31 else DaysInYear(y) - 306 + (153 * (m - 3) + 2) / 5
  {
    if m > 3 {
      MonthClosedForm(y, m - 1);
    }
  }

  /** The calendar of the model is the Gregorian one. */
  lemma DayIsGregorian(y: nat, m: nat, d: nat)
    requires 1 <= m <= 13
    ensures DaysBeforeYear(y) + DaysBeforeMonth(y, m) + d - 1 == GregorianDay(y, m, d)
  {
    DaysBeforeYearClosedForm(y);
    MonthClosedForm(y, m);
    YearByCeilings(y);
  }

  /** The year that contains day number `day`, searched upwards from `y`. */
  function YearFrom(y: nat, day: nat): (z: nat)
    requires DaysBeforeYear(y) <= day
    ensures DaysBeforeYear(z) <= day < DaysBeforeYear(z + 1)
    decreases day - DaysBeforeYear(y)
  {
    if day < DaysBeforeYear(y + 1) then y else YearFrom(y + 1, day)
  }

  /** The month that contains day `doy` of year `y`, searched upwards from `m`. */
  function MonthFrom(y: nat, m: nat, doy: nat): (n: nat)
    requires 1 <= m <= 12
    requires DaysBeforeMonth(y, m) <= doy < DaysBeforeMonth(y, 13)
    ensures m <= n <= 12
    ensures DaysBeforeMonth(y, n) <= doy < DaysBeforeMonth(y, n + 1)
    decreases 12 - m
  {
    if doy < DaysBeforeMonth(y, m + 1) then m else MonthFrom(y, m + 1, doy)
  }

  // ---------------------------------------------------------------- timestamps

  const DAY := 86_400
  const EPOCH_DAYS := 719_528
  const LAST_DAYS := 3_652_425

  /** The two constants above are the day numbers of 1970-01-01 and 10000-01-01. */
  lemma CalendarConstants()
    ensures DaysBeforeYear(1970) == EPOCH_DAYS
    ensures DaysBeforeYear(10000) == LAST_DAYS
  {
    DaysBeforeYearClosedForm(1970);
    DaysBeforeYearClosedForm(10000);
  }

  /** The second that an instant in nanoseconds falls in. */
  function SecondsOf(t: int): (sec: int)
    ensures sec * NANOS <= t < (sec + 1) * NANOS
  {
    t / NANOS
  }

  /** Seconds in the years 0000 to 9999, the range of RFC 3339. */
  predicate InRange(sec: int) {
    0 <= sec + EPOCH_DAYS * DAY < LAST_DAYS * DAY
  }

  datatype Civil = Civil(year: nat, month: nat, day: nat, hour: nat, minute: nat, second: nat) {
    predicate Valid() {
      && year < 10000
      && 1 <= month <= 12
      && 1 <= day <= DaysInMonth(year, month)
      && hour < 24 && minute < 60 && second < 60
    }

    function ToSeconds(): int
      requires Valid()
    {
      DAY * (DaysBeforeYear(year) + DaysBeforeMonth(year, month) + day - 1 - EPOCH_DAYS)
      + 3600 * hour + 60 * minute + second
    }
  }

  function CivilOf(sec: int): (c: Civil)
    requires InRange(sec)
    ensures c.Valid()
    ensures c.ToSeconds() == sec
  {
    var abs: nat := sec + EPOCH_DAYS * DAY;
    var day, sod := abs / DAY, abs % DAY;
    var y := YearFrom(0, day);
    assert y < 10000 by {
      if y >= 10000 {
        DaysBeforeYearMonotone(10000, y);
        CalendarConstants();
      }
    }
    var doy := day - DaysBeforeYear(y);
    MonthsFillYear(y);
    var m := MonthFrom(y, 1, doy);
    Civil(y, m, doy - DaysBeforeMonth(y, m) + 1, sod / 3600, sod % 3600 / 60, sod % 60)
  }

  /** The field order of two calendar times, most significant field first. */
  predicate CivilLess(a: Civil, b: Civil) {
    if a.year != b.year then a.year < b.year
    else if a.month != b.month then a.month < b.month
    else if a.day != b.day then a.day < b.day
    else if a.hour != b.hour then a.hour < b.hour
    else if a.minute != b.minute then a.minute < b.minute
    else a.second < b.second
  }

  lemma DateBound(c: Civil)
    requires c.Valid()
    ensures 0 <= DaysBeforeMonth(c.year, c.month) + c.day - 1 < DaysInYear(c.year)
  {
    DaysBeforeMonthMonotone(c.year, c.month, 13);
    MonthsFillYear(c.year);
  }

  lemma CivilLessIsEarlier(a: Civil, b: Civil)
    requires a.Valid() && b.Valid() && CivilLess(a, b)
    ensures a.ToSeconds() < b.ToSeconds()
  {
    DateBound(a);
    DateBound(b);
    if a.year != b.year {
      DaysBeforeYearMonotone(a.year + 1, b.year);
    } else if a.month != b.month {
      DaysBeforeMonthMonotone(a.year, a.month, b.month);
    }
  }

  lemma CivilOrder(a: Civil, b: Civil)
    requires a.Valid() && b.Valid()
    ensures CivilLess(a, b) <==> a.ToSeconds() < b.ToSeconds()
  {
    if CivilLess(a, b) {
      CivilLessIsEarlier(a, b);
    } else if a != b {
      CivilLessIsEarlier(b, a);
    }
  }

  /** The time of day, as the part of a timestamp after the "T". */
  function RenderTime(c: Civil): (s: string)
    requires c.Valid()
    ensures |s| == 9
  {
    assert Pow10(2) == 100;
    Digits(2, c.hour) + (":" + (Digits(2, c.minute) + (":" + (Digits(2, c.second) + "Z"))))
  }

  function Render(c: Civil): (s: string)
    requires c.Valid()
    ensures |s| == 20
  {
    assert Pow10(2) == 100 && Pow10(4) == 10000 by {
      assert Pow10(3) == 10 * Pow10(2);
    }
    Digits(4, c.year) + ("-" + (Digits(2, c.month) + ("-" + (Digits(2, c.day) + ("T" + RenderTime(c))))))
  }

  /** `t.UTC().Format(time.RFC3339)` for a time in second `sec`. */
  function Format(sec: int): (s: string)
    requires InRange(sec)
    ensures |s| == 20
  {
    Render(CivilOf(sec))
  }

  function ReadCivil(s: string): (r: Option<Civil>)
    requires |s| == 20
    ensures r.Some? ==> r.value.Valid()
  {
    if s[4] != '-' || s[7] != '-' || s[10] != 'T' || s[13] != ':' || s[16] != ':' || s[19] != 'Z' then None
    else
      match (Number(s[0..4]), Number(s[5..7]), Number(s[8..10]),
             Number(s[11..13]), Number(s[14..16]), Number(s[17..19]))
      case (Some(y), Some(mo), Some(d), Some(h), Some(mi), Some(se)) =>
        var c := Civil(y, mo, d, h, mi, se);
        if c.Valid() then Some(c) else None
      case _ => None
  }

  /** `time.Parse(time.RFC3339, s)` on the UTC form without a fraction; nothing on an error. */
  function Parse(s: string): (r: Option<int>) {
    if |s| != 20 then None
    else match ReadCivil(s)
      case None => None
      case Some(c) => Some(c.ToSeconds())
  }

  // ---------------------------------------------------------------- the two laws

  lemma {:induction false} FieldOrder(width: nat, m: nat, n: nat, x: string, y: string)
    requires m < Pow10(width) && n < Pow10(width)
    ensures TextLess(Digits(width, m) + x, Digits(width, n) + y) == if m == n then TextLess(x, y) else m < n
  {
    TextLessPrefix(Digits(width, m), Digits(width, n), x, y);
    DigitsOrder(width, m, n);
    NumberOfDigits(width, m);
    NumberOfDigits(width, n);
  }

  lemma RenderOrder(a: Civil, b: Civil)
    requires a.Valid() && b.Valid()
    ensures TextLess(Render(a), Render(b)) <==> CivilLess(a, b)
  {
    assert Pow10(2) == 100 && Pow10(4) == 10000 by {
      assert Pow10(3) == 10 * Pow10(2);
    }
    var a6, b6 := Digits(2, a.second) + "Z", Digits(2, b.second) + "Z";
    var a5, b5 := Digits(2, a.minute) + (":" + a6), Digits(2, b.minute) + (":" + b6);
    var a4, b4 := Digits(2, a.hour) + (":" + a5), Digits(2, b.hour) + (":" + b5);
    var a3, b3 := Digits(2, a.day) + ("T" + a4), Digits(2, b.day) + ("T" + b4);
    var a2, b2 := Digits(2, a.month) + ("-" + a3), Digits(2, b.month) + ("-" + b3);
    FieldOrder(2, a.second, b.second, "Z", "Z");
    TextLessIrreflexive("Z");
    TextLessPrefix(":", ":", a6, b6);
    FieldOrder(2, a.minute, b.minute, ":" + a6, ":" + b6);
    TextLessPrefix(":", ":", a5, b5);
    FieldOrder(2, a.hour, b.hour, ":" + a5, ":" + b5);
    TextLessPrefix("T", "T", a4, b4);
    FieldOrder(2, a.day, b.day, "T" + a4, "T" + b4);
    TextLessPrefix("-", "-", a3, b3);
    FieldOrder(2, a.month, b.month, "-" + a3, "-" + b3);
    TextLessPrefix("-", "-", a2, b2);
    FieldOrder(4, a.year, b.year, "-" + a2, "-" + b2);
  }

  /** Text order of stored timestamps is time order, for every pair of times in range. */
  lemma FormatOrder(a: int, b: int)
    requires InRange(a) && InRange(b)
    ensures TextLess(Format(a), Format(b)) <==> a < b
  {
    RenderOrder(CivilOf(a), CivilOf(b));
    CivilOrder(CivilOf(a), CivilOf(b));
  }

  lemma Peel(s: string, i: nat, field: string, rest: string)
    requires i <= |s| && s[i..] == field + rest
    ensures i + |field| <= |s|
    ensures s[i..i + |field|] == field
    ensures s[i + |field|..] == rest
  {
    assert s[i..][..|field|] == field;
    assert s[i..][|field|..] == rest;
  }

  lemma Separators(s: string)
    requires |s| == 20
    requires s[4..5] == "-" && s[7..8] == "-" && s[10..11] == "T" && s[13..14] == ":" && s[16..17] == ":"
    requires s[19..] == "Z"
    ensures s[4] == '-' && s[7] == '-' && s[10] == 'T' && s[13] == ':' && s[16] == ':' && s[19] == 'Z'
  {
    assert s[4..5][0] == s[4] && s[7..8][0] == s[7] && s[10..11][0] == s[10];
    assert s[13..14][0] == s[13] && s[16..17][0] == s[16] && s[19..][0] == s[19];
  }

  lemma DatePieces(year: string, month: string, day: string, time: string)
    requires |year| == 4 && |month| == 2 && |day| == 2
    ensures var s := year + ("-" + (month + ("-" + (day + ("T" + time)))));
            && s[0..4] == year && s[5..7] == month && s[8..10] == day
            && s[4..5] == "-" && s[7..8] == "-" && s[10..11] == "T"
            && s[11..] == time
  {
    var s3 := day + ("T" + time);
    var s2 := month + ("-" + s3);
    var s := year + ("-" + s2);
    assert s[0..] == s;
    Peel(s, 0, year, "-" + s2);
    Peel(s, 4, "-", s2);
    Peel(s, 5, month, "-" + s3);
    Peel(s, 7, "-", s3);
    Peel(s, 8, day, "T" + time);
    Peel(s, 10, "T", time);
  }

  lemma RenderedDate(c: Civil)
    requires c.Valid()
    ensures 60 < Pow10(2) && c.year < Pow10(4)
    ensures var s := Render(c);
            && s[0..4] == Digits(4, c.year) && s[5..7] == Digits(2, c.month) && s[8..10] == Digits(2, c.day)
            && s[4..5] == "-" && s[7..8] == "-" && s[10..11] == "T"
            && s[11..] == RenderTime(c)
  {
    assert Pow10(2) == 100 && Pow10(4) == 10000 by {
      assert Pow10(3) == 10 * Pow10(2);
    }
    DatePieces(Digits(4, c.year), Digits(2, c.month), Digits(2, c.day), RenderTime(c));
  }

  lemma RenderedTime(c: Civil)
    requires c.Valid()
    ensures 60 < Pow10(2)
    ensures var s := Render(c);
            && s[11..13] == Digits(2, c.hour) && s[14..16] == Digits(2, c.minute) && s[17..19] == Digits(2, c.second)
            && s[13..14] == ":" && s[16..17] == ":" && s[19..] == "Z"
  {
    assert Pow10(2) == 100;
    RenderedDate(c);
    var s := Render(c);
    var s6 := Digits(2, c.second) + "Z";
    var s5 := Digits(2, c.minute) + (":" + s6);
    Peel(s, 11, Digits(2, c.hour), ":" + s5);
    Peel(s, 13, ":", s5);
    Peel(s, 14, Digits(2, c.minute), ":" + s6);
    Peel(s, 16, ":", s6);
    Peel(s, 17, Digits(2, c.second), "Z");
  }

  lemma ReadRender(c: Civil)
    requires c.Valid()
    ensures ReadCivil(Render(c)) == Some(c)
  {
    var s := Render(c);
    RenderedDate(c);
    RenderedTime(c);
    Separators(s);
    NumberOfDigits(4, c.year);
    NumberOfDigits(2, c.month);
    NumberOfDigits(2, c.day);
    NumberOfDigits(2, c.hour);
    NumberOfDigits(2, c.minute);
    NumberOfDigits(2, c.second);
  }

  /** Parsing a formatted instant gives it back truncated to the second. */
  lemma ParseFormat(t: int)
    requires InRange(SecondsOf(t))
    ensures Parse(Format(SecondsOf(t))) == Some(SecondsOf(t))
    ensures 0 <= t - SecondsOf(t) * NANOS < NANOS
  {
    ReadRender(CivilOf(SecondsOf(t)));
  }

  /** Equal text means equal second, so a stored time can be compared by its text. */
  lemma FormatInjective(a: int, b: int)
    requires InRange(a) && InRange(b) && Format(a) == Format(b)
    ensures a == b
  {
    ReadRender(CivilOf(a));
    ReadRender(CivilOf(b));
  }

  // ---------------------------------------------------------------- parsing is exact

  lemma {:induction false} DigitsOfNumber(s: string)
    requires Number(s).Some?
    ensures Digits(|s|, Number(s).value) == s
  {
    if s != "" {
      var front, c := s[..|s| - 1], s[|s| - 1];
      DigitsOfNumber(front);
      var hi, d := Number(front).value, (c - '0') as nat;
      assert (10 * hi + d) / 10 == hi && (10 * hi + d) % 10 == d;
      assert s == front + [c];
    }
  }

  /** The part of a timestamp after the "T", put together from its fields. */
  lemma TimeFromFields(s: string)
    requires |s| == 20 && s[13] == ':' && s[16] == ':' && s[19] == 'Z'
    ensures s[11..] == s[11..13] + (":" + (s[14..16] + (":" + (s[17..19] + "Z"))))
  {
    assert s[17..] == s[17..19] + "Z";
    assert s[14..] == s[14..16] + (":" + s[17..]);
    assert s[11..] == s[11..13] + (":" + s[14..]);
  }

  /** A timestamp, put together from its fields. */
  lemma DateFromFields(s: string)
    requires |s| == 20 && s[4] == '-' && s[7] == '-' && s[10] == 'T'
    ensures s == s[0..4] + ("-" + (s[5..7] + ("-" + (s[8..10] + ("T" + s[11..])))))
  {
    assert s[8..] == s[8..10] + ("T" + s[11..]);
    assert s[5..] == s[5..7] + ("-" + s[8..]);
    assert s == s[0..4] + ("-" + s[5..]);
  }

  lemma RenderTimeRead(s: string, c: Civil)
    requires |s| == 20 && ReadCivil(s) == Some(c)
    ensures RenderTime(c) == s[11..]
  {
    TimeFromFields(s);
    DigitsOfNumber(s[11..13]);
    DigitsOfNumber(s[14..16]);
    DigitsOfNumber(s[17..19]);
  }

  lemma RenderRead(s: string)
    requires |s| == 20 && ReadCivil(s).Some?
    ensures Render(ReadCivil(s).value) == s
  {
    DateFromFields(s);
    RenderTimeRead(s, ReadCivil(s).value);
    DigitsOfNumber(s[0..4]);
    DigitsOfNumber(s[5..7]);
    DigitsOfNumber(s[8..10]);
  }

  lemma CivilInRange(c: Civil)
    requires c.Valid()
    ensures InRange(c.ToSeconds()) && CivilOf(c.ToSeconds()) == c
  {
    DaysBeforeMonthMonotone(c.year, c.month, 13);
    MonthsFillYear(c.year);
    DaysBeforeYearMonotone(c.year + 1, 10000);
    CalendarConstants();
    var d := CivilOf(c.ToSeconds());
    CivilOrder(c, d);
    CivilOrder(d, c);
  }

  /** What parses is a formatted time, and nothing else: text reads as a second exactly when that second is in range
      and the text is its format. */
  lemma ParseIsExact(s: string, sec: int)
    ensures Parse(s) == Some(sec) <==> InRange(sec) && Format(sec) == s
  {
    if Parse(s) == Some(sec) {
      RenderRead(s);
      CivilInRange(ReadCivil(s).value);
    }
    if InRange(sec) && Format(sec) == s {
      ReadRender(CivilOf(sec));
    }
  }

  /** The written date is that of the Gregorian calendar, and the written time that of the day: the fields of the text
      add up to the second by the closed form, and the day lies before the first of the next month. */
  lemma FormatIsGregorian(sec: int) returns (c: Civil)
    requires InRange(sec)
    ensures c.Valid() && Format(sec) == Render(c)
    ensures sec == 86_400 * (GregorianDay(c.year, c.month, c.day) - 719_528) + 3600 * c.hour + 60 * c.minute + c.second
    ensures GregorianDay(c.year, c.month, 1) <= GregorianDay(c.year, c.month, c.day)
    ensures GregorianDay(c.year, c.month, c.day) < GregorianDay(c.year, c.month + 1, 1)
    ensures GregorianDay(c.year, 13, 1) == GregorianDay(c.year + 1, 1, 1)
  {
    c := CivilOf(sec);
    DayIsGregorian(c.year, c.month, c.day);
    DayIsGregorian(c.year, c.month + 1, 1);
  }
}
