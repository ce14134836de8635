/**
 * Calendar dates, `datetime.strptime` for the two formats the core uses
 * (`%m-%d-%Y` for file dates, `%d-%m-%Y` for range bounds), and
 * `is_date_in_range`.
 */
module Calendar {
  import opened Wrappers
  import opened Text
  import Order

  /** A `datetime` at day resolution. */
  datatype Date = Date(year: int, month: int, day: int)

  /** Sort key: chronological order is lexicographic order on (year, month, day). */
  function Key(d: Date): seq<int> { [d.year, d.month, d.day] }

  /** `datetime.min`, the key the scans give to a record without a date. */
  const MinDate := Date(1, 1, 1)

  predicate IsLeap(y: int) { (y % 4 == 0 && y % 100 != 0) || y % 400 == 0 }

  function DaysInMonth(y: int, m: int): int
    requires 1 <= m <= 12
  {
    if m == 2 then (if IsLeap(y) then 29 else 28)
    else if m == 4 || m == 6 || m == 9 || m == 11 then 30
    else 31
  }

  /** What the `datetime` constructor accepts. */
  predicate Valid(d: Date)
  {
    1 <= d.year <= 9999 && 1 <= d.month <= 12 && 1 <= d.day <= DaysInMonth(d.year, d.month)
  }

  /** The text `%m` accepts: `1[0-2]|0[1-9]|[1-9]`. */
  predicate MonthField(f: string)
  {
    (|f| == 2 && AllDigits(f) && 1 <= Value(f) <= 12) || (|f| == 1 && IsDigit(f[0]) && f[0] != '0')
  }

  /** The text `%d` accepts: `3[01]|[12]\d|0[1-9]|[1-9]| [1-9]`. */
  predicate DayField(f: string)
  {
    || (|f| == 2 && AllDigits(f) && 1 <= Value(f) <= 31)
    || (|f| == 1 && IsDigit(f[0]) && f[0] != '0')
    || (|f| == 2 && f[0] == ' ' && IsDigit(f[1]) && f[1] != '0')
  }

  function DayFieldValue(f: string): int
    requires DayField(f)
  {
    if f[0] == ' ' then DigitValue(f[1]) else Value(f)
  }

  /** The text `%Y` accepts: four digits. */
  predicate YearField(f: string) { |f| == 4 && AllDigits(f) }

  function FromFields(y: string, m: string, d: string): (r: Option<Date>)
    requires YearField(y) && MonthField(m) && DayField(d)
    ensures r.Some? ==> Valid(r.value)
  {
    var date := Date(Value(y), Value(m), DayFieldValue(d));
    if Valid(date) then Some(date) else None
  }

  /** `datetime.strptime(s, "%m-%d-%Y")`; `None` where Python raises `ValueError`. */
  function ParseMonthFirst(s: string): (r: Option<Date>)
    ensures r.Some? ==> Valid(r.value)
  {
    var p := Split(s, '-');
    if |p| == 3 && MonthField(p[0]) && DayField(p[1]) && YearField(p[2])
    then FromFields(p[2], p[0], p[1])
    else None
  }

  /** `%m-%d-%Y` on a text whose dash-separated parts are known. */
  lemma MonthFirstOfFields(s: string, m: string, d: string, y: string)
    requires Split(s, '-') == [m, d, y]
    ensures ParseMonthFirst(s)
            == if MonthField(m) && DayField(d) && YearField(y) then FromFields(y, m, d) else None
  {
  }

  /** `datetime.strptime(s, "%d-%m-%Y")`; `None` where Python raises `ValueError`. */
  function ParseDayFirst(s: string): (r: Option<Date>)
    ensures r.Some? ==> Valid(r.value)
  {
    var p := Split(s, '-');
    if |p| == 3 && DayField(p[0]) && MonthField(p[1]) && YearField(p[2])
    then FromFields(p[2], p[1], p[0])
    else None
  }

  /** `start_dt <= file_dt <= end_dt` on datetimes. */
  predicate Between(start: Date, file: Date, end: Date)
  {
    Order.LexLe(Key(start), Key(file)) && Order.LexLe(Key(file), Key(end))
  }

  /**
   * `is_date_in_range`: the file date is read month-first, the stripped bounds
   * day-first; any parse failure is caught and gives false.
   */
  function IsDateInRange(fileDate: string, startDate: string, endDate: string): (r: bool)
    ensures ParseMonthFirst(fileDate).None? ==> !r
    ensures ParseDayFirst(Strip(startDate)).None? || ParseDayFirst(Strip(endDate)).None? ==> !r
  {
    match (ParseMonthFirst(fileDate), ParseDayFirst(Strip(startDate)), ParseDayFirst(Strip(endDate)))
    case (Some(f), Some(s), Some(e)) => Between(s, f, e)
    case _ => false
  }

  // ---- Rendering, the inverse of parsing ----

  function Pad2(n: nat): (s: string)
    requires n < 100
    ensures |s| == 2 && AllDigits(s)
  {
    [DigitChar(n / 10), DigitChar(n % 10)]
  }

  function Pad4(n: nat): (s: string)
    requires n < 10000
    ensures |s| == 4 && AllDigits(s)
  {
    Pad2(n / 100) + Pad2(n % 100)
  }

  /** `MM-DD-YYYY`, the form every codec produces. */
  function MonthFirstText(d: Date): string
    requires Valid(d)
  {
    Pad2(d.month) + "-" + Pad2(d.day) + "-" + Pad4(d.year)
  }

  /** `DD-MM-YYYY`, the form the range bounds arrive in. */
  function DayFirstText(d: Date): string
    requires Valid(d)
  {
    Pad2(d.day) + "-" + Pad2(d.month) + "-" + Pad4(d.year)
  }

  lemma ValueTwo(s: string)
    requires |s| == 2 && AllDigits(s)
    ensures Value(s) == DigitValue(s[0]) * 10 + DigitValue(s[1])
  {
    assert s[..1][..0] == [];
  }

  lemma Pad2Value(n: nat)
    requires n < 100
    ensures Value(Pad2(n)) == n
  {
    ValueTwo(Pad2(n));
  }

  lemma Pad4Value(n: nat)
    requires n < 10000
    ensures Value(Pad4(n)) == n
  {
    var s := Pad4(n);
    var hi, lo := n / 100, n % 100;
    assert s[..2] == Pad2(hi);
    ValueTwo(Pad2(hi));
    assert s[..3][..2] == s[..2];
    assert Value(s[..3]) == Value(s[..2]) * 10 + DigitValue(s[2]);
    assert Value(s) == Value(s[..3]) * 10 + DigitValue(s[3]);
    assert DigitValue(s[2]) == lo / 10 && DigitValue(s[3]) == lo % 10;
    assert Value(s[..2]) == hi;
    calc {
      Value(s);
      (hi * 10 + lo / 10) * 10 + lo % 10;
      hi * 100 + (lo / 10) * 10 + lo % 10;
      hi * 100 + lo;
      n;
    }
  }

  lemma NoDash(s: string)
    requires AllDigits(s)
    ensures forall i :: 0 <= i < |s| ==> s[i] != '-'
  {
  }

  lemma SplitThree(a: string, b: string, c: string)
    requires AllDigits(a) && AllDigits(b) && AllDigits(c)
    ensures Split(a + "-" + b + "-" + c, '-') == [a, b, c]
  {
    NoDash(a);
    NoDash(b);
    NoDash(c);
    assert a + "-" + b + "-" + c == a + ['-'] + (b + ['-'] + c);
    SplitAround(a, '-', b + ['-'] + c);
    SplitAround(b, '-', c);
    SplitNoSep(c, '-');
  }

  /** Round trip: parsing the `MM-DD-YYYY` rendering of a date gives the date back. */
  lemma ParseMonthFirstRoundTrip(d: Date)
    requires Valid(d)
    ensures ParseMonthFirst(MonthFirstText(d)) == Some(d)
  {
    SplitThree(Pad2(d.month), Pad2(d.day), Pad4(d.year));
    Pad2Value(d.month);
    Pad2Value(d.day);
    Pad4Value(d.year);
  }

  /** Round trip: parsing the `DD-MM-YYYY` rendering of a date gives the date back. */
  lemma ParseDayFirstRoundTrip(d: Date)
    requires Valid(d)
    ensures ParseDayFirst(DayFirstText(d)) == Some(d)
  {
    SplitThree(Pad2(d.day), Pad2(d.month), Pad4(d.year));
    Pad2Value(d.month);
    Pad2Value(d.day);
    Pad4Value(d.year);
  }

  lemma StripDigits(s: string)
    requires |s| > 0 && IsDigit(s[0]) && IsDigit(s[|s| - 1])
    ensures Strip(s) == s
  {
  }

  /** A bound rendered `DD-MM-YYYY` reads back as the date it renders. */
  lemma BoundRoundTrip(d: Date)
    requires Valid(d)
    ensures ParseDayFirst(Strip(DayFirstText(d))) == Some(d)
  {
    var t := DayFirstText(d);
    assert t[0] == Pad2(d.day)[0];
    assert t[|t| - 1] == Pad4(d.year)[3];
    StripDigits(t);
    ParseDayFirstRoundTrip(d);
  }

  /**
   * For well-formed inputs the range check is exactly chronological
   * comparison with both bounds inclusive.
   */
  lemma InRangeIsInclusive(file: Date, start: Date, end: Date)
    requires Valid(file) && Valid(start) && Valid(end)
    ensures IsDateInRange(MonthFirstText(file), DayFirstText(start), DayFirstText(end))
            <==> Between(start, file, end)
  {
    ParseMonthFirstRoundTrip(file);
    BoundRoundTrip(start);
    BoundRoundTrip(end);
  }

  lemma InRangeAtBounds(file: Date)
    requires Valid(file)
    ensures IsDateInRange(MonthFirstText(file), DayFirstText(file), DayFirstText(file))
  {
    InRangeIsInclusive(file, file, file);
    Order.LexLeReflexive(Key(file));
  }

  /** `datetime.min` precedes every valid date, and only it sorts at or before itself. */
  lemma MinDateIsLeast(d: Date)
    requires Valid(d)
    ensures Order.LexLe(Key(MinDate), Key(d))
    ensures Order.LexLe(Key(d), Key(MinDate)) ==> d == MinDate
  {
    var lo, k := Key(MinDate), Key(d);
    assert lo[1..] == [1, 1] && k[1..] == [d.month, d.day];
    assert lo[1..][1..] == [1] && k[1..][1..] == [d.day];
    assert Order.LexLe([1], [d.day]);
    assert Order.LexLe([1, 1], [d.month, d.day]);
    if Order.LexLe(k, lo) {
      Order.LexLeAntisymmetric(k, lo);
      assert k[0] == lo[0] && k[1] == lo[1] && k[2] == lo[2];
    }
  }
}
