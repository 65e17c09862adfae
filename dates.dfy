/** Calendar dates as the bot reads and writes them: the `%d.%m.%Y` format
    of datetime.strptime and strftime, and the `\d{2}\.\d{2}\.\d{4}` search
    that files an announcement under its date (bot.py:554, 640-646,
    1146-1150). The clock is not modelled: "today" is a parameter. */
module Dates {
  import opened Text

  datatype Date = Date(year: int, month: int, day: int)

  predicate IsLeap(y: int)
  {
    y % 4 == 0 && (y % 100 != 0 || y % 400 == 0)
  }

  function DaysInMonth(y: int, m: int): int
    requires 1 <= m <= 12
  {
    if m == 2 then (if IsLeap(y) then 29 else 28)
    else if m == 4 || m == 6 || m == 9 || m == 11 then 30
    else 31
  }

  /** A date Python's datetime.date accepts: years 1 to 9999 and a day that
      exists in its month. */
  predicate ValidDate(d: Date)
  {
    1 <= d.year <= 9999 && 1 <= d.month <= 12 && 1 <= d.day <= DaysInMonth(d.year, d.month)
  }

  /** a < b on datetime.date. */
  predicate Before(a: Date, b: Date)
  {
    a.year < b.year
    || (a.year == b.year && a.month < b.month)
    || (a.year == b.year && a.month == b.month && a.day < b.day)
  }

  /** Before is a strict total order. */
  lemma BeforeOrder(a: Date, b: Date, c: Date)
    ensures !Before(a, a)
    ensures Before(a, b) && Before(b, c) ==> Before(a, c)
    ensures a != b ==> Before(a, b) || Before(b, a)
    ensures !(Before(a, b) && Before(b, a))
  {
  }

  // ---------------------------------------------------------------------------
  // strptime(s, '%d.%m.%Y')

  function DigitValue(c: char): int
  {
    c as int - '0' as int
  }

  /** The value of a field of one or two ASCII digits, or of a space and a
      digit. */
  function SmallField(f: string): int
    requires 1 <= |f| <= 2
  {
    if |f| == 1 then DigitValue(f[0])
    else if f[0] == ' ' then DigitValue(f[1])
    else 10 * DigitValue(f[0]) + DigitValue(f[1])
  }

  /** The texts strptime's %d and %m accept: one or two digits with a value
      from 1 to max; %d (spaced) also takes a space and a non-zero digit,
      which %m does not. */
  predicate SmallFieldOk(f: string, max: int, spaced: bool)
  {
    && 1 <= |f| <= 2
    && IsDigit(f[|f| - 1])
    && (|f| == 2 ==> IsDigit(f[0]) || (spaced && f[0] == ' ' && f[1] != '0'))
    && 1 <= SmallField(f) <= max
  }

  /** strptime's %Y: exactly four ASCII digits. */
  predicate YearFieldOk(f: string)
  {
    |f| == 4 && AllDigits(f)
  }

  function YearField(f: string): int
    requires |f| == 4
  {
    1000 * DigitValue(f[0]) + 100 * DigitValue(f[1]) + 10 * DigitValue(f[2]) + DigitValue(f[3])
  }

  /** datetime.strptime(s, '%d.%m.%Y').date(): the day, the month and the
      year separated by single dots, and a date that exists; None where
      strptime raises ValueError. */
  function Strptime(s: string): (r: Option<Date>)
    ensures r.Some? ==> ValidDate(r.value)
  {
    var parts := Split(s, '.');
    if |parts| != 3 || !SmallFieldOk(parts[0], 31, true) || !SmallFieldOk(parts[1], 12, false) || !YearFieldOk(parts[2])
    then None
    else
      var d := Date(YearField(parts[2]), SmallField(parts[1]), SmallField(parts[0]));
      if ValidDate(d) then Some(d) else None
  }

  // ---------------------------------------------------------------------------
  // strftime('%d.%m.%Y')

  function Pad2(n: int): (s: string)
    requires 0 <= n < 100
    ensures |s| == 2 && AllDigits(s)
  {
    [DigitChar(n / 10), DigitChar(n % 10)]
  }

  function Pad4(n: int): (s: string)
    requires 0 <= n < 10000
    ensures |s| == 4 && AllDigits(s)
  {
    [DigitChar(n / 1000), DigitChar(n / 100 % 10), DigitChar(n / 10 % 10), DigitChar(n % 10)]
  }

  /** d.strftime('%d.%m.%Y'): two-digit day and month, four-digit year. */
  function FormatDate(d: Date): (s: string)
    requires ValidDate(d)
    ensures |s| == 10
  {
    Pad2(d.day) + "." + Pad2(d.month) + "." + Pad4(d.year)
  }

  // ---------------------------------------------------------------------------
  // The store key: re.search(r'(\d{2}\.\d{2}\.\d{4})', text)

  /** The ten characters of s from i have the shape dd.dd.dddd. */
  predicate KeyAt(s: string, i: nat)
  {
    && i + 10 <= |s|
    && IsDigit(s[i]) && IsDigit(s[i + 1]) && s[i + 2] == '.'
    && IsDigit(s[i + 3]) && IsDigit(s[i + 4]) && s[i + 5] == '.'
    && IsDigit(s[i + 6]) && IsDigit(s[i + 7]) && IsDigit(s[i + 8]) && IsDigit(s[i + 9])
  }

  /** A string of exactly that shape. */
  predicate KeyShaped(k: string)
  {
    KeyAt(k, 0) && |k| == 10
  }

  /** The first position from i where the shape occurs. */
  function FirstKeyFrom(s: string, i: nat): (r: Option<nat>)
    requires i <= |s|
    ensures r.Some? ==> i <= r.value && KeyAt(s, r.value)
    ensures r.Some? ==> forall j :: i <= j < r.value ==> !KeyAt(s, j)
    ensures r.None? ==> forall j :: i <= j ==> !KeyAt(s, j)
    decreases |s| - i
  {
    if i + 10 > |s| then None
    else if KeyAt(s, i) then Some(i)
    else FirstKeyFrom(s, i + 1)
  }

  /** The leftmost match of the key pattern in a text, if any. */
  function FindDateKey(text: string): (r: Option<string>)
    ensures r.Some? ==> KeyShaped(r.value)
  {
    match FirstKeyFrom(text, 0)
    case None => None
    case Some(i) => Some(text[i..i + 10])
  }

  /** The key found is the leftmost dd.dd.dddd in the text, and there is
      none exactly when no position has that shape. */
  lemma FindDateKeyLeftmost(text: string)
    ensures FindDateKey(text).None? <==> forall j :: 0 <= j ==> !KeyAt(text, j)
    ensures FindDateKey(text).Some? ==> exists i: nat :: && KeyAt(text, i) && text[i..i + 10] == FindDateKey(text).value
                                                         && (forall j :: 0 <= j < i ==> !KeyAt(text, j))
  {
    match FirstKeyFrom(text, 0)
    case None =>
    case Some(i) =>
      assert KeyAt(text, i) && text[i..i + 10] == FindDateKey(text).value;
  }

  /** A text that is a key is found as itself. */
  lemma FindDateKeyOfKey(k: string)
    requires KeyShaped(k)
    ensures FindDateKey(k) == Some(k)
  {
    assert k[0..10] == k;
  }

  // ---------------------------------------------------------------------------
  // Round trips

  lemma Pad2Digits(n: int)
    requires 0 <= n < 100
    ensures SmallField(Pad2(n)) == n
    ensures 1 <= n ==> SmallFieldOk(Pad2(n), n, false) && SmallFieldOk(Pad2(n), n, true)
  {
  }

  lemma Pad4Digits(n: int)
    requires 0 <= n < 10000
    ensures YearFieldOk(Pad4(n)) && YearField(Pad4(n)) == n
  {
    var q1, r1 := n / 10, n % 10;
    var q2, r2 := q1 / 10, q1 % 10;
    var q3, r3 := q2 / 10, q2 % 10;
    assert n / 100 == q2 && n / 1000 == q3;
    var p := Pad4(n);
    assert DigitValue(p[0]) == q3 && DigitValue(p[1]) == r3 && DigitValue(p[2]) == r2 && DigitValue(p[3]) == r1;
  }

  /** The formatted date splits into its three fields. */
  lemma FormatDateParts(d: Date)
    requires ValidDate(d)
    ensures Split(FormatDate(d), '.') == [Pad2(d.day), Pad2(d.month), Pad4(d.year)]
  {
    var parts := [Pad2(d.day), Pad2(d.month), Pad4(d.year)];
    JoinThree(parts);
    SplitJoin(parts, '.');
  }

  /** strptime reads back what strftime writes. */
  lemma StrptimeFormat(d: Date)
    requires ValidDate(d)
    ensures Strptime(FormatDate(d)) == Some(d)
  {
    FormatDateParts(d);
    Pad2Digits(d.day);
    Pad2Digits(d.month);
    Pad4Digits(d.year);
  }

  /** A key splits at its two dots into its three fields. */
  lemma KeyParts(k: string)
    requires KeyShaped(k)
    ensures Split(k, '.') == [k[..2], k[3..5], k[6..]]
  {
    var parts := [k[..2], k[3..5], k[6..]];
    JoinThree(parts);
    assert k == k[..2] + "." + k[3..5] + "." + k[6..];
    SplitJoin(parts, '.');
  }

  /** Two digits are the padding of their value. */
  lemma Pad2Of(f: string)
    requires |f| == 2 && AllDigits(f)
    ensures Pad2(SmallField(f)) == f
  {
    var a, b := DigitValue(f[0]), DigitValue(f[1]);
    assert (10 * a + b) / 10 == a && (10 * a + b) % 10 == b;
  }

  /** Four digits are the padding of their value. */
  lemma Pad4Of(f: string)
    requires YearFieldOk(f)
    ensures Pad4(YearField(f)) == f
  {
    var a, b, c, d := DigitValue(f[0]), DigitValue(f[1]), DigitValue(f[2]), DigitValue(f[3]);
    var n := YearField(f);
    assert n / 10 == 100 * a + 10 * b + c && n % 10 == d;
    assert n / 100 == 10 * a + b && n / 10 % 10 == c;
    assert n / 1000 == a && n / 100 % 10 == b;
  }

  /** A key-shaped text that is a date is the formatting of that date: for
      store keys, parsing and formatting are inverse. */
  lemma FormatStrptime(k: string)
    requires KeyShaped(k) && Strptime(k).Some?
    ensures FormatDate(Strptime(k).value) == k
  {
    KeyParts(k);
    var d := Strptime(k).value;
    Pad2Of(k[..2]);
    Pad2Of(k[3..5]);
    Pad4Of(k[6..]);
    assert k == k[..2] + "." + k[3..5] + "." + k[6..];
  }

  /** Two dates with the same key are the same date. */
  lemma FormatDateInjective(a: Date, b: Date)
    requires ValidDate(a) && ValidDate(b) && FormatDate(a) == FormatDate(b)
    ensures a == b
  {
    StrptimeFormat(a);
    StrptimeFormat(b);
  }

  lemma ShortFormParts()
    ensures Split("1.2.2026", '.') == ["1", "2", "2026"]
  {
    var parts := ["1", "2", "2026"];
    JoinThree(parts);
    assert "1.2.2026" == JoinWith(parts, '.');
    SplitJoin(parts, '.');
  }

  /** strptime also accepts one-digit days and months, which strftime never
      writes: "1.2.2026" is the date whose key is "01.02.2026". */
  lemma ShortFormAccepted()
    ensures Strptime("1.2.2026") == Some(Date(2026, 2, 1))
    ensures FormatDate(Date(2026, 2, 1)) == "01.02.2026"
  {
    ShortFormParts();
    ShortFormFields();
    StrptimeOfFields("1.2.2026", "1", "2", "2026");
    ShortFormKey();
  }

  lemma ShortFormFields()
    ensures SmallFieldOk("1", 31, true) && SmallField("1") == 1
    ensures SmallFieldOk("2", 12, false) && SmallField("2") == 2
    ensures YearFieldOk("2026") && YearField("2026") == 2026
  {
  }

  lemma ShortFormKey()
    ensures FormatDate(Date(2026, 2, 1)) == "01.02.2026"
  {
    assert Pad2(1) == "01" && Pad2(2) == "02";
    assert Pad4(2026) == "2026";
  }

  /** A space before the day is accepted, as %d allows. */
  lemma SpacedDayAccepted()
    ensures Strptime(" 1.02.2026") == Some(Date(2026, 2, 1))
  {
    SpacedDayParts();
    SpacedDayFields();
    ParsesTo(" 1.02.2026", " 1", "02", "2026", Date(2026, 2, 1));
  }

  /** A text whose accepted fields give the valid date d reads as d. */
  lemma ParsesTo(s: string, a: string, b: string, c: string, d: Date)
    requires Split(s, '.') == [a, b, c]
    requires SmallFieldOk(a, 31, true) && SmallFieldOk(b, 12, false) && YearFieldOk(c)
    requires Date(YearField(c), SmallField(b), SmallField(a)) == d && ValidDate(d)
    ensures Strptime(s) == Some(d)
  {
    StrptimeOfFields(s, a, b, c);
  }

  /** A space before the month is refused: %m has no such form. */
  lemma SpacedMonthRefused()
    ensures Strptime("01. 2.2026").None?
  {
    SpacedMonthParts();
    assert !SmallFieldOk(" 2", 12, false);
    MonthRefused("01. 2.2026", "01", " 2", "2026");
  }

  /** A text whose month field %m refuses does not parse. */
  lemma MonthRefused(s: string, a: string, b: string, c: string)
    requires Split(s, '.') == [a, b, c] && !SmallFieldOk(b, 12, false)
    ensures Strptime(s).None?
  {
  }


  lemma SpacedDayParts()
    ensures Split(" 1.02.2026", '.') == [" 1", "02", "2026"]
  {
    var parts := [" 1", "02", "2026"];
    JoinThree(parts);
    assert " 1.02.2026" == JoinWith(parts, '.');
    SplitJoin(parts, '.');
  }

  lemma SpacedMonthParts()
    ensures Split("01. 2.2026", '.') == ["01", " 2", "2026"]
  {
    var parts := ["01", " 2", "2026"];
    JoinThree(parts);
    assert "01. 2.2026" == JoinWith(parts, '.');
    SplitJoin(parts, '.');
  }

  lemma SpacedDayFields()
    ensures SmallFieldOk(" 1", 31, true) && SmallFieldOk("02", 12, false) && YearFieldOk("2026")
    ensures Date(YearField("2026"), SmallField("02"), SmallField(" 1")) == Date(2026, 2, 1)
    ensures ValidDate(Date(2026, 2, 1))
  {
  }

  /** A text whose three dot-separated fields are accepted reads as the
      date they give. */
  lemma StrptimeOfFields(s: string, a: string, b: string, c: string)
    requires Split(s, '.') == [a, b, c]
    requires SmallFieldOk(a, 31, true) && SmallFieldOk(b, 12, false) && YearFieldOk(c)
    requires ValidDate(Date(YearField(c), SmallField(b), SmallField(a)))
    ensures Strptime(s) == Some(Date(YearField(c), SmallField(b), SmallField(a)))
  {
  }

  lemma JoinThree(parts: seq<string>)
    requires |parts| == 3
    ensures JoinWith(parts, '.') == parts[0] + "." + parts[1] + "." + parts[2]
  {
    assert parts[1..][1..] == [parts[2]];
    assert JoinWith(parts[1..], '.') == parts[1] + "." + parts[2];
  }
}
