/**
 * The date helpers of the calendar component: the `formatDate` replacement
 * chain and its `yyyy-MM-dd` key, `isSameDay`, the month grid and the
 * quick-navigation offsets.
 */
module CalendarDates {
  import opened Wrappers
  import opened Text
  import opened Dates

  /** `${year}-${pad2(month + 1)}-${pad2(day)}`; the year is written as is, not padded. */
  function DateKey(d: Date): string
    requires Valid(d)
  {
    IntToString(d.year) + ("-" + (Pad2(d.month + 1) + ("-" + Pad2(d.day))))
  }

  /**
   * `r` is the year text `y`, a dash, two digits reading `month`, a dash and
   * two digits reading `day`.
   */
  predicate KeyShape(r: string, y: string, month: nat, day: nat) {
    && |r| == |y| + 6 && r[..|y|] == y && r[|y|] == '-' && r[|y| + 3] == '-'
    && AllDigits(r[|y| + 1..|y| + 3]) && DigitsValue(r[|y| + 1..|y| + 3]) == month
    && AllDigits(r[|y| + 4..]) && DigitsValue(r[|y| + 4..]) == day
  }

  /** The key is the year, then the two-digit 1-based month, then the two-digit day, dash separated. */
  lemma DateKeyParts(d: Date)
    requires Valid(d)
    ensures KeyShape(DateKey(d), IntToString(d.year), d.month + 1, d.day)
  {
    var y, mm, dd := IntToString(d.year), Pad2(d.month + 1), Pad2(d.day);
    assert |mm| == 2 && AllDigits(mm) && DigitsValue(mm) == d.month + 1;
    assert |dd| == 2 && AllDigits(dd) && DigitsValue(dd) == d.day;
    KeySlices(y, mm, dd, DateKey(d));
  }

  lemma KeySlices(y: string, mm: string, dd: string, r: string)
    requires |mm| == 2 && |dd| == 2 && AllDigits(mm) && AllDigits(dd)
    requires r == y + ("-" + (mm + ("-" + dd)))
    ensures KeyShape(r, y, DigitsValue(mm), DigitsValue(dd))
  {
    var t := "-" + (mm + ("-" + dd));
    assert r[|y|..] == t;
    assert t[1..3] == mm && t[4..] == dd;
    assert r[|y| + 1..|y| + 3] == mm && r[|y| + 4..] == dd;
    assert r[..|y|] == y;
  }

  /** The texts a pattern's tokens stand for, taken from one date. */
  datatype Fields = Fields(year: string, month: string, monthName: string, weekday: string, day: string, day2: string)

  function FieldsOf(d: Date): Fields
    requires Valid(d)
  {
    Fields(IntToString(d.year), Pad2(d.month + 1), MonthNames[d.month], WeekdayName(d), IntToString(d.day), Pad2(d.day))
  }

  /** The five first-occurrence replacements, each on the output of the one before. */
  function ReplaceChain(f: Fields, fmt: string): string {
    var s1 := ReplaceFirst(fmt, "MMMM", f.monthName);
    var s2 := ReplaceFirst(s1, "MM", f.month);
    var s3 := ReplaceFirst(s2, "EEEE", f.weekday);
    var s4 := ReplaceFirst(s3, "d", f.day);
    ReplaceFirst(s4, "yyyy", f.year)
  }

  /**
   * `formatDate` as written: the `yyyy-MM-dd` pattern is special-cased; any
   * other pattern goes through the replacement chain.
   */
  function FormatDate(d: Date, fmt: string): string
    requires Valid(d)
  {
    if fmt == "yyyy-MM-dd" then DateKey(d) else ReplaceChain(FieldsOf(d), fmt)
  }

  /** `hasMenu`'s key for day `day` of the displayed month, written out separately in the component. */
  function GridKey(year: int, month: int, day: int): string
    requires 0 <= month < 12 && 0 <= day
  {
    IntToString(year) + ("-" + (Pad2(month + 1) + ("-" + Pad2(day))))
  }

  /** The key `hasMenu` looks up is the key `getMenuForDay` and the menu routes use. */
  lemma GridKeyIsFormatKey(d: Date)
    requires Valid(d)
    ensures GridKey(d.year, d.month, d.day) == FormatDate(d, "yyyy-MM-dd") == DateKey(d)
  {
  }

  /** `isSameDay`: same year, month and day of the month. */
  predicate IsSameDay(a: Date, b: Date) {
    a.year == b.year && a.month == b.month && a.day == b.day
  }

  lemma IntToStringInjective(i: int, j: int)
    requires IntToString(i) == IntToString(j)
    ensures i == j
  {
    var s := IntToString(i);
    if i >= 0 && j >= 0 {
      assert DigitsValue(NatToString(i)) == i && DigitsValue(NatToString(j)) == j;
    } else if i < 0 && j < 0 {
      assert DigitsValue(NatToString(-i)) == -i && DigitsValue(NatToString(-j)) == -j;
    }
  }

  /** Two dates share a `yyyy-MM-dd` key exactly when `isSameDay` holds for them. */
  lemma DateKeySameDay(a: Date, b: Date)
    requires Valid(a) && Valid(b)
    ensures DateKey(a) == DateKey(b) <==> IsSameDay(a, b)
  {
    if DateKey(a) == DateKey(b) {
      DateKeyParts(a);
      DateKeyParts(b);
      assert |IntToString(a.year)| == |IntToString(b.year)|;
      IntToStringInjective(a.year, b.year);
    }
  }

  /** `new Date(year, month, 1).getDay()` */
  function FirstDayOfMonth(year: int, month: int): (w: int)
    requires 0 <= month < 12
    ensures 0 <= w < 7
  {
    Weekday(Date(year, month, 1))
  }

  /** The month grid: `first` leading blanks, then the day numbers 1 .. `daysInMonth`. */
  predicate IsGrid(year: int, month: int, days: seq<Option<int>>)
    requires 0 <= month < 12
  {
    var first := FirstDayOfMonth(year, month);
    && |days| == first + DaysInMonth(year, month)
    && (forall i :: 0 <= i < first ==> days[i] == None)
    && (forall i :: first <= i < |days| ==> days[i] == Some(i - first + 1))
  }

  /** The two `push` loops that lay out the displayed month. */
  method BuildGrid(year: int, month: int) returns (days: seq<Option<int>>)
    requires 0 <= month < 12
    ensures IsGrid(year, month, days)
  {
    var first := FirstDayOfMonth(year, month);
    var daysInMonth := DaysInMonth(year, month);
    days := [];
    var i := 0;
    while i < first
      invariant 0 <= i <= first && |days| == i
      invariant forall j :: 0 <= j < i ==> days[j] == None
    {
      days := days + [None];
      i := i + 1;
    }
    var day := 1;
    while day <= daysInMonth
      invariant 1 <= day <= daysInMonth + 1
      invariant |days| == first + day - 1
      invariant forall j :: 0 <= j < first ==> days[j] == None
      invariant forall j :: first <= j < |days| ==> days[j] == Some(j - first + 1)
    {
      days := days + [Some(day)];
      day := day + 1;
    }
  }

  /**
   * With seven columns headed Sunday .. Saturday, every day number lands in the
   * column of its own weekday.
   */
  lemma GridColumnIsWeekday(year: int, month: int, days: seq<Option<int>>, i: int)
    requires 0 <= month < 12 && IsGrid(year, month, days)
    requires 0 <= i < |days| && days[i].Some?
    ensures 1 <= days[i].value <= DaysInMonth(year, month)
    ensures i % 7 == Weekday(Date(year, month, days[i].value))
  {
    var first := FirstDayOfMonth(year, month);
    WeekdayInMonth(year, month, days[i].value);
  }

  /** The labelled quick-navigation buttons and how many days ahead each goes; any other label means today. */
  function QuickNavOffset(button: string): (n: nat)
    ensures n in {0, 1, 3, 7, 14}
  {
    if button == "Tomorrow" then 1
    else if button == "In 3 days" then 3
    else if button == "In a week" then 7
    else if button == "In 2 weeks" then 14
    else 0
  }

  /** Going `n` days ahead stays put only for n = 0 and moves `n` places along the week. */
  lemma DaysAhead(today: Date, n: nat)
    requires Valid(today)
    ensures var target := AddDays(today, n);
      && (n == 0 <==> target == today)
      && Weekday(target) == (Weekday(today) + n) % 7
      && (n % 7 == 0 ==> Weekday(target) == Weekday(today))
  {
    WeekdayAfter(today, n);
    if n > 0 {
      AddDaysIncreasing(today, 0, n);
    }
    if n % 7 == 0 {
      Dates.ModSeven(Weekday(today), n / 7);
    }
  }

  /**
   * Each quick-navigation button selects today or a later day, and the two
   * week buttons keep the day of the week.
   */
  lemma QuickNavTarget(today: Date, button: string)
    requires Valid(today)
    ensures var target := AddDays(today, QuickNavOffset(button));
      && (QuickNavOffset(button) == 0 <==> target == today)
      && Weekday(target) == (Weekday(today) + QuickNavOffset(button)) % 7
  {
    DaysAhead(today, QuickNavOffset(button));
  }

  // ---- The header pattern -------------------------------------------------

  /** `pat` does not start anywhere before index `i` when its first character is absent there. */
  lemma NotBefore(s: string, pat: string, i: nat)
    requires pat != [] && i <= |s| && pat[0] !in s[..i]
    ensures forall j :: 0 <= j < i ==> !OccursAt(s, pat, j)
  {
  }

  /**
   * When `pat` does not start inside `pre`, the first occurrence in
   * `pre + pat + rest` is the one right after `pre`.
   */
  lemma ReplaceAfter(pre: string, pat: string, rest: string, rep: string)
    requires pat != []
    requires forall j :: 0 <= j < |pre| ==> !OccursAt(pre + pat, pat, j)
    ensures ReplaceFirst(pre + (pat + rest), pat, rep) == pre + (rep + rest)
  {
    var s := pre + (pat + rest);
    var n := |pre| + |pat|;
    assert s[..n] == pre + pat;
    assert s[|pre|..n] == pat;
    forall j | 0 <= j < |pre| ensures !OccursAt(s, pat, j) {
      assert !OccursAt(pre + pat, pat, j);
      assert s[..n][j..j + |pat|] == s[j..j + |pat|];
    }
    assert OccursAt(s, pat, |pre|);
    assert IndexOfFrom(s, pat, 0) == Some(|pre|);
    assert s[..|pre|] == pre && s[n..] == rest;
  }

  lemma ReplaceAfterFree(pre: string, pat: string, rest: string, rep: string)
    requires pat != [] && pat[0] !in pre
    ensures ReplaceFirst(pre + (pat + rest), pat, rep) == pre + (rep + rest)
  {
    assert (pre + pat)[..|pre|] == pre;
    NotBefore(pre + pat, pat, |pre|);
    ReplaceAfter(pre, pat, rest, rep);
  }

  lemma ReplaceNone(s: string, pat: string, rep: string)
    requires pat != [] && pat[0] !in s
    ensures ReplaceFirst(s, pat, rep) == s
  {
    assert s[..|s|] == s;
    NotBefore(s, pat, |s|);
  }

  /** Step one of the chain on the header pattern: the month name goes in. */
  lemma HeaderMonthStep(fmt: string, rest: string, month: string)
    requires fmt == "EEEE, MMMM d, yyyy" && rest == " d, yyyy"
    ensures ReplaceFirst(fmt, "MMMM", month) == "EEEE, " + (month + rest)
  {
    assert fmt == "EEEE, " + ("MMMM" + rest);
    ReplaceAfterFree("EEEE, ", "MMMM", rest, month);
  }

  /** Step three: the weekday name goes in. */
  lemma HeaderWeekdayStep(month: string, rest: string, weekday: string)
    ensures ReplaceFirst("EEEE, " + (month + rest), "EEEE", weekday) == weekday + (", " + (month + rest))
  {
    var s := "EEEE, " + (month + rest);
    assert s == [] + ("EEEE" + (", " + (month + rest)));
    ReplaceAfterFree([], "EEEE", ", " + (month + rest), weekday);
  }

  /** Step four: the first `d` is the one inside "Monday". */
  lemma HeaderDayStep(weekday: string, tail: string, day: string)
    requires weekday == "Monday"
    ensures ReplaceFirst(weekday + tail, "d", day) == "Mon" + (day + ("ay" + tail))
  {
    assert weekday + tail == "Mon" + ("d" + ("ay" + tail));
    ReplaceAfterFree("Mon", "d", "ay" + tail, day);
  }

  /** Step five: the year goes where `yyyy` stands; the `y` of "Monday" starts no occurrence. */
  lemma HeaderYearStep(pre: string, year: string)
    requires pre == "Mon15ay, January d, "
    ensures ReplaceFirst(pre + ("yyyy" + []), "yyyy", year) == pre + (year + [])
  {
    var a, b, c := "Mon15a", ", Januar", " d, ";
    assert pre == a + ("y" + (b + ("y" + c)));
    assert pre + "yyyy" == a + ("y" + (b + ("y" + (c + "yyyy"))));
    NoYearBefore(a, b, c, "yyyy");
    ReplaceAfter(pre, "yyyy", [], year);
  }

  /**
   * No `yyyy` starts inside `a + "y" + b + "y" + c` when none of `a`, `b`, `c`
   * holds a `y` and `b`, `c` are not empty: each `y` there is followed by another character.
   */
  lemma NoYearBefore(a: string, b: string, c: string, rest: string)
    requires 'y' !in a && 'y' !in b && 'y' !in c && b != [] && c != []
    ensures forall j :: 0 <= j < |a| + |b| + |c| + 2 ==> !OccursAt(a + ("y" + (b + ("y" + (c + rest)))), "yyyy", j)
  {
    var s := a + ("y" + (b + ("y" + (c + rest))));
    var nb := |a| + 1;
    var nc := nb + |b| + 1;
    forall j | 0 <= j < nc + |c| ensures !OccursAt(s, "yyyy", j) {
      if j + 4 <= |s| {
        var w := s[j..j + 4];
        if j < |a| {
          assert w[0] == a[j];
        } else if j == |a| {
          assert w[1] == b[0];
        } else if j < nb + |b| {
          assert w[0] == b[j - nb];
        } else if j == nb + |b| {
          assert w[1] == c[0];
        } else {
          assert w[0] == c[j - nc];
        }
      }
    }
  }

  /** The replacement chain on the header pattern, for the fields of a Monday, 15 January 2024. */
  lemma MangledChain(f: Fields, fmt: string)
    requires fmt == "EEEE, MMMM d, yyyy" && f.weekday == "Monday" && f.monthName == "January"
    requires f.day == "15" && f.year == "2024"
    ensures ReplaceChain(f, fmt) == "Mon15ay, January d, " + ("2024" + [])
  {
    var rest := " d, yyyy";
    var s1 := ReplaceFirst(fmt, "MMMM", f.monthName);
    assert s1 == "EEEE, " + (f.monthName + rest) by { HeaderMonthStep(fmt, rest, f.monthName); }
    var s2 := ReplaceFirst(s1, "MM", f.month);
    assert s2 == s1 by { HeaderNoMonthNumber(s1, f.month); }
    var s3 := ReplaceFirst(s2, "EEEE", f.weekday);
    var tail := ", " + (f.monthName + rest);
    assert s3 == f.weekday + tail by { HeaderWeekdayStep(f.monthName, rest, f.weekday); }
    var s4 := ReplaceFirst(s3, "d", f.day);
    assert s4 == "Mon15ay, January d, " + ("yyyy" + []) by {
      HeaderDayStep(f.weekday, tail, f.day);
      HeaderRegroup(f.day, f.monthName, rest);
    }
    HeaderYearStep("Mon15ay, January d, ", f.year);
  }

  /** Step two finds no `MM` once the month name is in. */
  lemma HeaderNoMonthNumber(s1: string, month: string)
    requires s1 == "EEEE, " + ("January" + " d, yyyy")
    ensures ReplaceFirst(s1, "MM", month) == s1
  {
    assert s1 == "EEEE, January d, yyyy";
    ReplaceNone(s1, "MM", month);
  }

  lemma HeaderRegroup(day: string, month: string, rest: string)
    requires day == "15" && month == "January" && rest == " d, yyyy"
    ensures "Mon" + (day + ("ay" + (", " + (month + rest)))) == "Mon15ay, January d, " + ("yyyy" + [])
  {
  }

  /** The fields of 15 January 2024, a Monday. */
  lemma FieldsOfExample(d: Date)
    requires d == Date(2024, 0, 15)
    ensures FieldsOf(d).weekday == "Monday" && FieldsOf(d).monthName == "January"
    ensures FieldsOf(d).day == "15" && FieldsOf(d).year == "2024"
  {
    KnownMonday();
    assert NatToString(1) == "1";
    assert NatToString(2) == "2";
    assert NatToString(20) == "20";
    assert NatToString(202) == "202";
  }

  /**
   * As written, the day replacement hits the `d` of the weekday name, which the
   * weekday replacement has just put first in the text: 15 January 2024 comes
   * out as "Mon15ay, January d, 2024".
   */
  lemma FormatDateMangledHeader(d: Date, fmt: string)
    requires d == Date(2024, 0, 15) && fmt == "EEEE, MMMM d, yyyy"
    ensures FormatDate(d, fmt) == "Mon15ay, January d, 2024"
  {
    var f := FieldsOf(d);
    FieldsOfExample(d);
    assert fmt != "yyyy-MM-dd" by { assert fmt[0] != 'y'; }
    assert FormatDate(d, fmt) == ReplaceChain(f, fmt);
    MangledChain(f, fmt);
    MangledText();
  }

  lemma MangledText()
    ensures "Mon15ay, January d, " + ("2024" + []) == "Mon15ay, January d, 2024"
  {
  }

  predicate StartsWith(s: string, p: string) {
    |p| <= |s| && s[..|p|] == p
  }

  /** The expansion of the token at the head of `fmt` and the number of pattern characters it consumes. */
  function Token(f: Fields, fmt: string): (r: (string, nat))
    requires fmt != []
    ensures 1 <= r.1 <= |fmt|
  {
    if StartsWith(fmt, "yyyy") then (f.year, 4)
    else if StartsWith(fmt, "MMMM") then (f.monthName, 4)
    else if StartsWith(fmt, "EEEE") then (f.weekday, 4)
    else if StartsWith(fmt, "MM") then (f.month, 2)
    else if StartsWith(fmt, "dd") then (f.day2, 2)
    else if fmt[0] == 'd' then (f.day, 1)
    else ([fmt[0]], 1)
  }

  /**
   * The intended formatter: one left-to-right pass over the pattern that
   * expands each token where it stands (longest token first) and copies every
   * other character, so expanded text is never scanned again.
   */
  function FormatTokens(f: Fields, fmt: string): string
    decreases |fmt|
  {
    if fmt == [] then [] else Token(f, fmt).0 + FormatTokens(f, fmt[Token(f, fmt).1..])
  }

  lemma HeadMismatch(s: string, p: string)
    requires s != [] && p != [] && s[0] != p[0]
    ensures !StartsWith(s, p)
  {
    if |p| <= |s| { assert s[..|p|][0] == s[0]; }
  }

  /** A character that starts no token. */
  predicate Plain(c: char) {
    c != 'y' && c != 'M' && c != 'E' && c != 'd'
  }

  /** A character that starts no token is copied as it is. */
  lemma TokenOfLiteral(f: Fields, s: string)
    requires s != [] && Plain(s[0])
    ensures Token(f, s) == ([s[0]], 1)
  {
    HeadMismatch(s, "yyyy");
    HeadMismatch(s, "MMMM");
    HeadMismatch(s, "EEEE");
    HeadMismatch(s, "MM");
    HeadMismatch(s, "dd");
  }

  /** The pass copies one such character and goes on after it. */
  lemma PlainThen(f: Fields, c: char, rest: string)
    requires Plain(c)
    ensures FormatTokens(f, [c] + rest) == [c] + FormatTokens(f, rest)
  {
    var s := [c] + rest;
    TokenOfLiteral(f, s);
    assert s[1..] == rest;
  }

  /** Two characters that start no token are copied, as the separator `, ` is. */
  lemma PairThen(f: Fields, c1: char, c2: char, rest: string)
    requires Plain(c1) && Plain(c2)
    ensures FormatTokens(f, [c1, c2] + rest) == [c1, c2] + FormatTokens(f, rest)
  {
    ConsPair(c1, c2, rest);
    PlainThen(f, c1, [c2] + rest);
    PlainThen(f, c2, rest);
    ConsPair(c1, c2, FormatTokens(f, rest));
  }

  lemma ConsPair(a: char, b: char, s: string)
    ensures [a, b] + s == [a] + ([b] + s)
  {
  }

  /** A four-letter token expands to its text, and the pass goes on after it. */
  lemma WordThen(f: Fields, tok: string, rest: string)
    requires tok == "yyyy" || tok == "MMMM" || tok == "EEEE"
    ensures FormatTokens(f, tok + rest) ==
      (if tok == "yyyy" then f.year else if tok == "MMMM" then f.monthName else f.weekday) + FormatTokens(f, rest)
  {
    var s := tok + rest;
    assert s[..4] == tok && s[4..] == rest;
    if tok != "yyyy" { HeadMismatch(s, "yyyy"); }
    if tok == "EEEE" { HeadMismatch(s, "MMMM"); }
  }

  /** `MM` not followed by another `M` is the two-digit month. */
  lemma MonthThen(f: Fields, rest: string)
    requires rest == [] || rest[0] != 'M'
    ensures FormatTokens(f, "MM" + rest) == f.month + FormatTokens(f, rest)
  {
    var s := "MM" + rest;
    HeadMismatch(s, "yyyy");
    HeadMismatch(s, "EEEE");
    if |s| >= 4 { assert s[..4][2] == s[2] == rest[0]; }
    assert s[..2] == "MM" && s[2..] == rest;
  }

  /** `dd` is the two-digit day. */
  lemma DayPairThen(f: Fields, rest: string)
    ensures FormatTokens(f, "dd" + rest) == f.day2 + FormatTokens(f, rest)
  {
    var s := "dd" + rest;
    HeadMismatch(s, "yyyy");
    HeadMismatch(s, "MMMM");
    HeadMismatch(s, "EEEE");
    HeadMismatch(s, "MM");
    assert s[..2] == "dd" && s[2..] == rest;
  }

  /** `d` not followed by another `d` is the day without padding. */
  lemma DayThen(f: Fields, rest: string)
    requires rest == [] || rest[0] != 'd'
    ensures FormatTokens(f, "d" + rest) == f.day + FormatTokens(f, rest)
  {
    var s := "d" + rest;
    HeadMismatch(s, "yyyy");
    HeadMismatch(s, "MMMM");
    HeadMismatch(s, "EEEE");
    HeadMismatch(s, "MM");
    if |s| >= 2 { assert s[..2][1] == s[1] == rest[0]; }
    assert s[1..] == rest;
  }

  lemma HeaderTokens(f: Fields, fmt: string)
    requires fmt == "EEEE, MMMM d, yyyy"
    ensures FormatTokens(f, fmt) == f.weekday + (", " + (f.monthName + (" " + (f.day + (", " + f.year)))))
  {
    var p2 := " " + ("d" + (", " + ("yyyy" + [])));
    assert fmt == "EEEE" + (", " + ("MMMM" + p2));
    HeaderHead(f, p2);
    HeaderTail(f);
  }

  /** The weekday and month name at the head of the header pattern. */
  lemma HeaderHead(f: Fields, p2: string)
    ensures FormatTokens(f, "EEEE" + (", " + ("MMMM" + p2))) == f.weekday + (", " + (f.monthName + FormatTokens(f, p2)))
  {
    WordThen(f, "EEEE", ", " + ("MMMM" + p2));
    PairThen(f, ',', ' ', "MMMM" + p2);
    WordThen(f, "MMMM", p2);
  }

  /** The day and year at the tail of the header pattern. */
  lemma HeaderTail(f: Fields)
    ensures FormatTokens(f, " " + ("d" + (", " + ("yyyy" + [])))) == " " + (f.day + (", " + f.year))
  {
    var p4 := ", " + ("yyyy" + []);
    PlainThen(f, ' ', "d" + p4);
    DayThen(f, p4);
    PairThen(f, ',', ' ', "yyyy" + []);
    WordThen(f, "yyyy", []);
    assert f.year + [] == f.year;
  }

  /** The header of the selected day reads weekday, month name, day and year. */
  lemma FormatTokensHeader(d: Date, fmt: string)
    requires Valid(d) && fmt == "EEEE, MMMM d, yyyy"
    ensures FormatTokens(FieldsOf(d), fmt) ==
      WeekdayName(d) + (", " + (MonthNames[d.month] + (" " + (IntToString(d.day) + (", " + IntToString(d.year))))))
  {
    HeaderTokens(FieldsOf(d), fmt);
  }

  /** The month heading reads month name and year. */
  lemma FormatTokensMonthHeading(d: Date, fmt: string)
    requires Valid(d) && fmt == "MMMM yyyy"
    ensures FormatTokens(FieldsOf(d), fmt) == MonthNames[d.month] + (" " + IntToString(d.year))
  {
    var f := FieldsOf(d);
    var p2: string := [];
    var p1 := "yyyy" + p2;
    var p0 := " " + p1;
    assert fmt == "MMMM" + p0;
    WordThen(f, "MMMM", p0);
    PlainThen(f, ' ', p1);
    WordThen(f, "yyyy", p2);
    assert f.year + [] == f.year;
  }

  /** On the key pattern the single pass gives the special-cased key. */
  lemma FormatTokensKey(d: Date, fmt: string)
    requires Valid(d) && fmt == "yyyy-MM-dd"
    ensures FormatTokens(FieldsOf(d), fmt) == DateKey(d)
  {
    KeyTokens(FieldsOf(d), fmt);
  }

  /** The key pattern expands token by token. */
  lemma KeyTokens(f: Fields, fmt: string)
    requires fmt == "yyyy-MM-dd"
    ensures FormatTokens(f, fmt) == f.year + ("-" + (f.month + ("-" + f.day2)))
  {
    var p2 := "-" + ("dd" + []);
    assert fmt == "yyyy" + ("-" + ("MM" + p2));
    WordThen(f, "yyyy", "-" + ("MM" + p2));
    PlainThen(f, '-', "MM" + p2);
    KeyTail(f, p2);
  }

  lemma KeyTail(f: Fields, p2: string)
    requires p2 == "-" + ("dd" + [])
    ensures FormatTokens(f, "MM" + p2) == f.month + ("-" + f.day2)
  {
    MonthThen(f, p2);
    PlainThen(f, '-', "dd" + []);
    DayPairThen(f, []);
    assert f.day2 + [] == f.day2;
  }
}
