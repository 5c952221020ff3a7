/**
 * Snapshot names: `%Y-%m-%d_%H-%M-%S` of a UTC instant, the pattern that
 * accepts them, their timestamps, and the newest-first listing
 * (crates/backr-core/src/backup/ssh.rs, crates/backrd/src/ipc/handlers.rs,
 * crates/backr-core/src/project_snapshot_cache.rs).
 */
module Snapshots {
  import opened Wrappers
  import opened Text
  import opened Calendar
  import FindRecords

  // ------------------------------------------------------------------
  // Order of strings
  // ------------------------------------------------------------------

  /** Lexicographic order by code point. */
  predicate Less(a: string, b: string)
    decreases |a|
  {
    if b == "" then false
    else if a == "" then true
    else if a[0] != b[0] then a[0] < b[0]
    else Less(a[1..], b[1..])
  }

  lemma {:induction false} LessIsStrict(a: string, b: string, c: string)
    ensures !Less(a, a)
    ensures Less(a, b) && Less(b, c) ==> Less(a, c)
    ensures Less(a, b) || Less(b, a) || a == b
    decreases |a|
  {
    if a != "" {
      LessIsStrict(a[1..], if b == "" then "" else b[1..], if c == "" then "" else c[1..]);
      assert a == [a[0]] + a[1..];
      assert b != "" ==> b == [b[0]] + b[1..];
    }
  }

  // ------------------------------------------------------------------
  // Printing
  // ------------------------------------------------------------------

  function Power10(width: nat): nat {
    if width == 0 then 1 else 10 * Power10(width - 1)
  }

  /** The last `width` decimal digits of `n`. */
  function Pad(n: nat, width: nat): (s: string)
    ensures |s| == width && AllDigits(s)
  {
    if width == 0 then "" else Pad(n / 10, width - 1) + [DigitChar(n % 10)]
  }

  /** `%Y`: four digits, or a sign and more digits after the year 9999. */
  function PrintYear(year: nat): string {
    if year <= 9999 then Pad(year, 4) else "+" + PrintNat(year)
  }

  /** The items of the format `%Y-%m-%d_%H-%M-%S` and what stands after each. */
  function Item(c: Civil, i: nat): string
    requires i < 6
  {
    match i
    case 0 => PrintYear(c.year)
    case 1 => Pad(c.month, 2)
    case 2 => Pad(c.day, 2)
    case 3 => Pad(c.hour, 2)
    case 4 => Pad(c.minute, 2)
    case 5 => Pad(c.second, 2)
  }

  function Separator(i: nat): string {
    if i == 2 then "_" else if i == 5 then "" else "-"
  }

  function PrintItems(c: Civil, i: nat): string
    requires i <= 6
    decreases 6 - i, c, 1
  {
    if i == 6 then "" else PrintFrom(c, i)
  }

  function PrintFrom(c: Civil, i: nat): string
    requires i < 6
    decreases 6 - i, c, 0
  {
    Item(c, i) + Separator(i) + PrintItems(c, i + 1)
  }

  function PrintCivil(c: Civil): string {
    PrintItems(c, 0)
  }

  /** The items one after the other. */
  lemma PrintedInFull(c: Civil)
    ensures PrintCivil(c) == PrintYear(c.year) + "-" + (Pad(c.month, 2) + "-" + (Pad(c.day, 2) + "_"
      + (Pad(c.hour, 2) + "-" + (Pad(c.minute, 2) + "-" + Pad(c.second, 2)))))
  {
    assert PrintFrom(c, 5) == Pad(c.second, 2);
    assert PrintFrom(c, 4) == Pad(c.minute, 2) + "-" + PrintFrom(c, 5);
    assert PrintFrom(c, 3) == Pad(c.hour, 2) + "-" + PrintFrom(c, 4);
    assert PrintFrom(c, 2) == Pad(c.day, 2) + "_" + PrintFrom(c, 3);
    assert PrintFrom(c, 1) == Pad(c.month, 2) + "-" + PrintFrom(c, 2);
    assert PrintFrom(c, 0) == PrintYear(c.year) + "-" + PrintFrom(c, 1);
  }

  /** The name a backup run started at instant `t` gives to its snapshots. */
  function SnapshotName(t: nat): string {
    PrintCivil(CivilOf(t))
  }

  ghost predicate InRange(t: nat) {
    t < DaysBeforeYear(10000) * DAY
  }

  lemma InRangeIsFourDigitYear(t: nat)
    ensures InRange(t) <==> CivilOf(t).year <= 9999
  {
    var c := CivilOf(t);
    CivilOfInstant(t);
    var start := Civil(10000, 1, 1, 0, 0, 0);
    assert Seconds(start) == DaysBeforeYear(10000) * DAY;
    CalendarOrder(c, start);
  }

  // ------------------------------------------------------------------
  // The pattern
  // ------------------------------------------------------------------

  /**
   * `^\d{4}-\d{2}-\d{2}_\d{2}-\d{2}-\d{2}$`, where `digit` is what `\d` stands
   * for: in a Unicode pattern that is every decimal digit, not only 0 to 9.
   */
  predicate IsValidSnapshotName(digit: char -> bool, name: string) {
    && |name| == 19
    && name[4] == '-' && name[7] == '-' && name[10] == '_' && name[13] == '-' && name[16] == '-'
    && forall i :: 0 <= i < 19 && i !in {4, 7, 10, 13, 16} ==> digit(name[i])
  }

  ghost predicate IsDigitClass(digit: char -> bool) {
    (forall c :: IsDigit(c) ==> digit(c)) && !digit('+') && !digit('-')
  }

  lemma FieldsOf(year: string, month: string, day: string, hour: string, minute: string, second: string)
    requires |year| == 4 && |month| == |day| == |hour| == |minute| == |second| == 2
    ensures var s := year + "-" + (month + "-" + (day + "_" + (hour + "-" + (minute + "-" + second))));
      && |s| == 19
      && s[4] == '-' && s[7] == '-' && s[10] == '_' && s[13] == '-' && s[16] == '-'
      && s[0..4] == year && s[5..7] == month && s[8..10] == day
      && s[11..13] == hour && s[14..16] == minute && s[17..19] == second
  {
  }

  lemma FieldsOfName(c: Civil)
    requires c.year <= 9999
    ensures var s := PrintCivil(c);
      && |s| == 19
      && s[4] == '-' && s[7] == '-' && s[10] == '_' && s[13] == '-' && s[16] == '-'
      && s[0..4] == Pad(c.year, 4) && s[5..7] == Pad(c.month, 2) && s[8..10] == Pad(c.day, 2)
      && s[11..13] == Pad(c.hour, 2) && s[14..16] == Pad(c.minute, 2) && s[17..19] == Pad(c.second, 2)
  {
    PrintedInFull(c);
    FieldsOf(PrintYear(c.year), Pad(c.month, 2), Pad(c.day, 2), Pad(c.hour, 2), Pad(c.minute, 2), Pad(c.second, 2));
  }

  lemma PrintedIsValid(digit: char -> bool, c: Civil)
    requires IsDigitClass(digit) && c.year <= 9999
    ensures IsValidSnapshotName(digit, PrintCivil(c))
  {
    var s := PrintCivil(c);
    FieldsOfName(c);
    forall i | 0 <= i < 19 && i !in {4, 7, 10, 13, 16} ensures digit(s[i]) {
      var start := if i < 4 then 0 else if i < 7 then 5 else if i < 10 then 8
                   else if i < 13 then 11 else if i < 16 then 14 else 17;
      assert s[i] == s[start..if start == 0 then 4 else start + 2][i - start];
      assert IsDigit(s[i]);
    }
  }

  /** The name of an instant is accepted exactly up to the end of the year 9999. */
  lemma NameIsValidIff(digit: char -> bool, t: nat)
    requires IsDigitClass(digit)
    ensures IsValidSnapshotName(digit, SnapshotName(t)) <==> InRange(t)
  {
    var c := CivilOf(t);
    InRangeIsFourDigitYear(t);
    if c.year <= 9999 {
      PrintedIsValid(digit, c);
    } else {
      PrintedInFull(c);
      assert PrintYear(c.year)[0] == '+' && PrintCivil(c)[0] == PrintYear(c.year)[0];
    }
  }

  // ------------------------------------------------------------------
  // Names sort as instants do
  // ------------------------------------------------------------------

  lemma {:induction false} PadOrder(m: nat, n: nat, width: nat, x: string, y: string)
    requires m < Power10(width) && n < Power10(width)
    ensures Less(Pad(m, width) + x, Pad(n, width) + y) <==> m < n || (m == n && Less(x, y))
  {
    if width == 0 {
      assert "" + x == x && "" + y == y;
    } else {
      var d, e := [DigitChar(m % 10)], [DigitChar(n % 10)];
      assert Pad(m, width) + x == Pad(m / 10, width - 1) + (d + x);
      assert Pad(n, width) + y == Pad(n / 10, width - 1) + (e + y);
      PadOrder(m / 10, n / 10, width - 1, d + x, e + y);
      assert (d + x)[1..] == x && (e + y)[1..] == y;
      assert DigitValue(d[0]) == m % 10 && DigitValue(e[0]) == n % 10;
    }
  }

  lemma CommonPrefix(c: char, x: string, y: string)
    ensures Less([c] + x, [c] + y) <==> Less(x, y)
  {
    assert ([c] + x)[1..] == x && ([c] + y)[1..] == y;
  }

  lemma FieldOrder(m: nat, n: nat, sep: char, x: string, y: string)
    requires m < 100 && n < 100
    ensures Less(Pad(m, 2) + [sep] + x, Pad(n, 2) + [sep] + y) <==> m < n || (m == n && Less(x, y))
  {
    assert Power10(2) == 100;
    assert Pad(m, 2) + [sep] + x == Pad(m, 2) + ([sep] + x);
    assert Pad(n, 2) + [sep] + y == Pad(n, 2) + ([sep] + y);
    PadOrder(m, n, 2, [sep] + x, [sep] + y);
    CommonPrefix(sep, x, y);
  }

  function Clock(c: Civil): string {
    Pad(c.hour, 2) + "-" + (Pad(c.minute, 2) + "-" + Pad(c.second, 2))
  }

  function DayAndClock(c: Civil): string {
    Pad(c.month, 2) + "-" + (Pad(c.day, 2) + "_" + Clock(c))
  }

  lemma ClockOrder(a: Civil, b: Civil)
    requires ValidCivil(a) && ValidCivil(b)
    ensures Less(Clock(a), Clock(b)) <==> ClockBefore(a, b)
  {
    var x, y := Pad(a.second, 2), Pad(b.second, 2);
    assert Power10(2) == 100;
    PadOrder(a.second, b.second, 2, "", "");
    assert x + "" == x && y + "" == y;
    FieldOrder(a.minute, b.minute, '-', x, y);
    FieldOrder(a.hour, b.hour, '-', Pad(a.minute, 2) + "-" + x, Pad(b.minute, 2) + "-" + y);
  }

  predicate ClockBefore(a: Civil, b: Civil) {
    || a.hour < b.hour
    || (a.hour == b.hour && (
        || a.minute < b.minute
        || (a.minute == b.minute && a.second < b.second)))
  }

  lemma DayOrder(a: Civil, b: Civil)
    requires ValidCivil(a) && ValidCivil(b)
    ensures Less(DayAndClock(a), DayAndClock(b)) <==>
      || a.month < b.month
      || (a.month == b.month && (
          || a.day < b.day
          || (a.day == b.day && ClockBefore(a, b))))
  {
    var x, y := Clock(a), Clock(b);
    ClockOrder(a, b);
    FieldOrder(a.day, b.day, '_', x, y);
    var u, v := Pad(a.day, 2) + "_" + x, Pad(b.day, 2) + "_" + y;
    FieldOrder(a.month, b.month, '-', u, v);
    assert DayAndClock(a) == Pad(a.month, 2) + "-" + u && DayAndClock(b) == Pad(b.month, 2) + "-" + v;
  }

  lemma YearOrder(m: nat, n: nat, x: string, y: string)
    requires m <= 9999 && n <= 9999
    ensures Less(Pad(m, 4) + ("-" + x), Pad(n, 4) + ("-" + y)) <==> m < n || (m == n && Less(x, y))
  {
    assert Power10(4) == 10000;
    PadOrder(m, n, 4, "-" + x, "-" + y);
    CommonPrefix('-', x, y);
  }

  lemma PrintedParts(c: Civil)
    requires c.year <= 9999
    ensures PrintCivil(c) == Pad(c.year, 4) + ("-" + DayAndClock(c))
  {
    PrintedInFull(c);
  }

  lemma PrintedOrder(a: Civil, b: Civil)
    requires ValidCivil(a) && ValidCivil(b) && a.year <= 9999 && b.year <= 9999
    ensures Less(PrintCivil(a), PrintCivil(b)) <==> Before(a, b)
  {
    PrintedParts(a);
    PrintedParts(b);
    YearOrder(a.year, b.year, DayAndClock(a), DayAndClock(b));
    DayOrder(a, b);
  }

  /** Order isomorphism: earlier instants have lexicographically smaller names. */
  lemma NameOrder(t: nat, u: nat)
    requires InRange(t) && InRange(u)
    ensures t < u <==> Less(SnapshotName(t), SnapshotName(u))
    ensures t == u <==> SnapshotName(t) == SnapshotName(u)
  {
    CivilOfInstant(t);
    CivilOfInstant(u);
    InRangeIsFourDigitYear(t);
    InRangeIsFourDigitYear(u);
    PrintedOrder(CivilOf(t), CivilOf(u));
    PrintedOrder(CivilOf(u), CivilOf(t));
    CalendarOrder(CivilOf(t), CivilOf(u));
    CalendarOrder(CivilOf(u), CivilOf(t));
    LessIsStrict(SnapshotName(t), SnapshotName(u), "");
  }

  // ------------------------------------------------------------------
  // Parsing a name back
  // ------------------------------------------------------------------

  /** A leap second is kept as the second before it, marked. */
  datatype Instant = Instant(seconds: nat, leap: bool)

  function Field(name: string, start: nat, end: nat): nat
    requires start <= end <= |name| && AllDigits(name[start..end])
  {
    DecimalValue(name[start..end])
  }

  /**
   * `parse_snapshot_timestamp` on a name of the accepted layout; digits other
   * than 0 to 9 are not read, and a second of 60 is a leap second.
   */
  function ParseTimestamp(name: string): Option<Instant> {
    if !IsValidSnapshotName(IsDigit, name) then None
    else
      var c := Civil(Field(name, 0, 4), Field(name, 5, 7), Field(name, 8, 10),
                     Field(name, 11, 13), Field(name, 14, 16), Field(name, 17, 19));
      if ValidCivil(c) then Some(Instant(Seconds(c), false))
      else if c.second == 60 && ValidCivil(c.(second := 59)) then Some(Instant(Seconds(c.(second := 59)), true))
      else None
  }

  lemma {:induction false} PadValue(n: nat, width: nat)
    requires n < Power10(width)
    ensures DecimalValue(Pad(n, width)) == n
  {
    if width > 0 {
      PadValue(n / 10, width - 1);
      assert Pad(n, width)[..width - 1] == Pad(n / 10, width - 1);
    }
  }

  lemma TwoDigits(n: nat)
    requires n < 100
    ensures DecimalValue(Pad(n, 2)) == n
  {
    assert Power10(2) == 100;
    PadValue(n, 2);
  }

  lemma FieldValues(c: Civil)
    requires ValidCivil(c) && c.year <= 9999
    ensures var s := PrintCivil(c);
      && IsValidSnapshotName(IsDigit, s)
      && AllDigits(s[0..4]) && AllDigits(s[5..7]) && AllDigits(s[8..10])
      && AllDigits(s[11..13]) && AllDigits(s[14..16]) && AllDigits(s[17..19])
      && Field(s, 0, 4) == c.year && Field(s, 5, 7) == c.month && Field(s, 8, 10) == c.day
      && Field(s, 11, 13) == c.hour && Field(s, 14, 16) == c.minute && Field(s, 17, 19) == c.second
  {
    FieldsOfName(c);
    PrintedIsValid(IsDigit, c);
    assert Power10(4) == 10000;
    PadValue(c.year, 4);
    TwoDigits(c.month);
    TwoDigits(c.day);
    TwoDigits(c.hour);
    TwoDigits(c.minute);
    TwoDigits(c.second);
  }

  /** A name that ends in "60" is read as the leap second after the 59th. */
  lemma LeapSecondIsRead(c: Civil)
    requires ValidCivil(c) && c.year <= 9999 && c.second == 59
    ensures ParseTimestamp(PrintCivil(c.(second := 60))) == Some(Instant(Seconds(c), true))
  {
    var leap := c.(second := 60);
    FieldsOfName(leap);
    PrintedIsValid(IsDigit, leap);
    assert Power10(4) == 10000;
    PadValue(c.year, 4);
    TwoDigits(c.month);
    TwoDigits(c.day);
    TwoDigits(c.hour);
    TwoDigits(c.minute);
    TwoDigits(60);
    assert leap.(second := 59) == c;
  }

  /** The name of an instant parses back to that instant. */
  lemma NameRoundTrip(t: nat)
    requires InRange(t)
    ensures ParseTimestamp(SnapshotName(t)) == Some(Instant(t, false))
  {
    CivilOfInstant(t);
    InRangeIsFourDigitYear(t);
    FieldValues(CivilOf(t));
  }

  lemma {:induction false} PadOfValue(s: string)
    requires AllDigits(s)
    ensures DecimalValue(s) < Power10(|s|) && Pad(DecimalValue(s), |s|) == s
  {
    if s != "" {
      var front, last := s[..|s| - 1], s[|s| - 1];
      PadOfValue(front);
      assert DecimalValue(s) == DecimalValue(front) * 10 + DigitValue(last);
      assert DecimalValue(s) / 10 == DecimalValue(front) && DecimalValue(s) % 10 == DigitValue(last);
      assert s == front + [last];
    }
  }

  lemma FieldPadded(name: string, start: nat, end: nat)
    requires start <= end <= |name| && AllDigits(name[start..end])
    ensures Field(name, start, end) < Power10(end - start)
    ensures Pad(Field(name, start, end), end - start) == name[start..end]
  {
    PadOfValue(name[start..end]);
  }

  lemma SameFields(s: string, name: string)
    requires |s| == |name| == 19
    requires s[4] == name[4] && s[7] == name[7] && s[10] == name[10] && s[13] == name[13] && s[16] == name[16]
    requires s[0..4] == name[0..4] && s[5..7] == name[5..7] && s[8..10] == name[8..10]
    requires s[11..13] == name[11..13] && s[14..16] == name[14..16] && s[17..19] == name[17..19]
    ensures s == name
  {
    forall i | 0 <= i < 19 ensures s[i] == name[i] {
      var start := if i < 4 then 0 else if i < 7 then 5 else if i < 10 then 8
                   else if i < 13 then 11 else if i < 16 then 14 else 17;
      if i !in {4, 7, 10, 13, 16} {
        assert s[i] == s[start..if start == 0 then 4 else start + 2][i - start];
        assert name[i] == name[start..if start == 0 then 4 else start + 2][i - start];
      }
    }
  }

  /** A name that parses, but not to a leap second, is the name of the instant it parses to. */
  lemma ParsedNameRoundTrip(name: string)
    requires ParseTimestamp(name).Some? && !ParseTimestamp(name).value.leap
    ensures SnapshotName(ParseTimestamp(name).value.seconds) == name
    ensures InRange(ParseTimestamp(name).value.seconds)
  {
    var c := Civil(Field(name, 0, 4), Field(name, 5, 7), Field(name, 8, 10),
                   Field(name, 11, 13), Field(name, 14, 16), Field(name, 17, 19));
    assert Power10(4) == 10000;
    FieldPadded(name, 0, 4);
    FieldPadded(name, 5, 7);
    FieldPadded(name, 8, 10);
    FieldPadded(name, 11, 13);
    FieldPadded(name, 14, 16);
    FieldPadded(name, 17, 19);
    InstantOfCivil(c);
    InRangeIsFourDigitYear(Seconds(c));
    FieldsOfName(c);
    SameFields(PrintCivil(c), name);
  }

  // ------------------------------------------------------------------
  // The listing, newest first
  // ------------------------------------------------------------------

  ghost predicate IsDescending(names: seq<string>) {
    forall i, j :: 0 <= i < j < |names| ==> !Less(names[i], names[j])
  }

  function InsertDescending(name: string, sorted: seq<string>): seq<string> {
    if sorted == [] || !Less(name, sorted[0]) then [name] + sorted
    else [sorted[0]] + InsertDescending(name, sorted[1..])
  }

  /** `names.sort_by(|a, b| b.cmp(a))`. */
  function SortDescending(names: seq<string>): seq<string> {
    if names == [] then [] else InsertDescending(names[0], SortDescending(names[1..]))
  }

  lemma {:induction false} InsertSorts(name: string, sorted: seq<string>)
    requires IsDescending(sorted)
    ensures IsDescending(InsertDescending(name, sorted))
    ensures multiset(InsertDescending(name, sorted)) == multiset([name]) + multiset(sorted)
  {
    if sorted == [] {
    } else if !Less(name, sorted[0]) {
      forall i | 0 <= i < |sorted| ensures !Less(name, sorted[i]) {
        LessIsStrict(name, sorted[i], sorted[0]);
        LessIsStrict(sorted[0], sorted[i], name);
      }
    } else {
      InsertSorts(name, sorted[1..]);
      var rest := InsertDescending(name, sorted[1..]);
      assert sorted == [sorted[0]] + sorted[1..];
      forall i | 0 <= i < |rest| ensures !Less(sorted[0], rest[i]) {
        assert rest[i] in multiset(rest);
        LessIsStrict(name, sorted[0], name);
        LessIsStrict(sorted[0], name, sorted[0]);
        assert rest[i] == name || rest[i] in sorted[1..];
      }
    }
  }

  lemma {:induction false} SortSorts(names: seq<string>)
    ensures IsDescending(SortDescending(names))
    ensures multiset(SortDescending(names)) == multiset(names)
    ensures |SortDescending(names)| == |names|
    ensures forall n :: n in SortDescending(names) <==> n in names
  {
    if names != [] {
      SortSorts(names[1..]);
      InsertSorts(names[0], SortDescending(names[1..]));
      assert names == [names[0]] + names[1..];
    }
    assert |multiset(SortDescending(names))| == |multiset(names)|;
    forall n ensures n in SortDescending(names) <==> n in names {
      assert n in multiset(SortDescending(names)) <==> n in multiset(names);
    }
  }

  function ValidNames(digit: char -> bool, names: seq<string>): seq<string> {
    if names == [] then []
    else (if IsValidSnapshotName(digit, names[0]) then [names[0]] else []) + ValidNames(digit, names[1..])
  }

  lemma {:induction false} ValidNamesMembers(digit: char -> bool, names: seq<string>)
    ensures forall n :: n in ValidNames(digit, names) <==> n in names && IsValidSnapshotName(digit, n)
  {
    if names != [] {
      ValidNamesMembers(digit, names[1..]);
      assert names == [names[0]] + names[1..];
    }
  }

  /** `remote_list_snapshot_names` on what the remote `find` printed. */
  function ListSnapshotNames(digit: char -> bool, stdout: string): seq<string> {
    SortDescending(ValidNames(digit, TrimAll(Split(Trim(stdout), FindRecords.RS))))
  }

  // ------------------------------------------------------------------
  // Reading the remote listing
  // ------------------------------------------------------------------

  lemma {:induction false} TrimStartBefore(a: string, b: string)
    requires b != "" && !IsWhitespace(b[0])
    ensures TrimStart(a + b) == TrimStart(a) + b
  {
    if a == "" {
      assert a + b == b;
    } else if IsWhitespace(a[0]) {
      assert (a + b)[1..] == a[1..] + b;
      TrimStartBefore(a[1..], b);
    }
  }

  lemma {:induction false} TrimStartTwice(a: string)
    ensures TrimStart(TrimStart(a)) == TrimStart(a)
  {
    if a != "" && IsWhitespace(a[0]) {
      TrimStartTwice(a[1..]);
    }
  }

  /** Trimming the captured output can only reach into the first name. */
  lemma TrimmedOutput(names: seq<string>)
    requires names != []
    ensures Trim(FindRecords.Records(names)) == FindRecords.Records([TrimStart(names[0])] + names[1..])
  {
    var tail := [FindRecords.RS] + FindRecords.Records(names[1..]);
    assert FindRecords.Records(names) == names[0] + tail;
    TrimStartBefore(names[0], tail);
    var rest := [TrimStart(names[0])] + names[1..];
    assert rest[1..] == names[1..] && FindRecords.Records(rest) == TrimStart(names[0]) + tail;
    FindRecords.RecordsEnd(rest);
  }

  lemma {:induction false} ValidNamesConcat(digit: char -> bool, a: seq<string>, b: seq<string>)
    ensures ValidNames(digit, a + b) == ValidNames(digit, a) + ValidNames(digit, b)
  {
    if a == [] {
      assert a + b == b;
    } else {
      assert (a + b)[1..] == a[1..] + b;
      ValidNamesConcat(digit, a[1..], b);
    }
  }

  lemma NoName(digit: char -> bool, t: seq<string>)
    ensures ValidNames(digit, t + [""]) == ValidNames(digit, t)
  {
    ValidNamesConcat(digit, t, [""]);
    assert ValidNames(digit, [""]) == ValidNames(digit, [""][1..]) == [];
  }

  lemma SameTrimmed(a: seq<string>, b: seq<string>)
    requires |a| == |b| && forall i :: 0 <= i < |a| ==> Trim(a[i]) == Trim(b[i])
    ensures TrimAll(a) == TrimAll(b)
  {
  }

  lemma TrimmedAndBlank(names: seq<string>)
    ensures TrimAll(names + [""]) == TrimAll(names) + [""]
  {
    TrimOfTrimmed("");
    TrimAllConcat(names, [""]);
  }

  lemma TrimStartChars(s: string, c: char)
    requires c !in s
    ensures c !in TrimStart(s)
  {
    var w := TrimStartDrops(s);
  }

  lemma OutputSplit(names: seq<string>)
    requires names != [] && forall i :: 0 <= i < |names| ==> FindRecords.RS !in names[i]
    ensures Split(Trim(FindRecords.Records(names)), FindRecords.RS) == [TrimStart(names[0])] + names[1..] + [""]
  {
    TrimmedOutput(names);
    TrimStartChars(names[0], FindRecords.RS);
    FindRecords.RecordsSplit([TrimStart(names[0])] + names[1..]);
  }

  lemma PartsOfOutput(names: seq<string>)
    requires forall i :: 0 <= i < |names| ==> FindRecords.RS !in names[i]
    ensures TrimAll(Split(Trim(FindRecords.Records(names)), FindRecords.RS)) == TrimAll(names) + [""]
  {
    TrimmedAndBlank(names);
    if names == [] {
      TrimOfTrimmed("");
      assert FindRecords.Records(names) == "" && names + [""] == [""];
    } else {
      OutputSplit(names);
      FirstTrimmed(names);
    }
  }

  lemma FirstTrimmed(names: seq<string>)
    requires names != []
    ensures TrimAll([TrimStart(names[0])] + names[1..] + [""]) == TrimAll(names + [""])
  {
    TrimStartTwice(names[0]);
    var a, b := [TrimStart(names[0])] + names[1..] + [""], names + [""];
    forall i | 0 <= i < |a| ensures Trim(a[i]) == Trim(b[i]) {
      assert i > 0 ==> a[i] == b[i];
    }
    SameTrimmed(a, b);
  }

  /** The daemon lists the trimmed directory names that are valid, newest first. */
  lemma ListingOfOutput(digit: char -> bool, names: seq<string>)
    requires forall i :: 0 <= i < |names| ==> FindRecords.RS !in names[i]
    ensures ListSnapshotNames(digit, FindRecords.Records(names)) == SortDescending(ValidNames(digit, TrimAll(names)))
  {
    PartsOfOutput(names);
    var t := TrimAll(names);
    NoName(digit, t);
  }

  ghost predicate NoDuplicates(names: seq<string>) {
    forall i, j :: 0 <= i < j < |names| ==> names[i] != names[j]
  }

  /** `names` are the valid ones of the directories `dirs`, once each, newest first. */
  ghost predicate IsListingOf(digit: char -> bool, names: seq<string>, dirs: set<string>) {
    && IsDescending(names) && NoDuplicates(names)
    && forall n :: n in names <==> n in dirs && IsValidSnapshotName(digit, n)
  }

  /** The snapshot directories kept under a key, such as a project; none for an unknown one. */
  function Dirs<K(==)>(remotes: map<K, set<string>>, key: K): set<string> {
    if key in remotes then remotes[key] else {}
  }

  ghost function ValidDirs(digit: char -> bool, dirs: set<string>): set<string> {
    set n | n in dirs && IsValidSnapshotName(digit, n)
  }

  lemma {:induction false} ListingCounts(digit: char -> bool, names: seq<string>, valid: set<string>)
    requires NoDuplicates(names) && forall n :: n in names <==> n in valid
    ensures |names| == |valid|
  {
    if names == [] {
      assert valid == {};
    } else {
      assert names == [names[0]] + names[1..];
      assert names[0] !in names[1..];
      ListingCounts(digit, names[1..], valid - {names[0]});
    }
  }

  lemma RepeatedTwice(names: seq<string>, i: nat, j: nat)
    requires i < j < |names| && names[i] == names[j]
    ensures multiset(names)[names[i]] >= 2
  {
    assert names == names[..i] + [names[i]] + names[i + 1..j] + [names[j]] + names[j + 1..];
  }

  lemma SortKeepsDistinct(names: seq<string>)
    requires NoDuplicates(names)
    ensures NoDuplicates(SortDescending(names))
  {
    SortSorts(names);
    var sorted := SortDescending(names);
    DistinctMultiset(names);
    forall i, j | 0 <= i < j < |sorted| ensures sorted[i] != sorted[j] {
      if sorted[i] == sorted[j] {
        RepeatedTwice(sorted, i, j);
      }
    }
  }

  lemma {:induction false} DistinctMultiset(names: seq<string>)
    requires NoDuplicates(names)
    ensures forall n :: multiset(names)[n] <= 1
  {
    if names != [] {
      DistinctMultiset(names[1..]);
      assert names == [names[0]] + names[1..];
      assert names[0] !in names[1..];
    }
  }

  lemma {:induction false} ValidNamesDistinct(digit: char -> bool, names: seq<string>)
    requires NoDuplicates(names)
    ensures NoDuplicates(ValidNames(digit, names))
  {
    if names != [] {
      ValidNamesDistinct(digit, names[1..]);
      ValidNamesMembers(digit, names[1..]);
      assert names[0] !in names[1..];
    }
  }

  /** On directories whose names are trimmed the listing is exact. */
  lemma ListingIsExact(digit: char -> bool, names: seq<string>, dirs: set<string>)
    requires forall i :: 0 <= i < |names| ==> FindRecords.RS !in names[i] && IsTrimmed(names[i])
    requires NoDuplicates(names) && forall n :: n in names <==> n in dirs
    ensures IsListingOf(digit, ListSnapshotNames(digit, FindRecords.Records(names)), dirs)
    ensures |ListSnapshotNames(digit, FindRecords.Records(names))| == |ValidDirs(digit, dirs)|
  {
    forall i | 0 <= i < |names| ensures Trim(names[i]) == names[i] {
      TrimOfTrimmed(names[i]);
    }
    assert TrimAll(names) == names;
    ListingOfOutput(digit, names);
    ValidNamesMembers(digit, names);
    ValidNamesDistinct(digit, names);
    SortSorts(ValidNames(digit, names));
    SortKeepsDistinct(ValidNames(digit, names));
    ListingCounts(digit, ListSnapshotNames(digit, FindRecords.Records(names)), ValidDirs(digit, dirs));
  }

  /** The directories in some order. */
  ghost function InSomeOrder(dirs: set<string>): seq<string> {
    if dirs == {} then []
    else
      var n :| n in dirs;
      [n] + InSomeOrder(dirs - {n})
  }

  lemma {:induction false} InSomeOrderMembers(dirs: set<string>)
    ensures NoDuplicates(InSomeOrder(dirs)) && forall n :: n in InSomeOrder(dirs) <==> n in dirs
  {
    if dirs != {} {
      var n :| n in dirs && InSomeOrder(dirs) == [n] + InSomeOrder(dirs - {n});
      InSomeOrderMembers(dirs - {n});
    }
  }

  /** The valid directories, newest first. */
  ghost function Listing(digit: char -> bool, dirs: set<string>): seq<string> {
    SortDescending(ValidNames(digit, InSomeOrder(dirs)))
  }

  /** Filtering and sorting the directories, once each, lists them. */
  lemma SortedIsListing(digit: char -> bool, names: seq<string>, dirs: set<string>)
    requires NoDuplicates(names)
    requires forall n :: n in names ==> n in dirs
    requires forall n :: n in dirs && IsValidSnapshotName(digit, n) ==> n in names
    ensures IsListingOf(digit, SortDescending(ValidNames(digit, names)), dirs)
  {
    ValidNamesMembers(digit, names);
    ValidNamesDistinct(digit, names);
    SortSorts(ValidNames(digit, names));
    SortKeepsDistinct(ValidNames(digit, names));
  }

  lemma {:induction false} SameMembersSameOrder(a: seq<string>, b: seq<string>)
    requires IsDescending(a) && NoDuplicates(a) && IsDescending(b) && NoDuplicates(b)
    requires forall n :: n in a <==> n in b
    ensures a == b
  {
    assert b != [] ==> b[0] in b;
    if a != [] {
      assert a[0] in b && b[0] in a;
      var i :| 0 <= i < |b| && b[i] == a[0];
      var j :| 0 <= j < |a| && a[j] == b[0];
      LessIsStrict(a[0], b[0], "");
      assert a == [a[0]] + a[1..] && b == [b[0]] + b[1..];
      forall n ensures n in a[1..] <==> n in b[1..] {
        assert n in a[1..] <==> n in a && n != a[0];
        assert n in b[1..] <==> n in b && n != b[0];
      }
      SameMembersSameOrder(a[1..], b[1..]);
    }
  }

  /** There is one listing of the directories. */
  lemma ListingIsUnique(digit: char -> bool, names: seq<string>, dirs: set<string>)
    ensures IsListingOf(digit, names, dirs) <==> names == Listing(digit, dirs)
  {
    InSomeOrderMembers(dirs);
    SortedIsListing(digit, InSomeOrder(dirs), dirs);
    if IsListingOf(digit, names, dirs) {
      SameMembersSameOrder(names, Listing(digit, dirs));
    }
  }

  /** What a successful listing of the directories answers. */
  method ListDirectories(digit: char -> bool, dirs: set<string>) returns (names: seq<string>)
    ensures IsListingOf(digit, names, dirs) && names == Listing(digit, dirs)
  {
    var found: seq<string> := [];
    var rest := dirs;
    while rest != {}
      invariant rest <= dirs && NoDuplicates(found)
      invariant forall n :: n in found <==> n in dirs - rest
      decreases rest
    {
      var n :| n in rest;
      assert n !in found;
      rest := rest - {n};
      found := found + [n];
    }
    names := SortDescending(ValidNames(digit, found));
    SortedIsListing(digit, found, dirs);
    ListingIsUnique(digit, names, dirs);
  }

  /** In a listing, snapshots come in reverse chronological order: the head is the newest. */
  lemma NewestFirst(digit: char -> bool, names: seq<string>, dirs: set<string>, i: nat, j: nat, t: nat, u: nat)
    requires IsDigitClass(digit) && IsListingOf(digit, names, dirs) && i < j < |names|
    requires names[i] == SnapshotName(t) && names[j] == SnapshotName(u)
    ensures t > u
  {
    assert names[i] in names && names[j] in names;
    NameIsValidIff(digit, t);
    NameIsValidIff(digit, u);
    NameOrder(t, u);
  }
}
