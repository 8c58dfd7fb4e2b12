/** Dates and times as the columns store them, ordered by their fields. */
module Calendar {
  datatype Date = Date(year: int, month: int, day: int)
  /** `milli` counts milliseconds since midnight. */
  datatype DateTime = DateTime(date: Date, milli: int)

  const DAY_MILLIS: int := 86_400_000

  predicate IsLeap(year: int) {
    year % 4 == 0 && (year % 100 != 0 || year % 400 == 0)
  }

  function DaysIn(year: int, month: int): int {
    if month == 2 then (if IsLeap(year) then 29 else 28)
    else if month == 4 || month == 6 || month == 9 || month == 11 then 30
    else 31
  }

  predicate ValidDate(d: Date) {
    1 <= d.month <= 12 && 1 <= d.day <= DaysIn(d.year, d.month)
  }

  predicate ValidTime(t: DateTime) {
    ValidDate(t.date) && 0 <= t.milli < DAY_MILLIS
  }

  predicate DateBefore(a: Date, b: Date) {
    || a.year < b.year
    || (a.year == b.year && (a.month < b.month || (a.month == b.month && a.day < b.day)))
  }

  predicate Before(a: DateTime, b: DateTime) {
    DateBefore(a.date, b.date) || (a.date == b.date && a.milli < b.milli)
  }

  function Midnight(d: Date): DateTime {
    DateTime(d, 0)
  }

  function FirstDayOfMonth(d: Date): Date {
    Date(d.year, d.month, 1)
  }

  /** `next_month`, on the first day of a month. */
  function NextMonth(d: Date): Date {
    if d.month == 12 then Date(d.year + 1, 1, 1) else Date(d.year, d.month + 1, 1)
  }

  function NextDay(d: Date): Date {
    if d.day < DaysIn(d.year, d.month) then Date(d.year, d.month, d.day + 1) else NextMonth(d)
  }

  /** Months numbered through the years. */
  function MonthIndex(d: Date): int {
    d.year * 12 + d.month - 1
  }

  function MonthAt(k: int): Date {
    Date(k / 12, k % 12 + 1, 1)
  }

  lemma MonthAtIndex(k: int)
    ensures MonthIndex(MonthAt(k)) == k && ValidDate(MonthAt(k))
    ensures NextMonth(MonthAt(k)) == MonthAt(k + 1)
  {
  }

  lemma IndexOfMonth(d: Date)
    requires 1 <= d.month <= 12
    ensures MonthAt(MonthIndex(d)) == FirstDayOfMonth(d)
  {
  }

  /** First days of months compare as their numbers do. */
  lemma MonthOrder(j: int, k: int)
    ensures DateBefore(MonthAt(j), MonthAt(k)) <==> j < k
  {
  }

  lemma DateOrder(a: Date, b: Date)
    requires 1 <= a.month <= 12 && 1 <= b.month <= 12
    ensures MonthIndex(a) < MonthIndex(b) ==> DateBefore(a, b)
  {
  }

  lemma BeforeTransitive(a: DateTime, b: DateTime, c: DateTime)
    ensures Before(a, b) && Before(b, c) ==> Before(a, c)
    ensures !Before(a, b) && !Before(b, c) ==> !Before(a, c)
  {
  }

  lemma BeforeTotal(a: DateTime, b: DateTime)
    ensures Before(a, b) || a == b || Before(b, a)
    ensures !(Before(a, b) && Before(b, a))
  {
  }

  /** A time lies in month `k` exactly when it is between the first instants of months `k` and `k + 1`. */
  lemma InMonth(t: DateTime, k: int)
    requires ValidTime(t)
    ensures MonthIndex(t.date) == k <==> !Before(t, Midnight(MonthAt(k))) && Before(t, Midnight(MonthAt(k + 1)))
  {
    MonthAtIndex(k);
    IndexOfMonth(t.date);
    MonthOrder(MonthIndex(t.date), k);
    MonthOrder(k, MonthIndex(t.date));
  }

  /** A time lies on a day exactly when it is between that day's midnight and the next one. */
  lemma OnDay(t: DateTime, d: Date)
    requires ValidTime(t) && ValidDate(d)
    ensures t.date == d <==> !Before(t, Midnight(d)) && Before(t, Midnight(NextDay(d)))
  {
  }
}

/** The tables behind a history query: `select_history_tables` and the archive names (src/history.rs). */
module HistoryTables {
  import opened Calendar
  import opened Decimal

  datatype HistoryError = EmptyTimeRange | NoTables | InvalidTable(name: string)
  datatype Result<+T> = Ok(value: T) | Err(error: HistoryError)

  predicate IsAlpha(c: char) { 'a' <= c <= 'z' || 'A' <= c <= 'Z' }
  predicate IsNameChar(c: char) { c == '_' || IsAlpha(c) || '0' <= c <= '9' }

  /** `validate_mysql_identifier`. */
  predicate ValidIdentifier(s: string) {
    && s != "" && (s[0] == '_' || IsAlpha(s[0]))
    && forall i :: 0 < i < |s| ==> IsNameChar(s[i])
  }

  /** `{:04}` of a year; the sign counts towards the width. */
  function YearText(year: int): string {
    if year >= 0 then Pad(year, 4) else "-" + Pad(-year, 3)
  }

  function MonthText(month: int): string
    requires 1 <= month <= 12
  {
    Pad(month, 2)
  }

  function Suffix(d: Date): string
    requires 1 <= d.month <= 12
  {
    YearText(d.year) + MonthText(d.month)
  }

  /** `archive_table_name`. */
  function ArchiveName(base: string, d: Date): Result<string>
    requires 1 <= d.month <= 12
  {
    if !ValidIdentifier(base) then Err(InvalidTable(base))
    else
      var table := base + "_" + Suffix(d);
      if ValidIdentifier(table) then Ok(table) else Err(InvalidTable(table))
  }

  lemma PadChars(n: nat, width: nat)
    ensures forall i :: 0 <= i < |Pad(n, width)| ==> '0' <= Pad(n, width)[i] <= '9'
  {
    PadValue(n, width);
  }

  lemma MonthTextLength(month: int)
    requires 1 <= month <= 12
    ensures |MonthText(month)| == 2
  {
    if month >= 10 {
      assert Digits(month / 10) == [DigitChar(month / 10)];
    }
  }

  /** A valid base has archive names for all years from 0 on, and for no earlier one. */
  lemma ArchiveNameValid(base: string, d: Date)
    requires 1 <= d.month <= 12 && ValidIdentifier(base)
    ensures ArchiveName(base, d).Ok? <==> d.year >= 0
  {
    var table := base + "_" + Suffix(d);
    PadChars(d.month, 2);
    if d.year >= 0 {
      PadChars(d.year, 4);
    } else {
      assert table[|base| + 1] == '-';
    }
  }

  /** Archive tables of different months, and the hot table, all have different names. */
  lemma ArchiveNamesDiffer(base: string, a: Date, b: Date)
    requires 1 <= a.month <= 12 && 1 <= b.month <= 12
    requires ArchiveName(base, a).Ok?
    ensures ArchiveName(base, a).value != base
    ensures ArchiveName(base, b) == ArchiveName(base, a) ==> a.year == b.year && a.month == b.month
  {
    ArchiveNameValid(base, a);
    ArchiveNameValid(base, b);
    if ArchiveName(base, b) == ArchiveName(base, a) {
      var n := |base| + 1;
      var ta, tb := ArchiveName(base, a).value, ArchiveName(base, b).value;
      assert ta[n..] == Suffix(a) && tb[n..] == Suffix(b);
      MonthTextLength(a.month);
      MonthTextLength(b.month);
      var sa, sb := Suffix(a), Suffix(b);
      assert sa[|sa| - 2..] == MonthText(a.month) && sb[|sb| - 2..] == MonthText(b.month);
      assert sa[..|sa| - 2] == YearText(a.year) && sb[..|sb| - 2] == YearText(b.year);
      PadInjective(a.month, b.month, 2);
      PadInjective(a.year, b.year, 4);
    }
  }

  /** Whether the loop takes month `k`, and under which name. */
  function TableOf(base: string, k: int, current: Date): Result<string> {
    if MonthAt(k) == current then Ok(base) else ArchiveName(base, MonthAt(k))
  }

  predicate Taken(k: int, current: Date) {
    MonthAt(k) == current || DateBefore(MonthAt(k), current)
  }

  /** What the loop pushes for the months from `k` on. */
  function Select(base: string, k: int, endAt: DateTime, current: Date): Result<seq<string>>
    decreases MonthIndex(endAt.date) - k
    requires 1 <= endAt.date.month <= 12
  {
    if !Before(Midnight(MonthAt(k)), endAt) then Ok([])
    else
      MonthsEnd(k, endAt);
      if Taken(k, current) then
        match TableOf(base, k, current)
        case Err(e) => Err(e)
        case Ok(t) =>
          (match Select(base, k + 1, endAt, current)
           case Err(e) => Err(e)
           case Ok(rest) => Ok([t] + rest))
      else Select(base, k + 1, endAt, current)
  }

  lemma MonthsEnd(k: int, endAt: DateTime)
    requires 1 <= endAt.date.month <= 12 && Before(Midnight(MonthAt(k)), endAt)
    ensures k <= MonthIndex(endAt.date)
  {
    MonthAtIndex(k);
    if MonthIndex(endAt.date) < k {
      DateOrder(endAt.date, MonthAt(k));
    }
  }

  /** `Vec::dedup`. */
  function Dedup(s: seq<string>): seq<string> {
    if |s| < 2 then s
    else if s[0] == s[1] then Dedup(s[1..])
    else [s[0]] + Dedup(s[1..])
  }

  function SelectHistoryTables(base: string, startAt: DateTime, endAt: DateTime, current: Date): Result<seq<string>>
    requires 1 <= startAt.date.month <= 12 && 1 <= endAt.date.month <= 12
  {
    if !ValidIdentifier(base) then Err(InvalidTable(base))
    else if !Before(startAt, endAt) then Err(EmptyTimeRange)
    else
      match Select(base, MonthIndex(startAt.date), endAt, current)
      case Err(e) => Err(e)
      case Ok(tables) => Ok(Dedup(tables))
  }

  /** `select_history_tables` with its loop over the months. */
  method SelectTables(base: string, startAt: DateTime, endAt: DateTime, current: Date) returns (r: Result<seq<string>>)
    requires ValidTime(startAt) && ValidTime(endAt) && ValidDate(current)
    ensures r == SelectHistoryTables(base, startAt, endAt, current)
  {
    hide ArchiveName, Dedup, ValidIdentifier, MonthAt, NextMonth, Before, DateBefore;
    if !ValidIdentifier(base) {
      return Err(InvalidTable(base));
    }
    if !Before(startAt, endAt) {
      return Err(EmptyTimeRange);
    }
    var tables: seq<string> := [];
    var month := FirstDayOfMonth(startAt.date);
    ghost var k := MonthIndex(startAt.date);
    ghost var k0 := k;
    IndexOfMonth(startAt.date);
    while Before(Midnight(month), endAt)
      invariant month == MonthAt(k)
      invariant match Select(base, k0, endAt, current)
        case Err(e) => Select(base, k, endAt, current) == Err(e)
        case Ok(all) => Select(base, k, endAt, current).Ok? && tables + Select(base, k, endAt, current).value == all
      decreases MonthIndex(endAt.date) - k
    {
      MonthAtIndex(k);
      MonthsEnd(k, endAt);
      if month == current {
        tables := tables + [base];
      } else if DateBefore(month, current) {
        var name := ArchiveName(base, month);
        if name.Err? {
          return Err(name.error);
        }
        tables := tables + [name.value];
      }
      month := NextMonth(month);
      k := k + 1;
    }
    assert tables + [] == tables;
    r := Ok(Dedup(tables));
  }

  // ---- which months are selected ----

  /** Some instant of month `k` lies in the queried range. */
  ghost predicate Overlaps(k: int, startAt: DateTime, endAt: DateTime) {
    Before(Midnight(MonthAt(k)), endAt) && Before(startAt, Midnight(MonthAt(k + 1)))
  }

  /** The number after the last selected month. */
  function LastMonth(endAt: DateTime, current: Date): int {
    var e := if endAt == Midnight(FirstDayOfMonth(endAt.date)) then MonthIndex(endAt.date)
        else MonthIndex(endAt.date) + 1;
    var c := MonthIndex(current) + 1;
    if e < c then e else c
  }

  /** `tables` are the names of the months from `lo` up to but not including `hi`. */
  ghost predicate NamesOf(base: string, lo: int, hi: int, current: Date, tables: seq<string>) {
    && |tables| == (if lo < hi then hi - lo else 0)
    && forall i :: 0 <= i < |tables| ==> TableOf(base, lo + i, current) == Ok(tables[i])
  }

  lemma {:induction false} SelectIsRange(base: string, k: int, endAt: DateTime, current: Date)
    requires ValidTime(endAt) && ValidDate(current) && ValidIdentifier(base)
    ensures match Select(base, k, endAt, current)
      case Err(_) => k < LastMonth(endAt, current) && TableOf(base, k, current).Err?
      case Ok(tables) => NamesOf(base, k, LastMonth(endAt, current), current, tables)
    decreases MonthIndex(endAt.date) - k
  {
    hide Before, DateBefore, LastMonth, TableOf, MonthAt;
    RangeTest(k, endAt, current);
    if Before(Midnight(MonthAt(k)), endAt) {
      MonthsEnd(k, endAt);
      SelectIsRange(base, k + 1, endAt, current);
      NextIsTaken(base, k, endAt, current);
    } else {
      NotTaken(k, endAt, current);
    }
  }

  /** Months after a month that is not taken are not taken, and a month before a nameless one is nameless. */
  lemma NextIsTaken(base: string, k: int, endAt: DateTime, current: Date)
    requires ValidTime(endAt) && ValidDate(current) && ValidIdentifier(base)
    ensures k + 1 < LastMonth(endAt, current) && TableOf(base, k + 1, current).Err? ==> TableOf(base, k, current).Err?
  {
    hide ArchiveName, ValidIdentifier;
    MonthAtIndex(k);
    MonthAtIndex(k + 1);
    ArchiveNameValid(base, MonthAt(k));
    ArchiveNameValid(base, MonthAt(k + 1));
    IndexOfMonth(current);
  }

  lemma NotTaken(k: int, endAt: DateTime, current: Date)
    requires ValidTime(endAt) && ValidDate(current) && !Before(Midnight(MonthAt(k)), endAt)
    ensures !(k < LastMonth(endAt, current))
  {
    RangeTest(k, endAt, current);
  }

  lemma RangeTest(k: int, endAt: DateTime, current: Date)
    requires ValidTime(endAt) && ValidDate(current)
    ensures k < LastMonth(endAt, current) <==> Before(Midnight(MonthAt(k)), endAt) && Taken(k, current)
  {
    MonthAtIndex(k);
    IndexOfMonth(current);
    IndexOfMonth(endAt.date);
    MonthOrder(k, MonthIndex(current));
    MonthOrder(MonthIndex(current), k);
    MonthOrder(k, MonthIndex(endAt.date));
    MonthOrder(MonthIndex(endAt.date), k);
  }

  lemma {:induction false} DedupDistinct(s: seq<string>)
    requires forall i :: 0 < i < |s| ==> s[i - 1] != s[i]
    ensures Dedup(s) == s
  {
    if |s| >= 2 {
      forall i | 0 < i < |s[1..]| ensures s[1..][i - 1] != s[1..][i] {
        assert s[i] != s[i + 1];
      }
      assert s[0] != s[1];
      DedupDistinct(s[1..]);
    }
  }

  /**
   The selection succeeds exactly for a valid base and a non-empty range whose first selected month has a
   name, and then it lists the months from the first overlapping one to the last overlapping one that is
   not after the current month: each once, in order, the current month under the hot table's name.
   `dedup` never removes anything.
   */
  lemma SelectionExact(base: string, startAt: DateTime, endAt: DateTime, current: Date)
    requires ValidTime(startAt) && ValidTime(endAt) && ValidDate(current)
    ensures var r := SelectHistoryTables(base, startAt, endAt, current);
      var lo, hi := MonthIndex(startAt.date), LastMonth(endAt, current);
      && (r.Ok? <==> ValidIdentifier(base) && Before(startAt, endAt) && (lo < hi ==> TableOf(base, lo, current).Ok?))
      && (r.Ok? ==> NamesOf(base, lo, hi, current, r.value) && Distinct(r.value))
  {
    hide TableOf, LastMonth, Before, ValidIdentifier;
    var lo, hi := MonthIndex(startAt.date), LastMonth(endAt, current);
    if ValidIdentifier(base) && Before(startAt, endAt) {
      SelectIsRange(base, lo, endAt, current);
      if Select(base, lo, endAt, current).Ok? {
        var s := Select(base, lo, endAt, current).value;
        NamesDistinct(base, lo, hi, current, s);
        DedupDistinct(s);
        FirstName(base, lo, hi, current, s);
      }
    }
  }

  ghost predicate Distinct(s: seq<string>) {
    forall i, j :: 0 <= i < j < |s| ==> s[i] != s[j]
  }

  lemma FirstName(base: string, lo: int, hi: int, current: Date, s: seq<string>)
    requires NamesOf(base, lo, hi, current, s)
    ensures lo < hi ==> TableOf(base, lo, current).Ok?
  {
    if lo < hi {
      assert TableOf(base, lo + 0, current) == Ok(s[0]);
    }
  }

  lemma NamesDistinct(base: string, lo: int, hi: int, current: Date, s: seq<string>)
    requires NamesOf(base, lo, hi, current, s)
    ensures Distinct(s)
  {
    hide TableOf;
    forall i, j | 0 <= i < j < |s| ensures s[i] != s[j] {
      assert TableOf(base, lo + i, current) == Ok(s[i]) && TableOf(base, lo + j, current) == Ok(s[j]);
      TablesDiffer(base, lo + i, lo + j, current);
    }
  }

  /** The months listed are those that overlap the range and are not after the current month. */
  lemma SelectedMonths(startAt: DateTime, endAt: DateTime, current: Date)
    requires ValidTime(startAt) && ValidTime(endAt) && ValidDate(current)
    ensures forall k :: MonthIndex(startAt.date) <= k < LastMonth(endAt, current)
                   <==> Overlaps(k, startAt, endAt) && Taken(k, current)
  {
    forall k
      ensures MonthIndex(startAt.date) <= k < LastMonth(endAt, current)
        <==> Overlaps(k, startAt, endAt) && Taken(k, current)
    {
      OverlapTest(k, startAt, endAt, current);
    }
  }

  lemma OverlapTest(k: int, startAt: DateTime, endAt: DateTime, current: Date)
    requires ValidTime(startAt) && ValidTime(endAt) && ValidDate(current)
    ensures MonthIndex(startAt.date) <= k < LastMonth(endAt, current)
       <==> Overlaps(k, startAt, endAt) && Taken(k, current)
  {
    RangeTest(k, endAt, current);
    MonthAtIndex(k + 1);
    IndexOfMonth(startAt.date);
    MonthOrder(MonthIndex(startAt.date), k + 1);
    MonthOrder(k + 1, MonthIndex(startAt.date));
  }

  lemma TablesDiffer(base: string, j: int, k: int, current: Date)
    requires j < k && TableOf(base, j, current).Ok? && TableOf(base, k, current).Ok?
    ensures TableOf(base, j, current) != TableOf(base, k, current)
  {
    MonthAtIndex(j);
    MonthAtIndex(k);
    if MonthAt(j) != current {
      ArchiveNamesDiffer(base, MonthAt(j), MonthAt(k));
    } else {
      ArchiveNamesDiffer(base, MonthAt(k), MonthAt(j));
    }
  }

  /** The hot table is selected exactly when the given current month is a first of a month inside the range. */
  lemma HotTableSelected(base: string, startAt: DateTime, endAt: DateTime, current: Date)
    requires ValidTime(startAt) && ValidTime(endAt) && ValidDate(current)
    requires SelectHistoryTables(base, startAt, endAt, current).Ok?
    ensures base in SelectHistoryTables(base, startAt, endAt, current).value
       <==> current.day == 1 && Overlaps(MonthIndex(current), startAt, endAt)
  {
    hide SelectHistoryTables, Before, LastMonth, TableOf;
    SelectionExact(base, startAt, endAt, current);
    SelectedMonths(startAt, endAt, current);
    var r := SelectHistoryTables(base, startAt, endAt, current).value;
    var lo, hi, c := MonthIndex(startAt.date), LastMonth(endAt, current), MonthIndex(current);
    if base in r {
      var i :| 0 <= i < |r| && r[i] == base;
      assert TableOf(base, lo + i, current) == Ok(base);
      OnlyCurrentIsHot(base, lo + i, current);
    }
    if current.day == 1 && Overlaps(c, startAt, endAt) {
      CurrentIsHot(base, current);
      assert lo <= c < hi;
      assert TableOf(base, lo + (c - lo), current) == Ok(r[c - lo]);
    }
  }

  lemma OnlyCurrentIsHot(base: string, k: int, current: Date)
    requires ValidDate(current) && TableOf(base, k, current) == Ok(base)
    ensures current.day == 1 && k == MonthIndex(current)
  {
    MonthAtIndex(k);
    if MonthAt(k) != current {
      ArchiveNamesDiffer(base, MonthAt(k), MonthAt(k));
    }
  }

  lemma CurrentIsHot(base: string, current: Date)
    requires ValidDate(current) && current.day == 1
    ensures TableOf(base, MonthIndex(current), current) == Ok(base) && Taken(MonthIndex(current), current)
  {
    IndexOfMonth(current);
  }
}
