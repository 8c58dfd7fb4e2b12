/**
 The status-map scanner of src/types.rs: descriptions such as `状态：0、正常；1、错误；` list what the
 numeric codes of a point mean. Positions are character positions.
 */
module StatusMap {
  import opened Options
  import opened Text

  predicate IsDigit(c: char) { '0' <= c <= '9' }
  predicate IsDelimiter(c: char) { c == '、' || c == ':' || c == '：' || c == ',' }
  predicate IsSeparator(c: char) { c == '；' || c == ';' }

  /** The first digit at or after `from`, or the length. */
  function FindDigit(s: string, from: nat): (r: nat)
    requires from <= |s|
    ensures from <= r <= |s| && (r < |s| ==> IsDigit(s[r]))
    ensures forall k :: from <= k < r ==> !IsDigit(s[k])
    decreases |s| - from
  {
    if from == |s| || IsDigit(s[from]) then from else FindDigit(s, from + 1)
  }

  /** The end of the run of digits that starts at `start`. */
  function RunEnd(s: string, start: nat): (r: nat)
    requires start <= |s|
    ensures start <= r <= |s| && (r < |s| ==> !IsDigit(s[r]))
    ensures forall k :: start <= k < r ==> IsDigit(s[k])
    decreases |s| - start
  {
    if start < |s| && IsDigit(s[start]) then RunEnd(s, start + 1) else start
  }

  /** The first character at or after `start` that is not whitespace, or the length. */
  function SkipBlank(s: string, start: nat): (r: nat)
    requires start <= |s|
    ensures start <= r <= |s| && (r < |s| ==> !IsWhitespace(s[r]))
    ensures forall k :: start <= k < r ==> IsWhitespace(s[k])
    decreases |s| - start
  {
    if start < |s| && IsWhitespace(s[start]) then SkipBlank(s, start + 1) else start
  }

  function Label(s: string, from: nat): string
    requires from <= |s|
  {
    Trim(LabelEdge, s[from..])
  }

  /** A run of digits `start..end` and the first non-blank character behind it, at `mark`. */
  datatype Candidate = Candidate(start: nat, end: nat, mark: nat)

  function Next(s: string, from: nat): (r: Option<Candidate>)
    requires from <= |s|
    ensures r.Some? ==> from <= r.value.start < r.value.end <= r.value.mark < |s|
  {
    var start := FindDigit(s, from);
    if start == |s| then None
    else
      var end := RunEnd(s, start);
      var mark := SkipBlank(s, end);
      if mark == |s| then None else Some(Candidate(start, end, mark))
  }

  /** The candidate is a code and it is the one looked for, with a label behind it. */
  predicate Answers(s: string, c: Candidate, code: string)
    requires c.start <= c.end <= c.mark < |s|
  {
    IsDelimiter(s[c.mark]) && s[c.start..c.end] == code && Label(s, c.mark + 1) != ""
  }

  /** What the inner loop finds in one segment, starting at `from`. */
  function Scan(s: string, from: nat, code: string): Option<string>
    requires from <= |s|
    decreases |s| - from
  {
    match Next(s, from)
    case None => None
    case Some(c) => if Answers(s, c, code) then Some(Label(s, c.mark + 1)) else Scan(s, c.mark + 1, code)
  }

  /** `split(['；', ';'])`: at least one segment, the last one possibly empty. */
  function Split(s: string): seq<string> {
    if s == "" then [""]
    else
      var rest := Split(s[1..]);
      if IsSeparator(s[0]) then [""] + rest else [[s[0]] + rest[0]] + rest[1..]
  }

  function FirstLabel(segments: seq<string>, code: string): Option<string> {
    if segments == [] then None
    else
      match Scan(segments[0], 0, code)
      case Some(text) => Some(text)
      case None => FirstLabel(segments[1..], code)
  }

  function LabelFor(description: string, code: string): Option<string> {
    FirstLabel(Split(description), code)
  }

  // ---- the loops of the source ----

  /** `digit_run_end`. */
  method DigitRunEnd(value: string, start: nat) returns (end: nat)
    requires start <= |value|
    ensures end == RunEnd(value, start)
  {
    end := start;
    var i := start;
    while i < |value|
      invariant start <= end == i <= |value| && RunEnd(value, start) == RunEnd(value, i)
    {
      if !IsDigit(value[i]) {
        break;
      }
      end := i + 1;
      i := i + 1;
    }
  }

  lemma ScanStep(s: string, from: nat, code: string)
    requires from <= |s|
    ensures Next(s, from).None? ==> Scan(s, from, code) == None
    ensures Next(s, from).Some? ==>
      var c := Next(s, from).value;
      Scan(s, from, code) == if Answers(s, c, code) then Some(Label(s, c.mark + 1)) else Scan(s, c.mark + 1, code)
  {
    hide Next, Answers, Label;
  }

  /** The inner loop of `description_label_for_code`. */
  method ScanSegment(segment: string, code: string) returns (found: Option<string>)
    ensures found == Scan(segment, 0, code)
  {
    hide IsWhitespace, IsDelimiter, Label, FindDigit, RunEnd, SkipBlank, Scan;
    var searchStart := 0;
    while searchStart < |segment|
      invariant searchStart <= |segment| && Scan(segment, 0, code) == Scan(segment, searchStart, code)
      decreases |segment| - searchStart
    {
      ScanStep(segment, searchStart, code);
      var digitStart := FindDigit(segment, searchStart);
      if digitStart == |segment| {
        return None;
      }
      var digitEnd := DigitRunEnd(segment, digitStart);
      var mark := SkipBlank(segment, digitEnd);
      if mark == |segment| {
        return None;
      }
      ghost var c := Candidate(digitStart, digitEnd, mark);
      assert Next(segment, searchStart) == Some(c);
      if IsDelimiter(segment[mark]) && segment[digitStart..digitEnd] == code {
        var text := Label(segment, mark + 1);
        if text != "" {
          return Some(text);
        }
      }
      assert !Answers(segment, c, code);
      searchStart := mark + 1;
    }
    ScanStep(segment, searchStart, code);
    found := None;
  }

  /** `description_label_for_code`: the outer loop, over segments. */
  method DescriptionLabelForCode(description: string, code: string) returns (found: Option<string>)
    ensures found == LabelFor(description, code)
  {
    hide Scan, Split;
    var segments := Split(description);
    var n := 0;
    while n < |segments|
      invariant n <= |segments| && LabelFor(description, code) == FirstLabel(segments[n..], code)
    {
      var inSegment := ScanSegment(segments[n], code);
      assert segments[n..][0] == segments[n] && segments[n..][1..] == segments[n + 1..];
      if inSegment.Some? {
        return inSegment;
      }
      n := n + 1;
    }
    found := None;
  }

  // ---- printing a map and reading it back ----

  datatype Entry = Entry(code: string, meaning: string)

  function PrintEntry(e: Entry): string {
    e.code + "、" + e.meaning
  }

  function PrintEntries(entries: seq<Entry>): string {
    if entries == [] then "" else PrintEntry(entries[0]) + "；" + PrintEntries(entries[1..])
  }

  function Print(prefix: string, entries: seq<Entry>): string {
    prefix + "：" + PrintEntries(entries)
  }

  predicate NoSeparator(s: string) { forall i :: 0 <= i < |s| ==> !IsSeparator(s[i]) }
  predicate NoDigit(s: string) { forall i :: 0 <= i < |s| ==> !IsDigit(s[i]) }
  predicate AllDigits(s: string) { forall i :: 0 <= i < |s| ==> IsDigit(s[i]) }

  ghost predicate ValidEntry(e: Entry) {
    && e.code != "" && AllDigits(e.code)
    && e.meaning != "" && Trimmed(LabelEdge, e.meaning) && NoSeparator(e.meaning) && NoDigit(e.meaning)
  }

  ghost predicate ValidEntries(entries: seq<Entry>) {
    forall i :: 0 <= i < |entries| ==> ValidEntry(entries[i])
  }

  function FirstEntry(entries: seq<Entry>, code: string): Option<string> {
    if entries == [] then None
    else if entries[0].code == code then Some(entries[0].meaning)
    else FirstEntry(entries[1..], code)
  }

  /** The code of the first candidate the scanner would consider, whatever code it looks for. */
  function FirstCode(s: string, from: nat): Option<string>
    requires from <= |s|
    decreases |s| - from
  {
    match Next(s, from)
    case None => None
    case Some(c) => if IsDelimiter(s[c.mark]) then Some(s[c.start..c.end]) else FirstCode(s, c.mark + 1)
  }

  /** The scanner takes nothing in the prefix for a code. */
  predicate QuietPrefix(prefix: string) {
    FirstCode(prefix + "：", 0) == None
  }

  lemma {:induction false} SplitAt(a: string, sep: char, rest: string)
    requires NoSeparator(a) && IsSeparator(sep)
    ensures Split(a + [sep] + rest) == [a] + Split(rest)
  {
    var s := a + [sep] + rest;
    if a == "" {
      assert s[1..] == rest;
    } else {
      assert s[1..] == a[1..] + [sep] + rest;
      SplitAt(a[1..], sep, rest);
      assert [a[0]] + a[1..] == a;
    }
  }

  lemma {:induction false} SplitWhole(a: string)
    requires NoSeparator(a)
    ensures Split(a) == [a]
  {
    if a != "" {
      SplitWhole(a[1..]);
      assert [a[0]] + a[1..] == a;
    }
  }

  lemma FindDigitIs(s: string, from: nat, r: nat)
    requires from <= r <= |s| && (r < |s| ==> IsDigit(s[r])) && forall k :: from <= k < r ==> !IsDigit(s[k])
    ensures FindDigit(s, from) == r
  {
  }

  lemma RunEndIs(s: string, start: nat, r: nat)
    requires start <= r <= |s| && (r < |s| ==> !IsDigit(s[r])) && forall k :: start <= k < r ==> IsDigit(s[k])
    ensures RunEnd(s, start) == r
  {
  }

  lemma SkipBlankIs(s: string, start: nat, r: nat)
    requires start <= r <= |s| && (r < |s| ==> !IsWhitespace(s[r])) && forall k :: start <= k < r ==> IsWhitespace(s[k])
    ensures SkipBlank(s, start) == r
  {
  }

  lemma NextIs(s: string, from: nat, c: Candidate)
    requires from <= c.start < c.end <= c.mark < |s|
    requires forall k :: from <= k < c.start ==> !IsDigit(s[k])
    requires (forall k :: c.start <= k < c.end ==> IsDigit(s[k])) && !IsDigit(s[c.end])
    requires (forall k :: c.end <= k < c.mark ==> IsWhitespace(s[k])) && !IsWhitespace(s[c.mark])
    ensures Next(s, from) == Some(c)
  {
    FindDigitIs(s, from, c.start);
    RunEndIs(s, c.start, c.end);
    SkipBlankIs(s, c.end, c.mark);
  }

  lemma NextFacts(s: string, from: nat)
    requires from <= |s| && Next(s, from).Some?
    ensures var c := Next(s, from).value;
      && (forall k :: from <= k < c.start ==> !IsDigit(s[k]))
      && (forall k :: c.start <= k < c.end ==> IsDigit(s[k])) && !IsDigit(s[c.end])
      && (forall k :: c.end <= k < c.mark ==> IsWhitespace(s[k])) && !IsWhitespace(s[c.mark])
  {
  }

  lemma ColonStops(head: string, from: nat)
    requires head != "" && head[|head| - 1] == '：' && from <= |head|
    ensures FindDigit(head, from) < |head| ==> Next(head, from).Some?
  {
    hide IsDelimiter;
    var start := FindDigit(head, from);
    if start < |head| {
      var end := RunEnd(head, start);
      assert end < |head|;
      assert !IsWhitespace('：');
    }
  }

  /** Candidates of a stretch that ends with the colon do not depend on what follows. */
  lemma NextInHead(head: string, tail: string, from: nat)
    requires head != "" && head[|head| - 1] == '：' && from <= |head|
    ensures Next(head, from).Some? ==> Next(head + tail, from) == Next(head, from)
    ensures Next(head, from).None? ==> Next(head + tail, from) == Next(head + tail, |head|)
  {
    var s := head + tail;
    if Next(head, from).Some? {
      NextFacts(head, from);
      var c := Next(head, from).value;
      forall k | 0 <= k < |head| ensures s[k] == head[k] { }
      NextIs(s, from, c);
    } else {
      ColonStops(head, from);
      forall k | from <= k < FindDigit(s, |head|) ensures !IsDigit(s[k]) {
        if k < |head| { assert s[k] == head[k]; }
      }
      FindDigitIs(s, from, FindDigit(s, |head|));
    }
  }

  lemma NoDigitNoNext(s: string, from: nat)
    requires from <= |s| && forall k :: from <= k < |s| ==> !IsDigit(s[k])
    ensures Next(s, from) == None
  {
    FindDigitIs(s, from, |s|);
  }

  lemma CommaMarks()
    ensures IsDelimiter('、') && !IsWhitespace('、') && !IsDigit('、')
  {
  }

  /** The scanner at a printed entry that ends the segment. */
  lemma ScanEntry(head: string, e: Entry, code: string)
    requires ValidEntry(e)
    ensures Scan(head + PrintEntry(e), |head|, code) == if e.code == code then Some(e.meaning) else None
  {
    hide IsWhitespace, IsDelimiter, IsSeparator, Next, FindDigit, RunEnd, SkipBlank, Trim, Strips;
    var s, at := head + PrintEntry(e), |head|;
    var end := at + |e.code|;
    assert s == head + e.code + "、" + e.meaning;
    assert forall k :: at <= k < end ==> s[k] == e.code[k - at];
    assert s[end] == '、';
    assert forall k :: end < k < |s| ==> s[k] == e.meaning[k - end - 1];
    assert s[at..end] == e.code && s[end + 1..] == e.meaning;
    CommaMarks();
    NextIs(s, at, Candidate(at, end, end));
    TrimOfTrimmed(LabelEdge, e.meaning);
    NoDigitNoNext(s, end + 1);
  }

  /** Scanning through a stretch without candidates that ends with the colon. */
  lemma {:induction false} ScanQuiet(head: string, tail: string, from: nat, code: string)
    requires head != "" && head[|head| - 1] == '：' && from <= |head|
    requires FirstCode(head, from) == None
    ensures Scan(head + tail, from, code) == Scan(head + tail, |head|, code)
    decreases |head| - from
  {
    hide IsWhitespace, Label, Next, IsDelimiter;
    NextInHead(head, tail, from);
    if Next(head, from).Some? {
      var c := Next(head, from).value;
      assert (head + tail)[c.mark] == head[c.mark];
      ScanQuiet(head, tail, c.mark + 1, code);
    }
  }

  /** Scanning up to a candidate, when the segment goes on with something that leaves a label. */
  lemma {:induction false} ScanLoud(head: string, tail: string, from: nat, code: string)
    requires head != "" && head[|head| - 1] == '：' && from <= |head|
    requires FirstCode(head, from) == Some(code)
    requires tail != "" && !Strips(LabelEdge, tail[0])
    ensures Scan(head + tail, from, code).Some?
    decreases |head| - from
  {
    hide IsWhitespace, Next, IsDelimiter, Trim;
    var s := head + tail;
    NextInHead(head, tail, from);
    var c := Next(head, from).value;
    assert s[c.mark] == head[c.mark] && s[c.start..c.end] == head[c.start..c.end];
    if IsDelimiter(head[c.mark]) {
      var rest := s[c.mark + 1..];
      assert rest[|head| - c.mark - 1] == tail[0];
      assert tail[0] in rest;
      TrimEmpty(LabelEdge, rest);
    } else {
      ScanLoud(head, tail, c.mark + 1, code);
    }
  }

  lemma {:induction false} ReadEntries(entries: seq<Entry>, code: string)
    requires ValidEntries(entries)
    ensures FirstLabel(Split(PrintEntries(entries)), code) == FirstEntry(entries, code)
  {
    if entries == [] {
      assert Scan("", 0, code) == None;
    } else {
      var e := entries[0];
      SplitAt(PrintEntry(e), '；', PrintEntries(entries[1..]));
      assert PrintEntries(entries) == PrintEntry(e) + ['；'] + PrintEntries(entries[1..]);
      assert "" + PrintEntry(e) == PrintEntry(e);
      ScanEntry("", e, code);
      ReadEntries(entries[1..], code);
    }
  }

  /** The segment a printed map starts with. */
  lemma SplitPrinted(prefix: string, entries: seq<Entry>)
    requires NoSeparator(prefix) && ValidEntries(entries)
    ensures Split(Print(prefix, entries)) ==
      if entries == [] then [prefix + "："]
      else [prefix + "：" + PrintEntry(entries[0])] + Split(PrintEntries(entries[1..]))
  {
    if entries == [] {
      assert Print(prefix, entries) == prefix + "：";
      SplitWhole(prefix + "：");
    } else {
      var first := prefix + "：" + PrintEntry(entries[0]);
      assert NoSeparator(PrintEntry(entries[0]));
      assert NoSeparator(first);
      assert Print(prefix, entries) == first + ['；'] + PrintEntries(entries[1..]);
      SplitAt(first, '；', PrintEntries(entries[1..]));
    }
  }

  /** Reading back a printed map finds the first label of a listed code and nothing for other codes. */
  lemma RoundTrip(prefix: string, entries: seq<Entry>, code: string)
    requires NoSeparator(prefix) && QuietPrefix(prefix) && ValidEntries(entries)
    ensures LabelFor(Print(prefix, entries), code) == FirstEntry(entries, code)
  {
    var head := prefix + "：";
    SplitPrinted(prefix, entries);
    if entries == [] {
      assert head + "" == head;
      ScanQuiet(head, "", 0, code);
      NoDigitNoNext(head, |head|);
      assert FirstLabel([head][1..], code) == None;
    } else {
      var e := entries[0];
      ScanQuiet(head, PrintEntry(e), 0, code);
      ScanEntry(head, e, code);
      ReadEntries(entries[1..], code);
    }
  }

  /** A candidate in the prefix makes some printed map answer for a code it does not list. */
  lemma LoudPrefixFails(prefix: string) returns (entries: seq<Entry>, code: string)
    requires NoSeparator(prefix) && !QuietPrefix(prefix)
    ensures ValidEntries(entries)
    ensures LabelFor(Print(prefix, entries), code) != FirstEntry(entries, code)
  {
    var head := prefix + "：";
    code := FirstCode(head, 0).value;
    var e := Entry(if code == "0" then "1" else "0", "x");
    entries := [e];
    assert FirstEntry(entries, code) == None by {
      assert FirstEntry(entries[1..], code) == None;
    }
    SplitPrinted(prefix, entries);
    assert !Strips(LabelEdge, PrintEntry(e)[0]);
    ScanLoud(head, PrintEntry(e), 0, code);
  }

  /** The round trip holds for every map and every code exactly when the prefix is quiet. */
  lemma RoundTripExactly(prefix: string)
    requires NoSeparator(prefix)
    ensures QuietPrefix(prefix) <==>
      forall entries, code :: ValidEntries(entries) ==>
          LabelFor(Print(prefix, entries), code) == FirstEntry(entries, code)
  {
    if QuietPrefix(prefix) {
      forall entries, code | ValidEntries(entries)
        ensures LabelFor(Print(prefix, entries), code) == FirstEntry(entries, code)
      {
        RoundTrip(prefix, entries, code);
      }
    } else {
      var entries, code := LoudPrefixFails(prefix);
    }
  }

  /** Only whitespace stands between the digit at `i` and position `j`. */
  ghost predicate DigitReaches(s: string, i: int, j: int) {
    0 <= i < j <= |s| && IsDigit(s[i]) && forall k :: i < k < j ==> IsWhitespace(s[k])
  }

  /** No digit is followed, after optional whitespace, by a delimiter or by the end of the prefix. */
  ghost predicate NoDigitBeforeDelimiter(prefix: string) {
    forall i, j :: DigitReaches(prefix, i, j) ==> j < |prefix| && !IsDelimiter(prefix[j])
  }

  /** A check on the characters that is enough for a quiet prefix. */
  lemma {:induction false} QuietFrom(prefix: string, from: nat)
    requires NoDigitBeforeDelimiter(prefix) && from <= |prefix| + 1
    ensures FirstCode(prefix + "：", from) == None
    decreases |prefix| + 1 - from
  {
    hide IsWhitespace, IsDelimiter, FindDigit, RunEnd, SkipBlank, Next;
    var s := prefix + "：";
    if Next(s, from).Some? {
      NextFacts(s, from);
      var c := Next(s, from).value;
      assert IsDigit(s[c.end - 1]) && s[|prefix|] == '：';
      var i, j := c.end - 1, c.mark;
      assert i < |prefix| && prefix[i] == s[i];
      assert forall k :: i < k < j ==> k < |prefix| && prefix[k] == s[k];
      assert DigitReaches(prefix, i, j);
      QuietFrom(prefix, j + 1);
    }
  }

  // ---- quiet prefixes, character by character ----

  /** The last character before `i` that is not whitespace, or `from - 1`. */
  function LastVisible(s: string, from: nat, i: nat): (j: int)
    requires from <= i <= |s|
    ensures from - 1 <= j < i && (j >= from ==> !IsWhitespace(s[j]))
    ensures forall k :: j < k < i ==> IsWhitespace(s[k])
    decreases i
  {
    if i == from || !IsWhitespace(s[i - 1]) then i - 1 else LastVisible(s, from, i - 1)
  }

  /**
   The scanner steps over this digit: it stands behind whitespace, and before that comes a digit it has not
   stepped over.
   */
  predicate Swallowed(s: string, from: nat, i: nat)
    requires from <= i < |s|
    decreases i
  {
    && i > from && IsDigit(s[i]) && IsWhitespace(s[i - 1])
    && var j := LastVisible(s, from, i);
    j >= from && IsDigit(s[j]) && !Swallowed(s, from, j)
  }

  /** If `d` is a delimiter behind a digit, the scanner steps over that digit. */
  predicate Unread(s: string, from: nat, d: nat)
    requires from <= d < |s|
  {
    var i := LastVisible(s, from, d);
    IsDelimiter(s[d]) && i >= from && IsDigit(s[i]) ==> Swallowed(s, from, i)
  }

  ghost predicate AllUnread(s: string, from: nat) {
    forall d :: from <= d < |s| ==> Unread(s, from, d)
  }

  lemma LastVisibleIs(s: string, from: nat, i: nat, j: int)
    requires from <= i <= |s| && from - 1 <= j < i && (j >= from ==> !IsWhitespace(s[j]))
    requires forall k :: j < k < i ==> IsWhitespace(s[k])
    ensures LastVisible(s, from, i) == j
  {
    hide IsWhitespace;
    var r := LastVisible(s, from, i);
    var a, b := if r >= from then s[r] else ' ', if j >= from then s[j] else ' ';
  }

  /** Behind a visible character, what comes before it does not matter. */
  lemma LastVisibleBehind(s: string, from: nat, m: nat, i: nat)
    requires from <= m < i <= |s| && !IsWhitespace(s[m])
    ensures LastVisible(s, from, i) == LastVisible(s, m + 1, i) >= m
  {
    hide IsWhitespace;
    LastVisibleIs(s, from, i, LastVisible(s, m + 1, i));
  }

  /** The digit before a candidate's mark is not stepped over, and a digit at the mark is. */
  lemma MarkSwallowed(s: string, from: nat)
    requires from <= |s| && Next(s, from).Some?
    ensures var c := Next(s, from).value;
      && LastVisible(s, from, c.mark) == c.end - 1 && IsDigit(s[c.end - 1]) && !Swallowed(s, from, c.end - 1)
      && (IsDigit(s[c.mark]) ==> Swallowed(s, from, c.mark))
  {
    hide FindDigit, RunEnd, SkipBlank, Next;
    NextFacts(s, from);
    var c := Next(s, from).value;
    LastVisibleIs(s, from, c.mark, c.end - 1);
    if c.end - 1 == c.start && c.start > from {
      assert LastVisible(s, from, c.start) < c.start;
    }
  }

  lemma {:induction false} SwallowedBehind(s: string, from: nat, i: nat)
    requires from <= |s| && Next(s, from).Some? && Next(s, from).value.mark < i < |s|
    ensures Swallowed(s, from, i) <==> Swallowed(s, Next(s, from).value.mark + 1, i)
    decreases i
  {
    hide FindDigit, RunEnd, SkipBlank, Next, IsWhitespace;
    NextFacts(s, from);
    var m := Next(s, from).value.mark;
    if i > m + 1 {
      LastVisibleBehind(s, from, m, i);
      MarkSwallowed(s, from);
      var j := LastVisible(s, from, i);
      if j > m { SwallowedBehind(s, from, j); }
    }
  }

  /** Up to the mark no delimiter stands behind a digit. */
  lemma UnreadBefore(s: string, from: nat, d: nat)
    requires from <= |s| && Next(s, from).Some? && from <= d < Next(s, from).value.mark
    ensures Unread(s, from, d)
  {
    hide FindDigit, RunEnd, SkipBlank, Next;
    NextFacts(s, from);
    var c := Next(s, from).value;
    if IsDelimiter(s[d]) {
      assert d < c.start;
    }
  }

  lemma UnreadBehind(s: string, from: nat, d: nat)
    requires from <= |s| && Next(s, from).Some? && Next(s, from).value.mark < d < |s|
    ensures Unread(s, from, d) <==> Unread(s, Next(s, from).value.mark + 1, d)
  {
    hide FindDigit, RunEnd, SkipBlank, Next, IsWhitespace, IsDelimiter, Swallowed;
    NextFacts(s, from);
    var m := Next(s, from).value.mark;
    LastVisibleBehind(s, from, m, d);
    MarkSwallowed(s, from);
    var i := LastVisible(s, from, d);
    if i > m { SwallowedBehind(s, from, i); }
  }

  lemma {:induction false} FirstCodeExactly(s: string, from: nat)
    requires s != "" && s[|s| - 1] == '：' && from <= |s|
    ensures FirstCode(s, from) == None <==> AllUnread(s, from)
    decreases |s| - from
  {
    hide FindDigit, RunEnd, SkipBlank, Next, IsWhitespace, IsDelimiter, Swallowed, Unread, LastVisible;
    if Next(s, from).None? {
      ColonStops(s, from);
      NoDigitsUnread(s, from);
    } else {
      var m := Next(s, from).value.mark;
      var behind := m + 1;
      if IsDelimiter(s[m]) {
        ReadAt(s, from);
      } else {
        FirstCodeExactly(s, behind);
        if AllUnread(s, behind) {
          forall d | from <= d < |s| ensures Unread(s, from, d) {
            if d < m { UnreadBefore(s, from, d); }
            if d == m { PlainUnread(s, from, d); }
            if d > m { UnreadBehind(s, from, d); }
          }
        }
        if AllUnread(s, from) {
          forall d | behind <= d < |s| ensures Unread(s, behind, d) {
            UnreadBehind(s, from, d);
          }
        }
      }
    }
  }

  lemma PlainUnread(s: string, from: nat, d: nat)
    requires from <= d < |s| && !IsDelimiter(s[d])
    ensures Unread(s, from, d)
  {
  }

  lemma NoDigitsUnread(s: string, from: nat)
    requires from <= |s| && FindDigit(s, from) == |s|
    ensures AllUnread(s, from)
  {
    hide IsWhitespace, IsDelimiter, Swallowed;
  }

  /** A candidate before a delimiter is read. */
  lemma ReadAt(s: string, from: nat)
    requires from <= |s| && Next(s, from).Some? && IsDelimiter(s[Next(s, from).value.mark])
    ensures !AllUnread(s, from)
  {
    hide Next, IsWhitespace, IsDelimiter, Swallowed;
    MarkSwallowed(s, from);
    assert !Unread(s, from, Next(s, from).value.mark);
  }

  /**
   A prefix is quiet exactly when each of its delimiters, the colon behind it included, that stands behind a
   digit stands behind one the scanner steps over.
   */
  lemma QuietExactly(prefix: string)
    ensures QuietPrefix(prefix) <==> AllUnread(prefix + "：", 0)
  {
    FirstCodeExactly(prefix + "：", 0);
  }

  /** The round trip, as a condition on the characters of the prefix. */
  lemma RoundTripByCharacters(prefix: string)
    requires NoSeparator(prefix)
    ensures AllUnread(prefix + "：", 0) <==>
      forall entries, code :: ValidEntries(entries) ==>
          LabelFor(Print(prefix, entries), code) == FirstEntry(entries, code)
  {
    hide AllUnread, QuietPrefix, LabelFor, Print;
    QuietExactly(prefix);
    RoundTripExactly(prefix);
  }

  // ---- other ways of writing an entry ----

  lemma DigitsAre(c: char)
    ensures IsDigit(c) <==> c in "0123456789"
  {
    if IsDigit(c) { assert "0123456789"[c as int - '0' as int] == c; }
  }

  lemma MarksAre(c: char)
    ensures IsDelimiter(c) <==> c in "、:：,"
    ensures IsSeparator(c) <==> c in "；;"
  {
  }

  /**
   The scanner reads an entry with any of the four delimiters, with whitespace before it, with a semicolon of
   either width behind it, and with marks around its label.
   */
  lemma AnyMarksRead(code: string, blank: string, delimiter: char, left: string, text: string, right: string,
                     rest: string)
    requires code != "" && (forall k :: 0 <= k < |code| ==> code[k] in "0123456789") && IsBlank(blank)
    requires delimiter in "、:：,"
    requires forall c :: c in left || c in right ==> c == ' ' || c == '，' || c == ',' || c == '。'
    requires text != "" && Trimmed(LabelEdge, text) && forall k :: 0 <= k < |text| ==> text[k] !in "；;"
    requires rest == "" || rest[0] in "；;"
    ensures LabelFor(code + blank + [delimiter] + left + text + right + rest, code) == Some(text)
  {
    hide Trim, Trimmed, IsWhitespace, IsDigit, IsDelimiter, IsSeparator, Split, Scan;
    var segment := code + blank + [delimiter] + (left + text + right);
    forall c: char ensures (IsDigit(c) <==> c in "0123456789") && (IsDelimiter(c) <==> c in "、:：,")
      && (IsSeparator(c) <==> c in "；;")
    {
      DigitsAre(c);
      MarksAre(c);
    }
    SegmentPlain(code, blank, delimiter, left, text, right);
    FirstSegment(segment, rest);
    ScanMarks(code, blank, delimiter, left, text, right);
    var description := code + blank + [delimiter] + left + text + right + rest;
    assert description == segment + rest;
    assert FirstLabel(Split(description), code) == Some(text);
  }

  lemma SegmentPlain(code: string, blank: string, delimiter: char, left: string, text: string, right: string)
    requires (forall k :: 0 <= k < |code| ==> IsDigit(code[k])) && IsBlank(blank) && IsDelimiter(delimiter)
    requires forall c :: c in left || c in right ==> c == ' ' || c == '，' || c == ',' || c == '。'
    requires forall k :: 0 <= k < |text| ==> !IsSeparator(text[k])
    ensures NoSeparator(code + blank + [delimiter] + (left + text + right))
  {
    var edges := left + text + right;
    forall k | 0 <= k < |edges| ensures !IsSeparator(edges[k]) {
      assert k < |left| ==> left[k] in left;
      assert k >= |left| + |text| ==> right[k - |left| - |text|] in right;
    }
    forall k | 0 <= k < |blank| ensures !IsSeparator(blank[k]) { assert blank[k] in blank; }
  }

  /** The first segment ends at the first semicolon. */
  lemma FirstSegment(segment: string, rest: string)
    requires NoSeparator(segment) && (rest == "" || IsSeparator(rest[0]))
    ensures Split(segment + rest) != [] && Split(segment + rest)[0] == segment
  {
    hide IsSeparator;
    if rest == "" {
      assert segment + rest == segment;
      SplitWhole(segment);
    } else {
      SplitAt(segment, rest[0], rest[1..]);
      assert segment + rest == segment + [rest[0]] + rest[1..];
    }
  }

  lemma ScanMarks(code: string, blank: string, delimiter: char, left: string, text: string, right: string)
    requires code != "" && (forall k :: 0 <= k < |code| ==> IsDigit(code[k])) && IsBlank(blank)
    requires IsDelimiter(delimiter)
    requires forall c :: c in left || c in right ==> c == ' ' || c == '，' || c == ',' || c == '。'
    requires text != "" && Trimmed(LabelEdge, text)
    ensures Scan(code + blank + [delimiter] + (left + text + right), 0, code) == Some(text)
  {
    hide Trim, Trimmed;
    var s, mark := code + blank + [delimiter] + (left + text + right), |code| + |blank|;
    forall k | 0 <= k < |code| ensures IsDigit(s[k]) { assert s[k] == code[k]; }
    forall k | |code| <= k < mark ensures IsWhitespace(s[k]) && !IsDigit(s[k]) {
      assert s[k] == blank[k - |code|] && blank[k - |code|] in blank;
    }
    assert s[mark] == delimiter && !IsWhitespace(delimiter) && !IsDigit(delimiter);
    NextIs(s, 0, Candidate(0, |code|, mark));
    assert s[0..|code|] == code && s[mark + 1..] == left + text + right;
    TrimMargins(LabelEdge, left, text, right);
  }
}
