/** Decimal numerals, as `to_string` and `format!` print them. */
module Decimal {
  function DigitChar(d: nat): char
    requires d < 10
  {
    ('0' as int + d) as char
  }

  function Digits(n: nat): (r: string)
    ensures |r| >= 1
    ensures forall k :: 0 <= k < |r| ==> '0' <= r[k] <= '9'
  {
    if n < 10 then [DigitChar(n)] else Digits(n / 10) + [DigitChar(n % 10)]
  }

  /** The number a run of digits stands for. */
  function Value(s: string): nat
    requires forall k :: 0 <= k < |s| ==> '0' <= s[k] <= '9'
  {
    if s == "" then 0 else Value(s[..|s| - 1]) * 10 + (s[|s| - 1] as int - '0' as int)
  }

  lemma {:induction false} ValueOfDigits(n: nat)
    ensures Value(Digits(n)) == n
  {
    if n >= 10 {
      ValueOfDigits(n / 10);
      assert Digits(n)[..|Digits(n)| - 1] == Digits(n / 10);
    } else {
      assert Digits(n)[..0] == "";
    }
  }

  /** `{:0width}`: zeros in front up to the width. */
  function Pad(n: nat, width: nat): string {
    Zeros(width - |Digits(n)|) + Digits(n)
  }

  function Zeros(k: int): (r: string)
    ensures |r| == if k > 0 then k else 0
    ensures forall i :: 0 <= i < |r| ==> r[i] == '0'
  {
    if k <= 0 then "" else "0" + Zeros(k - 1)
  }

  lemma {:induction false} ValueOfZeros(z: string, s: string)
    requires forall i :: 0 <= i < |z| ==> z[i] == '0'
    requires forall k :: 0 <= k < |s| ==> '0' <= s[k] <= '9'
    ensures forall k :: 0 <= k < |z + s| ==> '0' <= (z + s)[k] <= '9'
    ensures Value(z + s) == Value(s)
  {
    if s == "" {
      assert z + s == z;
      if z != "" {
        ValueOfZeros(z[..|z| - 1], "");
        assert z[..|z| - 1] + "" == z[..|z| - 1];
      }
    } else {
      ValueOfZeros(z, s[..|s| - 1]);
      assert (z + s)[..|z + s| - 1] == z + s[..|s| - 1];
    }
  }

  lemma PadValue(n: nat, width: nat)
    ensures forall k :: 0 <= k < |Pad(n, width)| ==> '0' <= Pad(n, width)[k] <= '9'
    ensures Value(Pad(n, width)) == n
  {
    ValueOfZeros(Zeros(width - |Digits(n)|), Digits(n));
    ValueOfDigits(n);
  }

  lemma DigitsSnoc(v: nat, d: nat)
    requires d < 10
    ensures Digits(v * 10 + d) == (if v == 0 then [] else Digits(v)) + [DigitChar(d)]
  {
    assert (v * 10 + d) / 10 == v && (v * 10 + d) % 10 == d;
  }

  lemma PadSnoc(v: nat, d: nat, width: nat)
    requires d < 10 && width >= 1
    ensures Pad(v * 10 + d, width + 1) == Pad(v, width) + [DigitChar(d)]
  {
    DigitsSnoc(v, d);
    if v == 0 {
      assert Digits(v) == "0";
      assert Zeros(width) == Zeros(width - 1) + "0";
    }
  }

  /** A run of digits is the padded numeral of its value. */
  lemma {:induction false} PadOfValue(s: string)
    requires s != "" && forall k :: 0 <= k < |s| ==> '0' <= s[k] <= '9'
    ensures Pad(Value(s), |s|) == s
  {
    hide Value, Pad, Digits, Zeros;
    var front, last := s[..|s| - 1], s[|s| - 1];
    var d: nat := last as int - '0' as int;
    assert s == front + [last];
    ValueSnoc(front, last);
    if front == "" {
      OneDigit(d);
    } else {
      PadOfValue(front);
      PadSnoc(Value(front), d, |front|);
    }
  }

  lemma ValueSnoc(front: string, c: char)
    requires forall k :: 0 <= k < |front| ==> '0' <= front[k] <= '9'
    requires '0' <= c <= '9'
    ensures var s := front + [c];
      (forall k :: 0 <= k < |s| ==> '0' <= s[k] <= '9') && Value(s) == Value(front) * 10 + (c as int - '0' as int)
  {
    assert (front + [c])[..|front + [c]| - 1] == front;
  }

  lemma OneDigit(d: nat)
    requires d < 10
    ensures Pad(d, 1) == [DigitChar(d)] && Value("") == 0
  {
    assert Digits(d) == [DigitChar(d)];
  }

  /** Padded numerals of different numbers differ. */
  lemma PadInjective(a: nat, b: nat, width: nat)
    requires Pad(a, width) == Pad(b, width)
    ensures a == b
  {
    PadValue(a, width);
    PadValue(b, width);
  }

  predicate IsDigits(s: string) {
    forall i :: 0 <= i < |s| ==> '0' <= s[i] <= '9'
  }

  /** Names that end in an underscore and digits share those digits when they are equal. */
  lemma SameTail(a: string, s: string, b: string, t: string)
    requires a + "_" + s == b + "_" + t && IsDigits(s) && IsDigits(t)
    ensures s == t && a == b
  {
    var x, y := a + "_" + s, b + "_" + t;
    assert x[|a|] == '_' && y[|b|] == '_';
    forall n | |a| < n < |x| ensures x[n] != '_' { assert x[n] == s[n - |a| - 1]; }
    forall n | |b| < n < |y| ensures y[n] != '_' { assert y[n] == t[n - |b| - 1]; }
    assert |a| == |b|;
    assert s == x[|a| + 1..] && t == y[|b| + 1..] && a == x[..|a|] && b == y[..|b|];
  }

  lemma {:induction false} FirstDigit(n: nat)
    requires n > 0
    ensures Digits(n)[0] != '0'
  {
    if n >= 10 { FirstDigit(n / 10); }
  }

  /** A run of digits with no zero in front is no longer than its value's numeral. */
  lemma NoZeroInFront(s: string)
    requires IsDigits(s) && s != ""
    ensures s[0] != '0' ==> |Digits(Value(s))| >= |s|
  {
    PadOfValue(s);
    var zeros := Zeros(|s| - |Digits(Value(s))|);
    assert s == zeros + Digits(Value(s));
  }

  /** `s` writes the number in decimal, without zeros in front. */
  predicate IsNumeral(s: string, n: nat) {
    s != "" && IsDigits(s) && (|s| == 1 || s[0] != '0') && Value(s) == n
  }

  lemma NumeralIs(s: string, n: nat)
    ensures IsNumeral(s, n) <==> s == Digits(n)
  {
    if IsNumeral(s, n) {
      PadOfValue(s);
      NoZeroInFront(s);
    }
    if s == Digits(n) {
      ValueOfDigits(n);
      if n > 0 { FirstDigit(n); }
    }
  }
}

/** Words compared without regard to the case of ASCII letters. */
module Words {
  function LowerAscii(c: char): char {
    if 'A' <= c <= 'Z' then (c as int + 32) as char else c
  }

  function Lower(s: string): (r: string)
    ensures |r| == |s|
  {
    seq(|s|, i requires 0 <= i < |s| => LowerAscii(s[i]))
  }

  predicate EqIgnoreCase(a: string, b: string) {
    Lower(a) == Lower(b)
  }

  /** `s` is `word`, a word in lower case, in any case. */
  predicate IsWord(s: string, word: string) {
    && |s| == |word|
    && forall i :: 0 <= i < |s| ==> s[i] == word[i] || ('A' <= s[i] <= 'Z' && s[i] as int + 32 == word[i] as int)
  }

  predicate InLowerCase(word: string) {
    forall i :: 0 <= i < |word| ==> !('A' <= word[i] <= 'Z')
  }

  lemma WordIs(s: string, word: string)
    requires InLowerCase(word)
    ensures IsWord(s, word) <==> Lower(s) == word
  {
  }
}

/** Samples, their tag names and the table they are routed to (src/types.rs, src/sink.rs). */
module Samples {
  import opened Text
  import opened Words
  import opened Options
  import opened StatusMap
  import Decimal

  /**
   A value as the service receives it. Floats are kept as their printed text and whether they are zero;
   texts carry the result of parsing them as a number, which is not part of this model.
   */
  datatype ValueKind =
    | BoolValue(b: bool)
    | IntValue(i: int)
    | FloatValue(printed: string, zero: bool)
    | TextValue(text: string, number: Option<bool>)

  datatype Sample = Sample(nodeId: string, alias: string, description: string, value: ValueKind, sourceTs: int)

  /** The text behind the first `;s=`. */
  function AfterMarker(s: string): Option<string> {
    if |s| < 3 then None
    else if s[..3] == ";s=" then Some(s[3..])
    else AfterMarker(s[1..])
  }

  function TagName(x: Sample): string {
    match AfterMarker(x.nodeId)
    case Some(tag) => if Trim(Whitespace, tag) != "" then tag else x.alias
    case None => x.alias
  }

  function BeforeDot(s: string): string {
    if s == "" || s[0] == '.' then "" else [s[0]] + BeforeDot(s[1..])
  }

  function TagPrefix(x: Sample): Option<string> {
    var prefix := Trim(Whitespace, BeforeDot(TagName(x)));
    if prefix == "" then None else Some(prefix)
  }

  /** `SinkTableRouter`: prefixes with their own table, and a default. */
  datatype Router = Router(defaultTable: string, routes: map<string, string>) {
    function TableFor(x: Sample): string {
      match TagPrefix(x)
      case Some(prefix) => if prefix in routes then routes[prefix] else defaultTable
      case None => defaultTable
    }
  }

  function BoolText(b: bool): string { if b then "true" else "false" }

  function IntText(i: int): string {
    if i < 0 then "-" + Decimal.Digits(-i) else Decimal.Digits(i)
  }

  /** `raw_value_string`, which is also `tag_state`. */
  function RawText(v: ValueKind): string {
    match v
    case BoolValue(b) => BoolText(b)
    case IntValue(i) => IntText(i)
    case FloatValue(printed, _) => printed
    case TextValue(text, _) => text
  }

  /** `raw_numeric_value`, down to whether the number is zero. */
  function RawZero(v: ValueKind): Option<bool> {
    match v
    case BoolValue(b) => Some(!b)
    case IntValue(i) => Some(i == 0)
    case FloatValue(_, zero) => Some(zero)
    case TextValue(text, number) =>
      if EqIgnoreCase(Trim(Whitespace, text), "true") then Some(false)
      else if EqIgnoreCase(Trim(Whitespace, text), "false") then Some(true)
      else number
  }

  function StatusCode(v: ValueKind): string {
    match v
    case BoolValue(b) => if b then "1" else "0"
    case TextValue(text, _) =>
      if EqIgnoreCase(Trim(Whitespace, text), "true") then "1"
      else if EqIgnoreCase(Trim(Whitespace, text), "false") then "0"
      else text
    case _ => RawText(v)
  }

  predicate IsFsc(x: Sample) {
    var prefix := TagPrefix(x);
    prefix.Some? && (EqIgnoreCase(prefix.value, "FSC1") || EqIgnoreCase(prefix.value, "FSC2"))
  }

  function StatusLabel(x: Sample): Option<string> {
    if IsFsc(x) then LabelFor(x.description, Trim(Whitespace, StatusCode(x.value))) else None
  }

  predicate IsQuietLabel(s: string) { s == "正常" || s == "运行中" }

  /** `tag_value`: the status map decides for FSC points, otherwise the number, otherwise the text. */
  function TagValue(x: Sample): (r: string)
    ensures r == "0" || r == "1"
  {
    match StatusLabel(x)
    case Some(text) => if IsQuietLabel(Trim(Whitespace, text)) then "0" else "1"
    case None => PlainValue(x.value)
  }

  function PlainValue(v: ValueKind): (r: string)
    ensures r == "0" || r == "1"
  {
    match RawZero(v)
    case Some(zero) => if zero then "0" else "1"
    case None => if Trim(Whitespace, RawText(v)) == "" then "0" else "1"
  }

  function BeforeColon(s: string): Option<string> {
    if s == "" then None
    else if s[0] == '：' || s[0] == ':' then Some("")
    else match BeforeColon(s[1..])
      case Some(rest) => Some([s[0]] + rest)
      case None => None
  }

  /** `description_status_prefix`. */
  function StatusPrefix(description: string): Option<string> {
    match BeforeColon(description)
    case Some(prefix) => if Trim(Whitespace, prefix) == "" then None else Some(Trim(Whitespace, prefix))
    case None => None
  }

  function DescriptionOf(x: Sample): string {
    if Trim(Whitespace, x.description) != "" then x.description
    else if Trim(Whitespace, TagName(x)) != "" then TagName(x)
    else ""
  }

  /** `alarm_log_remark`. */
  function Remark(x: Sample): string {
    var description := DescriptionOf(x);
    match StatusLabel(x)
    case None => description
    case Some(text) =>
      match StatusPrefix(description)
      case Some(prefix) => prefix + Trim(Whitespace, text)
      case None => description
  }

  predicate NoColon(s: string) { forall i :: 0 <= i < |s| ==> s[i] != '：' && s[i] != ':' }

  lemma {:induction false} ColonAfter(prefix: string, rest: string)
    requires NoColon(prefix)
    ensures BeforeColon(prefix + "：" + rest) == Some(prefix)
  {
    var s := prefix + "：" + rest;
    if prefix != "" {
      assert s[1..] == prefix[1..] + "：" + rest;
      ColonAfter(prefix[1..], rest);
      assert [prefix[0]] + prefix[1..] == prefix;
    }
  }

  lemma LabelEdgeCoversBlank(s: string)
    requires Trimmed(LabelEdge, s)
    ensures Trim(Whitespace, s) == s
  {
    TrimOfTrimmed(Whitespace, s);
  }

  /**
   The fault flag and the remark of an FSC point whose description is a printed status map: the first
   label listed for its code decides both, and without one the plain value does.
   */
  lemma FscFollowsItsMap(x: Sample, prefix: string, entries: seq<Entry>)
    requires IsFsc(x) && x.description == Print(prefix, entries)
    requires NoSeparator(prefix) && NoColon(prefix) && QuietPrefix(prefix) && ValidEntries(entries)
    requires Trim(Whitespace, prefix) != ""
    ensures var code := Trim(Whitespace, StatusCode(x.value));
      match FirstEntry(entries, code)
      case Some(text) => && (TagValue(x) == "0" <==> IsQuietLabel(text))
                         && Remark(x) == Trim(Whitespace, prefix) + text
      case None => TagValue(x) == PlainValue(x.value) && Remark(x) == x.description
  {
    hide Trim, Print, FirstEntry, LabelFor;
    var code := Trim(Whitespace, StatusCode(x.value));
    RoundTrip(prefix, entries, code);
    FirstEntryTrimmed(entries, code);
    PrintedIsVisible(prefix, entries);
    PrintShape(prefix, entries);
    ColonAfter(prefix, PrintEntries(entries));
  }

  lemma PrintShape(prefix: string, entries: seq<Entry>)
    ensures Print(prefix, entries) == prefix + "：" + PrintEntries(entries)
  {
  }

  lemma {:induction false} FirstEntryTrimmed(entries: seq<Entry>, code: string)
    requires ValidEntries(entries)
    ensures FirstEntry(entries, code).Some? ==>
      Trim(Whitespace, FirstEntry(entries, code).value) == FirstEntry(entries, code).value
  {
    hide Trim;
    if entries != [] {
      assert ValidEntry(entries[0]);
      LabelEdgeCoversBlank(entries[0].meaning);
      FirstEntryTrimmed(entries[1..], code);
    }
  }

  lemma PrintedIsVisible(prefix: string, entries: seq<Entry>)
    requires Trim(Whitespace, prefix) != ""
    ensures Trim(Whitespace, Print(prefix, entries)) != ""
  {
    TrimEmpty(Whitespace, prefix);
    var c :| c in prefix && !Strips(Whitespace, c);
    assert c in Print(prefix, entries);
    TrimEmpty(Whitespace, Print(prefix, entries));
  }
}
