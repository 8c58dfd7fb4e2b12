/** The fault flag and the remark of a sample, told from its value, its node id and its description (src/types.rs). */
module FaultFlags {
  import opened Text
  import opened Words
  import opened Options
  import opened Decimal
  import opened StatusMap
  import opened Samples
  import opened Routing

  ghost predicate IsFscPoint(x: Sample) {
    exists tag, p :: IsTag(x, tag) && IsPrefix(tag, p) && (IsWord(p, "fsc1") || IsWord(p, "fsc2"))
  }

  /** The text is the word, in any case, between whitespace. */
  ghost predicate Reads(text: string, word: string) {
    exists t :: Encloses(text, t) && IsWord(t, word)
  }

  ghost predicate IsInteger(s: string, i: int) {
    if i >= 0 then IsNumeral(s, i) else s != "" && s[0] == '-' && IsNumeral(s[1..], -i)
  }

  /** What is left of a text between whitespace; nothing of a blank one. */
  ghost predicate IsRest(text: string, t: string) {
    Encloses(text, t) || (IsBlank(text) && t == "")
  }

  /** The code that is looked up in the status map: 1 and 0 for true and false, otherwise the printed value. */
  ghost predicate IsCode(v: ValueKind, code: string) {
    match v
    case BoolValue(b) => code == if b then "1" else "0"
    case IntValue(i) => IsInteger(code, i)
    case FloatValue(printed, _) => IsRest(printed, code)
    case TextValue(text, _) =>
      if Reads(text, "true") then code == "1"
      else if Reads(text, "false") then code == "0"
      else IsRest(text, code)
  }

  /** An FSC point has the found its description lists for its code; other points have none. */
  ghost predicate HasLabel(x: Sample, found: Option<string>) {
    if IsFscPoint(x) then exists code :: IsCode(x.value, code) && found == LabelFor(x.description, code)
    else found == None
  }

  ghost predicate IsQuiet(text: string) {
    IsRest(text, "正常") || IsRest(text, "运行中")
  }

  /** True, a number other than zero, or a text that is neither false nor zero nor blank. */
  ghost predicate IsFaultyValue(v: ValueKind) {
    match v
    case BoolValue(b) => b
    case IntValue(i) => i != 0
    case FloatValue(_, zero) => !zero
    case TextValue(text, number) =>
      || Reads(text, "true")
      || (!Reads(text, "false") && if number.Some? then !number.value else !IsBlank(text))
  }

  lemma FscIs(x: Sample)
    ensures IsFscPoint(x) <==> IsFsc(x)
  {
    hide IsTag, IsPrefix, Trim, BeforeDot, TagName, Lower, IsWord;
    TagIsOne(x, TagName(x));
    LowerFsc();
    forall tag, p ensures IsTag(x, tag) && IsPrefix(tag, p) <==> tag == TagName(x) && TagPrefix(x) == Some(p) {
      TagIsOne(x, tag);
      PrefixIsOne(tag, p);
    }
    forall p ensures (IsWord(p, "fsc1") <==> Lower(p) == "fsc1") && (IsWord(p, "fsc2") <==> Lower(p) == "fsc2") {
      WordIs(p, "fsc1");
      WordIs(p, "fsc2");
    }
    if IsFsc(x) {
      var p := TagPrefix(x).value;
      assert IsTag(x, TagName(x)) && IsPrefix(TagName(x), p);
    }
  }

  lemma LowerFsc()
    ensures Lower("FSC1") == "fsc1" && Lower("FSC2") == "fsc2"
  {
    assert Lower("FSC1") == [LowerAscii('F'), LowerAscii('S'), LowerAscii('C'), LowerAscii('1')];
    assert Lower("FSC2") == [LowerAscii('F'), LowerAscii('S'), LowerAscii('C'), LowerAscii('2')];
  }

  lemma ReadsIs(text: string, word: string)
    requires InLowerCase(word) && word != "" && Lower(word) == word
    ensures Reads(text, word) <==> EqIgnoreCase(Trim(Whitespace, text), word)
  {
    hide Trim, Encloses, Lower;
    TrimIs(text);
    var t := Trim(Whitespace, text);
    WordIs(t, word);
    if t == "" { assert |Lower(t)| == 0; }
  }

  lemma TruthReads(text: string)
    ensures Reads(text, "true") <==> EqIgnoreCase(Trim(Whitespace, text), "true")
    ensures Reads(text, "false") <==> EqIgnoreCase(Trim(Whitespace, text), "false")
  {
    hide Reads, EqIgnoreCase, Trim;
    assert Lower("true") == "true" && Lower("false") == "false";
    ReadsIs(text, "true");
    ReadsIs(text, "false");
  }

  lemma RestIs(text: string, t: string)
    ensures IsRest(text, t) <==> t == Trim(Whitespace, text)
  {
    hide Trim, Encloses;
    TrimIs(text);
  }

  lemma IntegerIs(s: string, i: int)
    ensures IsInteger(s, i) <==> s == IntText(i)
    ensures s == IntText(i) ==> Trim(Whitespace, s) == s
  {
    hide Digits, IsNumeral;
    if i >= 0 {
      NumeralIs(s, i);
    } else {
      if s != "" { NumeralIs(s[1..], -i); }
    }
    if s == IntText(i) {
      TrimOfTrimmed(Whitespace, s);
    }
  }

  lemma CodeIs(v: ValueKind, code: string)
    ensures IsCode(v, code) <==> code == Trim(Whitespace, StatusCode(v))
  {
    hide Trim, Reads, IsRest, IsInteger, EqIgnoreCase;
    match v
    case BoolValue(b) => BitsStay();
    case IntValue(i) =>
      IntegerIs(code, i);
      IntegerIs(IntText(i), i);
    case FloatValue(printed, _) => RestIs(printed, code);
    case TextValue(text, _) =>
      TruthReads(text);
      RestIs(text, code);
      BitsStay();
  }

  lemma BitsStay()
    ensures Trim(Whitespace, "1") == "1" && Trim(Whitespace, "0") == "0"
  {
    TrimOfTrimmed(Whitespace, "1");
    TrimOfTrimmed(Whitespace, "0");
  }

  lemma LabelIs(x: Sample, found: Option<string>)
    ensures HasLabel(x, found) <==> found == StatusLabel(x)
  {
    hide IsFscPoint, IsFsc, IsCode, LabelFor, Trim, StatusCode;
    FscIs(x);
    var code := Trim(Whitespace, StatusCode(x.value));
    forall c ensures IsCode(x.value, c) <==> c == code { CodeIs(x.value, c); }
  }

  lemma FaultyIs(v: ValueKind)
    ensures PlainValue(v) == if IsFaultyValue(v) then "1" else "0"
  {
    hide Trim, Reads, IsBlank, EqIgnoreCase;
    if v.TextValue? {
      TruthReads(v.text);
      TrimIs(v.text);
    }
  }

  /** The label decides if there is one, and only 正常 and 运行中 are no faults; otherwise the value decides. */
  ghost predicate IsFaulty(x: Sample) {
    exists found :: HasLabel(x, found) && if found.Some? then !IsQuiet(found.value) else IsFaultyValue(x.value)
  }

  /** The fault flag of every sample. */
  lemma FlagExactly(x: Sample)
    ensures TagValue(x) == if IsFaulty(x) then "1" else "0"
  {
    hide HasLabel, StatusLabel, IsFaultyValue, PlainValue, Trim, IsRest;
    forall found ensures HasLabel(x, found) <==> found == StatusLabel(x) { LabelIs(x, found); }
    FaultyIs(x.value);
    if StatusLabel(x).Some? {
      RestIs(StatusLabel(x).value, "正常");
      RestIs(StatusLabel(x).value, "运行中");
    }
  }

  /** The value as it is printed. */
  ghost predicate IsPrinted(v: ValueKind, s: string) {
    match v
    case BoolValue(b) => s == if b then "true" else "false"
    case IntValue(n) => IsInteger(s, n)
    case FloatValue(printed, _) => s == printed
    case TextValue(text, _) => s == text
  }

  /** `tag_state` is the printed value. */
  lemma StateExactly(x: Sample, s: string)
    ensures IsPrinted(x.value, s) <==> s == RawText(x.value)
  {
    hide IsInteger;
    if x.value.IntValue? {
      IntegerIs(s, x.value.i);
    }
  }

  // ---- remarks ----

  /** The description, or for a blank one the tag. */
  ghost predicate IsDescription(x: Sample, d: string) {
    if !IsBlank(x.description) then d == x.description
    else exists tag :: IsTag(x, tag) && d == if IsBlank(tag) then "" else tag
  }

  /** `a` stands before the first colon. */
  predicate IsTitle(d: string, a: string) {
    NoColon(a) && |a| < |d| && d[..|a|] == a && (d[|a|] == ':' || d[|a|] == '：')
  }

  /** The text before the first colon and the label; without a label or such a text, the description. */
  ghost predicate IsRemark(x: Sample, r: string) {
    exists d, found :: IsDescription(x, d) && HasLabel(x, found) &&
      if found.Some? && exists a :: IsTitle(d, a) && !IsBlank(a)
      then exists a, p, t :: IsTitle(d, a) && Encloses(a, p) && IsRest(found.value, t) && r == p + t
      else r == d
  }

  lemma {:induction false} BeforeColonIs(d: string)
    ensures match BeforeColon(d)
      case Some(a) => IsTitle(d, a)
      case None => forall a :: !IsTitle(d, a)
  {
    if d != "" && d[0] != ':' && d[0] != '：' {
      BeforeColonIs(d[1..]);
      match BeforeColon(d[1..])
      case Some(a) => assert IsTitle(d, [d[0]] + a);
      case None =>
        forall a ensures !IsTitle(d, a) {
          if IsTitle(d, a) {
            TitleTail(d, a);
          }
        }
    }
  }

  lemma TitleTail(d: string, a: string)
    requires IsTitle(d, a) && d[0] != ':' && d[0] != '：'
    ensures a != "" && IsTitle(d[1..], a[1..])
  {
  }

  lemma OneTitle(d: string, a: string, b: string)
    requires IsTitle(d, a) && IsTitle(d, b)
    ensures a == b
  {
    forall k | 0 <= k < |a| ensures d[k] != ':' && d[k] != '：' { assert d[k] == a[k]; }
    forall k | 0 <= k < |b| ensures d[k] != ':' && d[k] != '：' { assert d[k] == b[k]; }
    assert |a| == |b|;
  }

  lemma DescriptionIs(x: Sample)
    ensures IsDescription(x, DescriptionOf(x))
  {
    hide IsTag, Trim, IsBlank, TagName;
    TrimIs(x.description);
    TrimIs(TagName(x));
    TagIsOne(x, TagName(x));
  }

  /** The remark of every sample. */
  lemma RemarkExactly(x: Sample)
    ensures IsRemark(x, Remark(x))
  {
    hide HasLabel, StatusLabel, IsDescription, DescriptionOf, Trim, IsBlank, IsTitle, Encloses, IsRest, BeforeColon;
    var d, found := DescriptionOf(x), StatusLabel(x);
    DescriptionIs(x);
    LabelIs(x, found);
    BeforeColonIs(d);
    if found.Some? && BeforeColon(d).Some? {
      var a := BeforeColon(d).value;
      TrimIs(a);
      RestIs(found.value, Trim(Whitespace, found.value));
      forall b | IsTitle(d, b) ensures b == a { OneTitle(d, a, b); }
    }
  }
}
