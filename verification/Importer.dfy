/** `import_opcua_alarm_points.py`: validated points become subscriptions that the service's configuration accepts. */
module Importer {
  import opened Options
  import opened Text
  import opened Decimal
  import opened Grouping
  import Order
  import Samples
  import Words

  datatype Point = Point(tagName: string, description: string)
  datatype Tag = Tag(nodeId: string, alias: string)
  datatype Subscription = Subscription(
    name: string, publishingIntervalMs: nat, keepAliveCount: nat, lifetimeCount: nat, tags: seq<Tag>)

  datatype ImportError =
    | CountMismatch
    | EmptyTagName(index: nat)
    | EmptyDescription(tagName: string)
    | DuplicateTagName(tagName: string)
    | BadMaximum
    | NoPrefix(tagName: string)
  datatype Result<+T> = Ok(value: T) | Err(error: ImportError)

  // ---- validation ----

  predicate NamedAndDescribed(p: Point, allowEmpty: bool) {
    p.tagName != "" && (allowEmpty || p.description != "")
  }

  ghost predicate DistinctTags(points: seq<Point>) {
    forall i, j :: 0 <= i < j < |points| ==> points[i].tagName != points[j].tagName
  }

  /** `validate_alarm_points`: the checks in their order, the first failure reported. */
  method ValidateAlarmPoints(declared: Option<int>, points: seq<Point>, allowEmpty: bool)
    returns (error: Option<ImportError>)
    ensures error.None? <==>
      && (declared.Some? ==> declared.value == |points|)
      && (forall i :: 0 <= i < |points| ==> NamedAndDescribed(points[i], allowEmpty))
      && DistinctTags(points)
    ensures error.Some? ==> !error.value.BadMaximum? && !error.value.NoPrefix?
    ensures error == Some(CountMismatch) <==> declared.Some? && declared.value != |points|
    ensures forall n: nat :: error == Some(EmptyTagName(n)) ==>
      1 <= n <= |points| && points[n - 1].tagName == "" && forall i :: 0 <= i < n - 1 ==>
          NamedAndDescribed(points[i], allowEmpty)
    ensures forall t :: error == Some(EmptyDescription(t)) ==>
      !allowEmpty && exists n :: 0 <= n < |points| && points[n] == Point(t, "") && t != "" &&
                                 forall i :: 0 <= i < n ==> NamedAndDescribed(points[i], allowEmpty)
    ensures forall t :: error == Some(DuplicateTagName(t)) ==>
      && (forall i :: 0 <= i < |points| ==> NamedAndDescribed(points[i], allowEmpty))
      && exists i, j :: 0 <= i < j < |points| && points[i].tagName == points[j].tagName == t
          && DistinctTags(points[..j])
  {
    if declared.Some? && declared.value != |points| {
      return Some(CountMismatch);
    }
    for i := 0 to |points|
      invariant forall j :: 0 <= j < i ==> NamedAndDescribed(points[j], allowEmpty)
    {
      if points[i].tagName == "" {
        return Some(EmptyTagName(i + 1));
      }
      if points[i].description == "" && !allowEmpty {
        return Some(EmptyDescription(points[i].tagName));
      }
    }
    var seen: set<string> := {};
    for i := 0 to |points|
      invariant seen == set j | 0 <= j < i :: points[j].tagName
      invariant DistinctTags(points[..i])
    {
      if points[i].tagName in seen {
        return Some(DuplicateTagName(points[i].tagName));
      }
      seen := seen + {points[i].tagName};
    }
    assert points[..|points|] == points;
    error := None;
  }

  // ---- names ----

  /** `tag_prefix`; empty where the script raises an error. */
  function Prefix(p: Point): string {
    Trim(PyWhitespace, Samples.BeforeDot(p.tagName))
  }

  predicate IsAlnum(c: char) {
    '0' <= c <= '9' || 'a' <= c <= 'z' || 'A' <= c <= 'Z'
  }

  /** `re.sub(r"[^0-9A-Za-z]+", "_", s)`; `inRun` when the characters just before were replaced. */
  function ReplaceRuns(s: string, inRun: bool): string {
    if s == "" then ""
    else if IsAlnum(s[0]) then [s[0]] + ReplaceRuns(s[1..], false)
    else if inRun then ReplaceRuns(s[1..], true)
    else "_" + ReplaceRuns(s[1..], true)
  }

  function SafeName(s: string): string {
    Words.Lower(Trim(Underscores, ReplaceRuns(s, false)))
  }

  lemma {:induction false} RunOfOthers(s: string)
    requires forall i :: 0 <= i < |s| ==> !IsAlnum(s[i])
    ensures ReplaceRuns(s, true) == "" && (ReplaceRuns(s, false) == "" || ReplaceRuns(s, false) == "_")
  {
    if s != "" {
      RunOfOthers(s[1..]);
    }
  }

  /**
   Prefixes without an ASCII letter or digit all have the empty safe name, so no two of them can be imported
   together.
   */
  lemma WithoutAsciiNameIsEmpty(s: string)
    requires forall i :: 0 <= i < |s| ==> !IsAlnum(s[i])
    ensures SafeName(s) == ""
  {
    RunOfOthers(s);
    TrimEmpty(Underscores, ReplaceRuns(s, false));
  }

  // ---- the words of a name ----

  const DIGITS := "0123456789"
  const LETTERS := "abcdefghijklmnopqrstuvwxyz"

  /** Names are made of the ten digits, the 26 small letters and the 26 capitals, which Lower makes small. */
  lemma AlnumIs(c: char)
    ensures IsAlnum(c) <==> c in DIGITS || Words.LowerAscii(c) in LETTERS
  {
    if '0' <= c <= '9' {
      assert DIGITS[c as int - '0' as int] == c;
    }
    var l := Words.LowerAscii(c);
    if 'a' <= l <= 'z' {
      assert LETTERS[l as int - 'a' as int] == l;
    }
  }

  predicate IsWord(s: string) {
    s != "" && forall k :: 0 <= k < |s| ==> IsAlnum(s[k])
  }

  predicate HasNoWord(s: string) {
    forall k :: 0 <= k < |s| ==> !IsAlnum(s[k])
  }

  /** The words of a text: its longest runs of ASCII letters and digits, in order. */
  ghost predicate HasWords(s: string, words: seq<string>)
    decreases |words|
  {
    if words == [] then HasNoWord(s)
    else exists gap, rest ::
      && s == gap + words[0] + rest && HasNoWord(gap) && IsWord(words[0])
      && (rest == "" || !IsAlnum(rest[0])) && HasWords(rest, words[1..])
  }

  /** Each word behind an underscore. */
  function Appended(words: seq<string>): string {
    if words == [] then "" else "_" + words[0] + Appended(words[1..])
  }

  /** The words with one underscore between each two. */
  function Joined(words: seq<string>): string {
    if words == [] then "" else words[0] + Appended(words[1..])
  }

  lemma {:induction false} GapReplaced(gap: string, rest: string, inRun: bool)
    requires HasNoWord(gap)
    ensures ReplaceRuns(gap + rest, inRun)
         == (if gap == "" || inRun then "" else "_") + ReplaceRuns(rest, inRun || gap != "")
  {
    if gap == "" {
      assert gap + rest == rest;
    } else {
      assert (gap + rest)[1..] == gap[1..] + rest;
      GapReplaced(gap[1..], rest, true);
    }
  }

  lemma {:induction false} WordReplaced(word: string, rest: string, inRun: bool)
    requires IsWord(word)
    ensures ReplaceRuns(word + rest, inRun) == word + ReplaceRuns(rest, false)
  {
    assert (word + rest)[1..] == word[1..] + rest;
    if |word| == 1 {
      assert word[1..] + rest == rest;
    } else {
      WordReplaced(word[1..], rest, false);
      assert word == [word[0]] + word[1..];
    }
  }

  lemma FirstWord(s: string, words: seq<string>) returns (gap: string, rest: string)
    requires HasWords(s, words) && words != []
    ensures s == gap + words[0] + rest && HasNoWord(gap) && IsWord(words[0])
    ensures (rest == "" || !IsAlnum(rest[0])) && HasWords(rest, words[1..])
  {
    hide HasNoWord, IsWord, IsAlnum;
    gap, rest :| s == gap + words[0] + rest && HasNoWord(gap) && IsWord(words[0])
        && (rest == "" || !IsAlnum(rest[0])) && HasWords(rest, words[1..]);
  }

  /** Up to behind the first word. */
  lemma FirstWordReplaced(s: string, words: seq<string>) returns (gap: string, rest: string)
    requires HasWords(s, words) && words != []
    ensures (rest == "" || !IsAlnum(rest[0])) && HasWords(rest, words[1..]) && IsWord(words[0])
    ensures ReplaceRuns(s, false) == (if gap == "" then "" else "_") + words[0] + ReplaceRuns(rest, false)
    ensures gap == "" ==> s != "" && IsAlnum(s[0])
  {
    hide IsAlnum, ReplaceRuns, HasWords, HasNoWord;
    gap, rest := FirstWord(s, words);
    assert s == gap + (words[0] + rest);
    GapReplaced(gap, words[0] + rest, false);
    WordReplaced(words[0], rest, gap != "");
    assert gap == "" ==> s[0] == words[0][0];
  }

  lemma {:induction false} RestReplaced(s: string, words: seq<string>) returns (right: string)
    requires HasWords(s, words) && (s == "" || !IsAlnum(s[0]))
    ensures ReplaceRuns(s, false) == Appended(words) + right && (right == "" || right == "_")
    decreases |words|
  {
    hide HasNoWord, IsAlnum, ReplaceRuns, HasWords;
    if words == [] {
      NoWords(s);
      RunOfOthers(s);
      right := ReplaceRuns(s, false);
    } else {
      var gap, rest := FirstWordReplaced(s, words);
      right := RestReplaced(rest, words[1..]);
    }
  }

  lemma NoWords(s: string)
    requires HasWords(s, [])
    ensures forall i :: 0 <= i < |s| ==> !IsAlnum(s[i])
  {
  }

  /** Replacing gives the joined words, with an underscore on each side where the text begins or ends with others. */
  lemma RunsReplaced(s: string, words: seq<string>) returns (left: string, right: string)
    requires HasWords(s, words)
    ensures ReplaceRuns(s, false) == left + Joined(words) + right
    ensures (left == "" || left == "_") && (right == "" || right == "_")
  {
    hide HasNoWord, IsAlnum, ReplaceRuns, HasWords;
    if words == [] {
      NoWords(s);
      RunOfOthers(s);
      left, right := ReplaceRuns(s, false), "";
    } else {
      var gap, rest := FirstWordReplaced(s, words);
      left := if gap == "" then "" else "_";
      right := RestReplaced(rest, words[1..]);
    }
  }

  lemma JoinedTrimmed(words: seq<string>)
    requires forall i :: 0 <= i < |words| ==> IsWord(words[i])
    ensures Trimmed(Underscores, Joined(words))
  {
    if words != [] {
      LastIsAlnum(words[0], words[1..]);
    }
  }

  lemma {:induction false} LastIsAlnum(first: string, words: seq<string>)
    requires IsWord(first) && forall i :: 0 <= i < |words| ==> IsWord(words[i])
    ensures var s := first + Appended(words); IsAlnum(s[|s| - 1])
    decreases |words|
  {
    if words == [] {
      assert first + Appended(words) == first;
    } else {
      LastIsAlnum(words[0], words[1..]);
    }
  }

  lemma {:induction false} AllWords(s: string, words: seq<string>)
    requires HasWords(s, words)
    ensures forall i :: 0 <= i < |words| ==> IsWord(words[i])
    decreases |words|
  {
    hide IsWord, HasNoWord, IsAlnum, HasWords;
    if words != [] {
      var gap, rest := FirstWord(s, words);
      AllWords(rest, words[1..]);
      assert words == [words[0]] + words[1..];
    }
  }

  /** The safe name is the words of the text in lower case, joined by single underscores. */
  lemma SafeNameIs(s: string, words: seq<string>)
    requires HasWords(s, words)
    ensures SafeName(s) == Words.Lower(Joined(words))
  {
    hide HasWords, ReplaceRuns, Joined, Trim, Words.Lower, IsWord;
    var left, right := RunsReplaced(s, words);
    AllWords(s, words);
    JoinedTrimmed(words);
    TrimMargins(Underscores, left, Joined(words), right);
  }

  /** Every text has words. */
  lemma {:induction false} WordsExist(s: string) returns (words: seq<string>)
    ensures HasWords(s, words)
    decreases |s|
  {
    if HasNoWord(s) {
      words := [];
    } else {
      var i: nat := 0;
      while !IsAlnum(s[i])
        invariant i < |s| && HasNoWord(s[..i]) && exists k :: i <= k < |s| && IsAlnum(s[k])
        decreases |s| - i
      {
        i := i + 1;
      }
      var j := i;
      while j < |s| && IsAlnum(s[j])
        invariant i <= j <= |s| && (forall k :: i <= k < j ==> IsAlnum(s[k]))
      {
        j := j + 1;
      }
      var rest := WordsExist(s[j..]);
      words := [s[i..j]] + rest;
      assert s == s[..i] + words[0] + s[j..] && words[1..] == rest;
    }
  }

  /** `f"{subscription_prefix}_{safe_name(prefix)}_{index:03d}"`. */
  function NameOf(subscriptionPrefix: string, prefix: string, index: nat): string {
    subscriptionPrefix + "_" + SafeName(prefix) + "_" + Pad(index, 3)
  }

  /** Names agree exactly when the safe names and the numbers do. */
  lemma NamesAgree(sp: string, p: string, i: nat, q: string, j: nat)
    ensures NameOf(sp, p, i) == NameOf(sp, q, j) <==> SafeName(p) == SafeName(q) && i == j
  {
    hide SafeName, Pad;
    if NameOf(sp, p, i) == NameOf(sp, q, j) {
      PadValue(i, 3);
      PadValue(j, 3);
      SameTail(sp + "_" + SafeName(p), Pad(i, 3), sp + "_" + SafeName(q), Pad(j, 3));
      var a, b := sp + "_" + SafeName(p), sp + "_" + SafeName(q);
      assert a[|sp| + 1..] == SafeName(p) && b[|sp| + 1..] == SafeName(q);
    }
  }

  // ---- chunks ----

  function Chunks<T>(items: seq<T>, size: nat): (r: seq<seq<T>>)
    requires size > 0
  {
    if items == [] then []
    else if |items| <= size then [items]
    else [items[..size]] + Chunks(items[size..], size)
  }

  function Concat<T>(parts: seq<seq<T>>): seq<T> {
    if parts == [] then [] else parts[0] + Concat(parts[1..])
  }

  /** The chunks are the items in order, each of 1 to `size` items and all but the last of exactly `size`. */
  lemma {:induction false} ChunksPartition<T>(items: seq<T>, size: nat)
    requires size > 0
    ensures Concat(Chunks(items, size)) == items
    ensures forall i :: 0 <= i < |Chunks(items, size)| ==> 1 <= |Chunks(items, size)[i]| <= size
    ensures forall i :: 0 <= i < |Chunks(items, size)| - 1 ==> |Chunks(items, size)[i]| == size
    ensures items != [] ==> Chunks(items, size) != []
  {
    if |items| > size {
      ChunksPartition(items[size..], size);
      var rest := Chunks(items[size..], size);
      assert Chunks(items, size) == [items[..size]] + rest && ([items[..size]] + rest)[1..] == rest;
      assert items == items[..size] + items[size..];
    } else if items != [] {
      assert Chunks(items, size) == [items] && [items][1..] == [];
      assert Concat([items]) == items + Concat<T>([]) == items;
    }
  }

  /** `chunks`: slices at 0, size, 2 * size, ... */
  method SliceChunks<T>(items: seq<T>, size: nat) returns (r: seq<seq<T>>)
    requires size > 0
    ensures r == Chunks(items, size)
  {
    r := [];
    var start := 0;
    while start < |items|
      invariant 0 <= start
      invariant start <= |items| ==> r + Chunks(items[start..], size) == Chunks(items, size)
      invariant start > |items| ==> r == Chunks(items, size)
    {
      ghost var rest := items[start..];
      if start + size <= |items| {
        assert items[start..start + size] == rest[..size] && items[start + size..] == rest[size..];
        assert |rest| == size ==> rest[..size] == rest && rest[size..] == [] && Chunks(rest[size..], size) == [];
        r := r + [items[start..start + size]];
      } else {
        r := r + [items[start..]];
        assert Chunks(rest, size) == [rest];
      }
      start := start + size;
    }
    if start <= |items| {
      assert items[start..] == [] && Chunks(items[start..], size) == [];
    }
  }

  // ---- subscriptions ----

  function TagOf(p: Point, namespace: int): Tag {
    Tag("ns=" + Samples.IntText(namespace) + ";s=" + p.tagName, p.tagName)
  }

  function TagsOf(points: seq<Point>, namespace: int): (r: seq<Tag>)
    ensures |r| == |points| && forall i :: 0 <= i < |r| ==> r[i] == TagOf(points[i], namespace)
  {
    seq(|points|, i requires 0 <= i < |points| => TagOf(points[i], namespace))
  }

  /** Settings of an import: `max` is positive. */
  datatype Settings = Settings(subscriptionPrefix: string, max: nat, namespace: int)

  function SubscriptionOf(st: Settings, prefix: string, index: nat, chunk: seq<Point>): Subscription {
    Subscription(NameOf(st.subscriptionPrefix, prefix, index), 500, 10, 30, TagsOf(chunk, st.namespace))
  }

  function GroupSubs(st: Settings, prefix: string, chunks: seq<seq<Point>>): (r: seq<Subscription>)
    ensures |r| == |chunks|
    ensures forall i :: 0 <= i < |r| ==> r[i] == SubscriptionOf(st, prefix, i + 1, chunks[i])
  {
    seq(|chunks|, i requires 0 <= i < |chunks| => SubscriptionOf(st, prefix, i + 1, chunks[i]))
  }

  function AllSubs(st: Settings, groups: seq<Group<Point>>): seq<Subscription>
    requires st.max > 0
  {
    if groups == [] then []
    else
      var n := |groups| - 1;
      AllSubs(st, groups[..n]) + GroupSubs(st, groups[n].key, Chunks(groups[n].items, st.max))
  }

  function KeyedPoints(points: seq<Point>): (r: seq<Keyed<Point>>)
    ensures |r| == |points| && forall i :: 0 <= i < |r| ==> r[i] == Keyed(Prefix(points[i]), points[i])
  {
    seq(|points|, i requires 0 <= i < |points| => Keyed(Prefix(points[i]), points[i]))
  }

  ghost predicate AllPrefixed(points: seq<Point>) {
    forall i :: 0 <= i < |points| ==> Prefix(points[i]) != ""
  }

  /** `build_subscriptions`. */
  method BuildSubscriptions(points: seq<Point>, max: int, namespace: int, subscriptionPrefix: string)
    returns (r: Result<seq<Subscription>>)
    ensures r == Err(BadMaximum) <==> max <= 0
    ensures r.Ok? <==> max > 0 && AllPrefixed(points)
    ensures max > 0 && r.Err? ==> r.error.NoPrefix?
    ensures forall t :: r == Err(NoPrefix(t)) ==>
      exists n :: 0 <= n < |points| && points[n].tagName == t && Prefix(points[n]) == "" && AllPrefixed(points[..n])
    ensures r.Ok? ==>
      r.value == AllSubs(Settings(subscriptionPrefix, max, namespace), Collect(KeyedPoints(points)))
  {
    hide Prefix, Push, Chunks, NameOf, TagOf;
    if max <= 0 {
      return Err(BadMaximum);
    }
    ghost var keyed := KeyedPoints(points);
    var groups: seq<Group<Point>> := [];
    for i := 0 to |points|
      invariant AllPrefixed(points[..i])
      invariant groups == Collect(keyed[..i])
    {
      var prefix := Prefix(points[i]);
      if prefix == "" {
        return Err(NoPrefix(points[i].tagName));
      }
      assert keyed[..i + 1][..i] == keyed[..i];
      groups := Push(groups, Keyed(prefix, points[i]));
    }
    assert keyed[..|points|] == keyed && points[..|points|] == points;

    var st := Settings(subscriptionPrefix, max, namespace);
    var subscriptions: seq<Subscription> := [];
    for i := 0 to |groups|
      invariant subscriptions == AllSubs(st, groups[..i])
    {
      ghost var before := subscriptions;
      var chunks := SliceChunks(groups[i].items, max);
      for j := 0 to |chunks|
        invariant subscriptions == before + GroupSubs(st, groups[i].key, chunks[..j])
      {
        assert GroupSubs(st, groups[i].key, chunks[..j + 1])
            == GroupSubs(st, groups[i].key, chunks[..j]) + [SubscriptionOf(st, groups[i].key, j + 1, chunks[j])];
        subscriptions := subscriptions + [SubscriptionOf(st, groups[i].key, j + 1, chunks[j])];
      }
      assert chunks[..|chunks|] == chunks;
      assert groups[..i + 1][..i] == groups[..i];
    }
    assert groups[..|groups|] == groups;
    r := Ok(subscriptions);
  }

  // ---- the partition ----

  function TagLists(subs: seq<Subscription>): (r: seq<seq<Tag>>)
    ensures |r| == |subs| && forall i :: 0 <= i < |r| ==> r[i] == subs[i].tags
  {
    seq(|subs|, i requires 0 <= i < |subs| => subs[i].tags)
  }

  lemma ConcatHead<T>(x: seq<T>, rest: seq<seq<T>>)
    ensures Concat([x] + rest) == x + Concat(rest)
  {
    assert ([x] + rest)[1..] == rest;
  }

  lemma {:induction false} ConcatAppend<T>(a: seq<seq<T>>, b: seq<seq<T>>)
    ensures Concat(a + b) == Concat(a) + Concat(b)
    decreases |a|
  {
    if a == [] {
      assert a + b == b && Concat(a) == [];
    } else {
      hide Concat;
      var x, rest := a[0], a[1..];
      calc {
        Concat(a + b);
        { assert a + b == [x] + (rest + b); ConcatHead(x, rest + b); }
        x + Concat(rest + b);
        { ConcatAppend(rest, b); }
        x + (Concat(rest) + Concat(b));
        (x + Concat(rest)) + Concat(b);
        { assert a == [x] + rest; ConcatHead(x, rest); }
        Concat(a) + Concat(b);
      }
    }
  }

  lemma {:induction false} ConcatTags(st: Settings, prefix: string, chunks: seq<seq<Point>>)
    ensures Concat(TagLists(GroupSubs(st, prefix, chunks))) == TagsOf(Concat(chunks), st.namespace)
  {
    hide NameOf, TagOf;
    if chunks != [] {
      var n := |chunks| - 1;
      var subs, front := GroupSubs(st, prefix, chunks), GroupSubs(st, prefix, chunks[..n]);
      ConcatTags(st, prefix, chunks[..n]);
      assert TagLists(subs) == TagLists(front) + [TagsOf(chunks[n], st.namespace)];
      ConcatAppend(TagLists(front), [TagsOf(chunks[n], st.namespace)]);
      ConcatAppend(chunks[..n], [chunks[n]]);
      assert chunks == chunks[..n] + [chunks[n]];
      ConcatOne(chunks[n]);
      ConcatOne(TagsOf(chunks[n], st.namespace));
      assert TagsOf(Concat(chunks), st.namespace)
          == TagsOf(Concat(chunks[..n]), st.namespace) + TagsOf(chunks[n], st.namespace);
    }
  }

  lemma ConcatOne<T>(x: seq<T>)
    ensures Concat([x]) == x
  {
    assert [x][1..] == [];
  }

  lemma {:induction false} FlattenSnoc<T>(groups: seq<Group<T>>, g: Group<T>)
    ensures Flatten(groups + [g]) == Flatten(groups) + g.items
  {
    if groups == [] {
      assert (groups + [g])[1..] == [];
    } else {
      FlattenSnoc(groups[1..], g);
      assert (groups + [g])[1..] == groups[1..] + [g];
    }
  }

  lemma TagsOfSum(a: seq<Point>, b: seq<Point>, namespace: int)
    ensures TagsOf(a + b, namespace) == TagsOf(a, namespace) + TagsOf(b, namespace)
  {
  }

  lemma TagListsSum(a: seq<Subscription>, b: seq<Subscription>)
    ensures TagLists(a + b) == TagLists(a) + TagLists(b)
  {
  }

  lemma {:induction false} AllTags(st: Settings, groups: seq<Group<Point>>)
    requires st.max > 0
    ensures Concat(TagLists(AllSubs(st, groups))) == TagsOf(Flatten(groups), st.namespace)
  {
    hide TagsOf, TagLists, Chunks, Flatten, Concat, GroupSubs;
    if groups == [] {
      NoTags(st);
    } else {
      var n := |groups| - 1;
      var front, last := AllSubs(st, groups[..n]), GroupSubs(st, groups[n].key, Chunks(groups[n].items, st.max));
      AllTags(st, groups[..n]);
      ConcatTags(st, groups[n].key, Chunks(groups[n].items, st.max));
      ChunksPartition(groups[n].items, st.max);
      TagListsSum(front, last);
      ConcatAppend(TagLists(front), TagLists(last));
      FlattenSnoc(groups[..n], groups[n]);
      assert groups == groups[..n] + [groups[n]];
      TagsOfSum(Flatten(groups[..n]), groups[n].items, st.namespace);
    }
  }

  lemma NoTags(st: Settings)
    ensures Concat(TagLists([])) == TagsOf(Flatten<Point>([]), st.namespace)
  {
    assert TagLists([]) == [] && TagsOf([], st.namespace) == [];
  }

  lemma {:induction false} SubsSized(st: Settings, groups: seq<Group<Point>>)
    requires st.max > 0
    ensures forall i :: 0 <= i < |AllSubs(st, groups)| ==> 1 <= |AllSubs(st, groups)[i].tags| <= st.max
  {
    hide NameOf, TagOf, Chunks;
    if groups != [] {
      var n := |groups| - 1;
      SubsSized(st, groups[..n]);
      ChunksPartition(groups[n].items, st.max);
    }
  }

  /**
   The subscriptions partition the points: read one after the other they list the points of each prefix in
   order, prefix by prefix; each holds 1 to `max` tags, and no point is lost or repeated.
   */
  lemma SubscriptionsPartition(st: Settings, points: seq<Point>)
    requires st.max > 0
    ensures var groups := Collect(KeyedPoints(points));
      var subs := AllSubs(st, groups);
      && IsPartition(groups, KeyedPoints(points))
      && Concat(TagLists(subs)) == TagsOf(Flatten(groups), st.namespace)
      && multiset(Flatten(groups)) == multiset(points)
      && forall i :: 0 <= i < |subs| ==> 1 <= |subs[i].tags| <= st.max
  {
    hide Collect, AllSubs, IsPartition, Flatten, Prefix;
    CollectIsPartition(KeyedPoints(points));
    CollectFlatten(KeyedPoints(points));
    assert Items(KeyedPoints(points)) == points;
    AllTags(st, Collect(KeyedPoints(points)));
    SubsSized(st, Collect(KeyedPoints(points)));
  }

  // ---- what the service's configuration accepts ----

  const U32_MAX: nat := 0xFFFF_FFFF

  /** `SubscriptionConfig::validate`, without parsing the node ids. */
  predicate ValidSubscription(s: Subscription) {
    && Trim(Whitespace, s.name) != "" && s.publishingIntervalMs != 0 && s.keepAliveCount != 0
    && s.lifetimeCount >= (if s.keepAliveCount * 3 <= U32_MAX then s.keepAliveCount * 3 else U32_MAX)
    && s.tags != [] && forall i :: 0 <= i < |s.tags| ==> Trim(Whitespace, s.tags[i].alias) != ""
  }

  ghost predicate DistinctNames(subs: seq<Subscription>) {
    forall i, j :: 0 <= i < j < |subs| ==> subs[i].name != subs[j].name
  }

  /** `validate_unique_subscription_names`. */
  method ValidateUniqueNames(subs: seq<Subscription>) returns (ok: bool)
    ensures ok <==> DistinctNames(subs)
  {
    var names: set<string> := {};
    for i := 0 to |subs|
      invariant names == set j | 0 <= j < i :: subs[j].name
      invariant DistinctNames(subs[..i])
    {
      if subs[i].name in names {
        return false;
      }
      names := names + {subs[i].name};
    }
    assert subs[..|subs|] == subs;
    ok := true;
  }

  ghost predicate Accepted(subs: seq<Subscription>) {
    (forall i :: 0 <= i < |subs| ==> ValidSubscription(subs[i])) && DistinctNames(subs)
  }

  /** Different prefixes have different safe names. */
  ghost predicate SafeNamesDiffer(points: seq<Point>) {
    forall i, j :: 0 <= i < |points| && 0 <= j < |points| && Prefix(points[i]) != Prefix(points[j]) ==>
      SafeName(Prefix(points[i])) != SafeName(Prefix(points[j]))
  }

  ghost predicate SafeKeysDiffer(groups: seq<Group<Point>>) {
    forall i, j :: 0 <= i < j < |groups| ==> SafeName(groups[i].key) != SafeName(groups[j].key)
  }

  ghost predicate NonEmptyGroups(groups: seq<Group<Point>>) {
    forall i :: 0 <= i < |groups| ==> groups[i].items != []
  }

  /** A name occurs among the subscriptions of the groups exactly when a group has its safe name and enough chunks. */
  lemma {:induction false} NameOccurs(st: Settings, groups: seq<Group<Point>>, prefix: string, index: nat)
    requires st.max > 0 && index >= 1
    ensures HasName(AllSubs(st, groups), NameOf(st.subscriptionPrefix, prefix, index)) <==>
      HasChunk(st, groups, prefix, index)
  {
    hide NameOf, TagOf, Chunks, SafeName, HasName, GroupSubs;
    if groups == [] {
      NoName(NameOf(st.subscriptionPrefix, prefix, index));
    } else {
      var n := |groups| - 1;
      var front, last := AllSubs(st, groups[..n]), GroupSubs(st, groups[n].key, Chunks(groups[n].items, st.max));
      var name := NameOf(st.subscriptionPrefix, prefix, index);
      NameOccurs(st, groups[..n], prefix, index);
      NameInGroup(st, groups[n], prefix, index);
      NamesOfSum(front, last, name);
      HasChunkSnoc(st, groups, prefix, index);
    }
  }

  /** A group with the safe name of `prefix` has a chunk number `index`. */
  ghost predicate HasChunk(st: Settings, groups: seq<Group<Point>>, prefix: string, index: nat)
    requires st.max > 0
  {
    exists k :: 0 <= k < |groups| && SafeName(groups[k].key) == SafeName(prefix)
        && index <= |Chunks(groups[k].items, st.max)|
  }

  lemma HasChunkSnoc(st: Settings, groups: seq<Group<Point>>, prefix: string, index: nat)
    requires st.max > 0 && groups != []
    ensures var n := |groups| - 1;
      HasChunk(st, groups, prefix, index) <==>
        HasChunk(st, groups[..n], prefix, index)
        || (SafeName(groups[n].key) == SafeName(prefix) && index <= |Chunks(groups[n].items, st.max)|)
  {
    hide Chunks, SafeName;
    var n := |groups| - 1;
    if HasChunk(st, groups[..n], prefix, index) {
      var k :| 0 <= k < n && SafeName(groups[..n][k].key) == SafeName(prefix)
          && index <= |Chunks(groups[..n][k].items, st.max)|;
      assert groups[..n][k] == groups[k];
    }
    if HasChunk(st, groups, prefix, index) {
      var k :| 0 <= k < |groups| && SafeName(groups[k].key) == SafeName(prefix)
          && index <= |Chunks(groups[k].items, st.max)|;
      assert k < n ==> groups[..n][k] == groups[k];
    }
  }

  lemma NoName(name: string)
    ensures !HasName([], name)
  {
  }

  ghost predicate HasName(subs: seq<Subscription>, name: string) {
    exists i :: 0 <= i < |subs| && subs[i].name == name
  }

  lemma NamesOfSum(a: seq<Subscription>, b: seq<Subscription>, name: string)
    ensures HasName(a + b, name) <==> HasName(a, name) || HasName(b, name)
  {
    if HasName(a, name) {
      var i :| 0 <= i < |a| && a[i].name == name;
      assert (a + b)[i].name == name;
    }
    if HasName(b, name) {
      var i :| 0 <= i < |b| && b[i].name == name;
      assert (a + b)[|a| + i].name == name;
    }
  }

  lemma NameInGroup(st: Settings, g: Group<Point>, prefix: string, index: nat)
    requires st.max > 0 && index >= 1
    ensures HasName(GroupSubs(st, g.key, Chunks(g.items, st.max)), NameOf(st.subscriptionPrefix, prefix, index))
       <==> SafeName(g.key) == SafeName(prefix) && index <= |Chunks(g.items, st.max)|
  {
    hide NameOf, TagOf, Chunks, SafeName;
    var subs := GroupSubs(st, g.key, Chunks(g.items, st.max));
    forall i | 0 <= i < |subs|
      ensures subs[i].name == NameOf(st.subscriptionPrefix, prefix, index) <==>
        SafeName(g.key) == SafeName(prefix) && i + 1 == index
    {
      NamesAgree(st.subscriptionPrefix, g.key, i + 1, prefix, index);
    }
    if SafeName(g.key) == SafeName(prefix) && index <= |subs| {
      assert subs[index - 1].name == NameOf(st.subscriptionPrefix, prefix, index);
    }
  }

  lemma {:induction false} NamesDistinctExactly(st: Settings, groups: seq<Group<Point>>)
    requires st.max > 0 && NonEmptyGroups(groups)
    ensures DistinctNames(AllSubs(st, groups)) <==> SafeKeysDiffer(groups)
  {
    hide NameOf, TagOf, Chunks, SafeName, HasName, DistinctNames, GroupSubs, SafeKeysDiffer, HasChunk;
    if groups == [] {
      NoNamesDiffer(groups);
    } else {
      var n := |groups| - 1;
      var front, g := groups[..n], groups[n];
      var a, b := AllSubs(st, front), GroupSubs(st, g.key, Chunks(g.items, st.max));
      NamesDistinctExactly(st, front);
      GroupNamesDistinct(st, g);
      DistinctSum(a, b);
      NewNames(st, front, g);
      SafeKeysSnoc(groups);
    }
  }

  lemma NoNamesDiffer(groups: seq<Group<Point>>)
    requires groups == []
    ensures DistinctNames([]) && SafeKeysDiffer(groups)
  {
  }

  lemma GroupNamesDistinct(st: Settings, g: Group<Point>)
    requires st.max > 0
    ensures DistinctNames(GroupSubs(st, g.key, Chunks(g.items, st.max)))
  {
    hide NameOf, TagOf, Chunks;
    var b := GroupSubs(st, g.key, Chunks(g.items, st.max));
    forall i, j | 0 <= i < j < |b| ensures b[i].name != b[j].name {
      NamesAgree(st.subscriptionPrefix, g.key, i + 1, g.key, j + 1);
    }
  }

  /** A further group brings no name that is there already exactly when its safe name is new. */
  lemma NewNames(st: Settings, front: seq<Group<Point>>, g: Group<Point>)
    requires st.max > 0 && NonEmptyGroups(front) && g.items != []
    ensures var a, b := AllSubs(st, front), GroupSubs(st, g.key, Chunks(g.items, st.max));
      (forall j :: 0 <= j < |b| ==> !HasName(a, b[j].name)) <==>
          (forall k :: 0 <= k < |front| ==> SafeName(front[k].key) != SafeName(g.key))
  {
    hide NameOf, TagOf, Chunks, SafeName, HasName, AllSubs;
    var a, b := AllSubs(st, front), GroupSubs(st, g.key, Chunks(g.items, st.max));
    ChunksPartition(g.items, st.max);
    forall j | 0 <= j < |b| ensures HasName(a, b[j].name) <==> HasChunk(st, front, g.key, j + 1) {
      NameOccurs(st, front, g.key, j + 1);
    }
    forall k | 0 <= k < |front| ensures 1 <= |Chunks(front[k].items, st.max)| {
      ChunksPartition(front[k].items, st.max);
    }
    assert HasName(a, b[0].name) <==> HasChunk(st, front, g.key, 1);
  }

  lemma SafeKeysSnoc(groups: seq<Group<Point>>)
    requires groups != []
    ensures var n := |groups| - 1;
      SafeKeysDiffer(groups) <==>
        SafeKeysDiffer(groups[..n]) && forall k :: 0 <= k < n ==>
            SafeName(groups[..n][k].key) != SafeName(groups[n].key)
  {
    hide SafeName;
    var n := |groups| - 1;
    assert forall k :: 0 <= k < n ==> groups[..n][k] == groups[k];
  }

  lemma DistinctSum(a: seq<Subscription>, b: seq<Subscription>)
    requires DistinctNames(b)
    ensures DistinctNames(a + b) <==> DistinctNames(a) && forall j :: 0 <= j < |b| ==> !HasName(a, b[j].name)
  {
    var s := a + b;
    if DistinctNames(s) {
      forall i, j | 0 <= i < j < |a| ensures a[i].name != a[j].name { assert s[i].name != s[j].name; }
      forall j | 0 <= j < |b| ensures !HasName(a, b[j].name) {
        forall i | 0 <= i < |a| ensures a[i].name != b[j].name { assert s[i].name != s[|a| + j].name; }
      }
    }
    if DistinctNames(a) && forall j :: 0 <= j < |b| ==> !HasName(a, b[j].name) {
      forall i, j | 0 <= i < j < |s| ensures s[i].name != s[j].name {
        assert j >= |a| ==> !HasName(a, b[j - |a|].name);
        assert i >= |a| ==> b[i - |a|].name != b[j - |a|].name;
      }
    }
  }

  lemma KeysArePrefixes(points: seq<Point>)
    ensures var groups := Collect(KeyedPoints(points));
      NonEmptyGroups(groups) && (SafeKeysDiffer(groups) <==> SafeNamesDiffer(points))
  {
    hide Collect, Prefix, SafeName;
    var keyed := KeyedPoints(points);
    var groups := Collect(keyed);
    CollectIsPartition(keyed);
    assert forall i :: 0 <= i < |groups| ==> groups[i].key in GroupKeys(groups);
    if SafeKeysDiffer(groups) {
      forall i, j | 0 <= i < |points| && 0 <= j < |points| && Prefix(points[i]) != Prefix(points[j])
        ensures SafeName(Prefix(points[i])) != SafeName(Prefix(points[j]))
      {
        assert keyed[i].key in Keys(keyed) && keyed[j].key in Keys(keyed);
        var k :| 0 <= k < |groups| && groups[k].key == Prefix(points[i]);
        var l :| 0 <= l < |groups| && groups[l].key == Prefix(points[j]);
      }
    }
    if SafeNamesDiffer(points) {
      forall k, l | 0 <= k < l < |groups| ensures SafeName(groups[k].key) != SafeName(groups[l].key) {
        assert groups[k].key in Keys(keyed) && groups[l].key in Keys(keyed);
        var i :| 0 <= i < |points| && keyed[i].key == groups[k].key;
        var j :| 0 <= j < |points| && keyed[j].key == groups[l].key;
        Order.StrTotal(groups[k].key, groups[l].key);
        assert Order.StrLess(groups[k].key, groups[l].key);
      }
    }
  }

  /** The names of the subscriptions are distinct exactly when different prefixes have different safe names. */
  lemma NamesDistinctIff(st: Settings, points: seq<Point>)
    requires st.max > 0
    ensures DistinctNames(AllSubs(st, Collect(KeyedPoints(points)))) <==> SafeNamesDiffer(points)
  {
    hide Collect, DistinctNames, SafeNamesDiffer, SafeKeysDiffer, NonEmptyGroups;
    KeysArePrefixes(points);
    NamesDistinctExactly(st, Collect(KeyedPoints(points)));
  }

  lemma NotBlank(s: string, i: nat)
    requires i < |s| && !IsWhitespace(s[i])
    ensures Trim(Whitespace, s) != ""
  {
    hide IsWhitespace;
    TrimEmpty(Whitespace, s);
    assert s[i] in s;
  }

  lemma NameNotBlank(sp: string, prefix: string, index: nat)
    ensures Trim(Whitespace, NameOf(sp, prefix, index)) != ""
  {
    hide SafeName, Pad;
    var name := NameOf(sp, prefix, index);
    assert name[|sp|] == '_';
    NotBlank(name, |sp|);
  }

  lemma {:induction false} BeforeDotIsFront(s: string)
    ensures Samples.BeforeDot(s) <= s
  {
    if s != "" && s[0] != '.' {
      BeforeDotIsFront(s[1..]);
    }
  }

  /** A point with a prefix has an alias that is not blank. */
  lemma AliasNotBlank(p: Point)
    requires Prefix(p) != ""
    ensures Trim(Whitespace, p.tagName) != ""
  {
    hide IsWhitespace;
    var front := Samples.BeforeDot(p.tagName);
    BeforeDotIsFront(p.tagName);
    TrimEmpty(PyWhitespace, front);
    var c :| c in front && !Strips(PyWhitespace, c);
    var i :| 0 <= i < |front| && front[i] == c;
    NotBlank(p.tagName, i);
  }

  ghost predicate FromPoint(t: Tag, points: seq<Point>, namespace: int) {
    exists p :: p in points && t == TagOf(p, namespace)
  }

  /** Every subscription's tags come from the points. */
  lemma TagFromPoint(st: Settings, points: seq<Point>, i: nat, j: nat)
    requires st.max > 0
    requires i < |AllSubs(st, Collect(KeyedPoints(points)))| && j < |AllSubs(st, Collect(KeyedPoints(points)))[i].tags|
    ensures FromPoint(AllSubs(st, Collect(KeyedPoints(points)))[i].tags[j], points, st.namespace)
  {
    hide Collect, AllSubs, TagOf, Flatten, IsPartition;
    SubscriptionsPartition(st, points);
    var subs, all := AllSubs(st, Collect(KeyedPoints(points))), Flatten(Collect(KeyedPoints(points)));
    PartOfConcat(TagLists(subs), i, j);
    var k :| 0 <= k < |TagsOf(all, st.namespace)| && TagsOf(all, st.namespace)[k] == subs[i].tags[j];
    assert all[k] in multiset(all) && all[k] in multiset(points);
  }

  lemma {:induction false} AllAreSubscriptions(st: Settings, groups: seq<Group<Point>>)
    requires st.max > 0
    ensures forall i :: 0 <= i < |AllSubs(st, groups)| ==> IsSubscription(st, AllSubs(st, groups)[i])
  {
    hide NameOf, TagOf, Chunks;
    if groups != [] {
      var n := |groups| - 1;
      AllAreSubscriptions(st, groups[..n]);
      var chunks := Chunks(groups[n].items, st.max);
      var last := GroupSubs(st, groups[n].key, chunks);
      forall i | 0 <= i < |last| ensures IsSubscription(st, last[i]) {
        assert last[i] == SubscriptionOf(st, groups[n].key, i + 1, chunks[i]);
      }
    }
  }

  ghost predicate IsSubscription(st: Settings, s: Subscription) {
    exists prefix, index, chunk :: s == SubscriptionOf(st, prefix, index, chunk)
  }

  lemma {:induction false} PartOfConcat<T>(parts: seq<seq<T>>, i: nat, j: nat)
    requires i < |parts| && j < |parts[i]|
    ensures parts[i][j] in Concat(parts)
  {
    if i > 0 {
      PartOfConcat(parts[1..], i - 1, j);
    }
  }

  /**
   The service's configuration accepts the subscriptions exactly when different prefixes have different safe
   names.
   */
  lemma AcceptedExactly(st: Settings, points: seq<Point>)
    requires st.max > 0 && AllPrefixed(points)
    ensures Accepted(AllSubs(st, Collect(KeyedPoints(points)))) <==> SafeNamesDiffer(points)
  {
    hide Collect, AllSubs, SafeNamesDiffer, DistinctNames, Prefix, TagOf, ValidSubscription, IsSubscription;
    var keyed := KeyedPoints(points);
    var groups := Collect(keyed);
    var subs := AllSubs(st, groups);
    NamesDistinctIff(st, points);
    SubsSized(st, groups);
    AllAreSubscriptions(st, groups);
    forall i | 0 <= i < |subs| ensures ValidSubscription(subs[i]) {
      forall j | 0 <= j < |subs[i].tags| ensures FromPoint(subs[i].tags[j], points, st.namespace) {
        TagFromPoint(st, points, i, j);
      }
      SubscriptionIsValid(st, subs[i], points);
    }
  }

  lemma SubscriptionIsValid(st: Settings, s: Subscription, points: seq<Point>)
    requires AllPrefixed(points) && IsSubscription(st, s) && s.tags != []
    requires forall j :: 0 <= j < |s.tags| ==> FromPoint(s.tags[j], points, st.namespace)
    ensures ValidSubscription(s)
  {
    hide Prefix, NameOf;
    var prefix, index, chunk :| s == SubscriptionOf(st, prefix, index, chunk);
    NameNotBlank(st.subscriptionPrefix, prefix, index);
    forall j | 0 <= j < |s.tags| ensures Trim(Whitespace, s.tags[j].alias) != "" {
      var p :| p in points && s.tags[j] == TagOf(p, st.namespace);
      var k :| 0 <= k < |points| && points[k] == p;
      AliasNotBlank(p);
    }
  }

  /** What the checks reject: a blank name, a zero, a lifetime under three keep-alives (in 32 bits), a blank alias. */
  lemma RejectedExactly(s: Subscription)
    ensures !ValidSubscription(s) <==>
      || IsBlank(s.name) || s.publishingIntervalMs == 0 || s.keepAliveCount == 0
      || (s.lifetimeCount < 3 * s.keepAliveCount && s.lifetimeCount < 4294967295)
      || s.tags == [] || exists t :: t in s.tags && IsBlank(t.alias)
  {
    hide Trim, IsBlank;
    TrimIs(s.name);
    forall i | 0 <= i < |s.tags| ensures IsBlank(s.tags[i].alias) <==> Trim(Whitespace, s.tags[i].alias) == "" {
      TrimIs(s.tags[i].alias);
    }
  }

  // ---- subscriptions told from the points ----

  /** A number of at least three digits, with zeros in front only up to three. */
  predicate IsNumber(s: string, n: nat) {
    IsDigits(s) && |s| >= 3 && (|s| == 3 || s[0] != '0') && Value(s) == n
  }

  lemma NumberIs(n: nat)
    ensures IsNumber(Pad(n, 3), n)
  {
    PadValue(n, 3);
    if |Digits(n)| > 3 { FirstDigit(n); }
  }

  /** Subscription number `index` of a prefix: its name and settings, and one tag for each of its points. */
  ghost predicate IsDescribed(st: Settings, s: Subscription, prefix: string, index: nat, chunk: seq<Point>) {
    && (exists words, number :: HasWords(prefix, words) && IsNumber(number, index)
          && s.name == st.subscriptionPrefix + "_" + Words.Lower(Joined(words)) + "_" + number)
    && s.publishingIntervalMs == 500 && s.keepAliveCount == 10 && s.lifetimeCount == 30
    && |s.tags| == |chunk|
    && forall j :: 0 <= j < |chunk| ==>
         && s.tags[j].alias == chunk[j].tagName
         && s.tags[j].nodeId == "ns=" + Samples.IntText(st.namespace) + ";s=" + chunk[j].tagName
  }

  lemma SubscriptionDescribed(st: Settings, prefix: string, index: nat, chunk: seq<Point>)
    ensures IsDescribed(st, SubscriptionOf(st, prefix, index, chunk), prefix, index, chunk)
  {
    hide HasWords, SafeName, Joined, Words.Lower, IsNumber, Pad;
    var words := WordsExist(prefix);
    SafeNameIs(prefix, words);
    NumberIs(index);
  }

  /** The points of a chunk have the prefix. */
  lemma {:induction false} ChunkMembers<T>(items: seq<T>, size: nat, i: nat, x: T)
    requires size > 0 && i < |Chunks(items, size)| && x in Chunks(items, size)[i]
    ensures x in items
  {
    if |items| > size && i > 0 {
      assert Chunks(items, size)[i] == Chunks(items[size..], size)[i - 1];
      ChunkMembers(items[size..], size, i - 1, x);
    }
  }

  lemma {:induction false} AllDescribed(st: Settings, groups: seq<Group<Point>>, i: nat) returns (k: nat, index: nat)
    requires st.max > 0 && i < |AllSubs(st, groups)|
    ensures k < |groups| && 1 <= index <= |Chunks(groups[k].items, st.max)|
    ensures AllSubs(st, groups)[i]
         == SubscriptionOf(st, groups[k].key, index, Chunks(groups[k].items, st.max)[index - 1])
  {
    hide SubscriptionOf, Chunks;
    var n := |groups| - 1;
    var front := AllSubs(st, groups[..n]);
    if i < |front| {
      k, index := AllDescribed(st, groups[..n], i);
    } else {
      k, index := n, i - |front| + 1;
    }
  }

  /**
   Every subscription of an import is number 1, 2 and so on of some prefix, named by it, with settings 500, 10 and 30,
   and has the node id and alias of each of 1 to `max` points that have this prefix.
   */
  lemma SubscriptionsSpelledOut(st: Settings, points: seq<Point>, i: nat)
    requires st.max > 0 && i < |AllSubs(st, Collect(KeyedPoints(points)))|
    ensures var s := AllSubs(st, Collect(KeyedPoints(points)))[i];
      exists prefix, index, chunk :: index >= 1 && IsDescribed(st, s, prefix, index, chunk)
        && 1 <= |chunk| <= st.max && forall p :: p in chunk ==> p in points && Prefix(p) == prefix
  {
    hide Collect, AllSubs, Chunks, IsDescribed, Prefix;
    var groups := Collect(KeyedPoints(points));
    var k, index := AllDescribed(st, groups, i);
    var chunk := Chunks(groups[k].items, st.max)[index - 1];
    ChunksPartition(groups[k].items, st.max);
    SubscriptionDescribed(st, groups[k].key, index, chunk);
    forall p | p in chunk ensures p in points && Prefix(p) == groups[k].key {
      ChunkMembers(groups[k].items, st.max, index - 1, p);
      PointOfGroup(points, k, p);
    }
  }

  lemma PointOfGroup(points: seq<Point>, k: nat, p: Point)
    requires k < |Collect(KeyedPoints(points))| && p in Collect(KeyedPoints(points))[k].items
    ensures p in points && Prefix(p) == Collect(KeyedPoints(points))[k].key
  {
    hide Collect, Prefix;
    CollectKeyed(KeyedPoints(points), k, p);
  }

  // ---- routing imported points ----

  /** The route loop of `update_config`. */
  method UpdateRoutes(routes: map<string, string>, prefixes: seq<string>, table: string)
    returns (r: map<string, string>)
    ensures forall p :: p in r <==> p in routes || p in prefixes
    ensures forall p :: p in r ==> r[p] == if p in prefixes then table else routes[p]
  {
    r := routes;
    for i := 0 to |prefixes|
      invariant forall p :: p in r <==> p in routes || p in prefixes[..i]
      invariant forall p :: p in r ==> r[p] == if p in prefixes[..i] then table else routes[p]
    {
      r := r[prefixes[i] := table];
      assert prefixes[..i + 1] == prefixes[..i] + [prefixes[i]];
    }
    assert prefixes[..|prefixes|] == prefixes;
  }

  lemma {:induction false} MarkerFound(front: string, rest: string)
    requires ';' !in front
    ensures Samples.AfterMarker(front + ";s=" + rest) == Some(rest)
    decreases |front|
  {
    var s := front + ";s=" + rest;
    if front == "" {
      assert s[..3] == ";s=" && s[3..] == rest;
    } else {
      assert s[0] == front[0] && s[0] in front && ';' !in front[1..];
      assert s[..3][0] == s[0] && ";s="[0] == ';';
      assert s[1..] == front[1..] + ";s=" + rest;
      SkipOne(s);
      MarkerFound(front[1..], rest);
    }
  }

  lemma SkipOne(s: string)
    requires |s| >= 3 && s[..3] != ";s="
    ensures Samples.AfterMarker(s) == Samples.AfterMarker(s[1..])
  {
  }

  lemma NoMarkerInIndex(namespace: int)
    ensures ';' !in "ns=" + Samples.IntText(namespace)
  {
    hide Digits;
    var text := "ns=" + Samples.IntText(namespace);
    forall i | 0 <= i < |text| ensures text[i] != ';' {
      if i >= 3 { assert text[i] == Samples.IntText(namespace)[i - 3]; }
    }
  }

  /**
   The service reads back the imported tag name, and it derives the importer's prefix, and so takes the route
   that the importer entered, exactly when Python strips no more of the prefix than Rust does.
   */
  lemma ImportedPointIsRouted(p: Point, namespace: int, x: Samples.Sample, router: Samples.Router)
    requires Prefix(p) != "" && Prefix(p) in router.routes && x.nodeId == TagOf(p, namespace).nodeId
    ensures Samples.TagName(x) == p.tagName
    ensures Samples.TagPrefix(x) == Some(Prefix(p))
       <==> Trimmed(PyWhitespace, Trim(Whitespace, Samples.BeforeDot(p.tagName)))
    ensures Samples.TagPrefix(x) == Some(Prefix(p)) ==> router.TableFor(x) == router.routes[Prefix(p)]
  {
    hide Trim, Trimmed, Samples.BeforeDot, Samples.AfterMarker, Samples.IntText;
    var front := "ns=" + Samples.IntText(namespace);
    NoMarkerInIndex(namespace);
    MarkerFound(front, p.tagName);
    assert x.nodeId == front + ";s=" + p.tagName;
    AliasNotBlank(p);
    var name := Samples.BeforeDot(p.tagName);
    TrimsAgree(name);
    PyStripsMore(name);
  }

  /** What Python leaves something of, Rust leaves something of. */
  lemma PyStripsMore(s: string)
    ensures Trim(PyWhitespace, s) != "" ==> Trim(Whitespace, s) != ""
  {
    hide IsWhitespace, Trim;
    TrimEmpty(PyWhitespace, s);
    TrimEmpty(Whitespace, s);
  }
}
