/**
 The table of a sample, told from its node id and alias (src/sink.rs, src/types.rs), without the functions
 that compute it.
 */
module Routing {
  import opened Text
  import opened Options
  import opened Samples
  import opened SinkMachine
  import SinkTheorems

  predicate MarkerAt(s: string, k: nat) {
    k + 3 <= |s| && s[k] == ';' && s[k + 1] == 's' && s[k + 2] == '='
  }

  predicate FirstMarkerAt(s: string, k: nat) {
    MarkerAt(s, k) && forall i: nat :: i < k ==> !MarkerAt(s, i)
  }

  /** The node id names its tag behind its first `;s=`; without one, or with blanks only behind it, the alias does. */
  ghost predicate IsTag(x: Sample, tag: string) {
    if exists k :: FirstMarkerAt(x.nodeId, k) && !IsBlank(x.nodeId[k + 3..])
    then exists k :: FirstMarkerAt(x.nodeId, k) && tag == x.nodeId[k + 3..]
    else tag == x.alias
  }

  /** The text before the first dot of a tag. */
  predicate IsHead(tag: string, head: string, rest: string) {
    tag == head + rest && '.' !in head && (rest == "" || rest[0] == '.')
  }

  /** The text before the first dot of a tag is `p` between whitespace. */
  ghost predicate IsPrefix(tag: string, p: string) {
    exists head, rest :: IsHead(tag, head, rest) && Encloses(head, p)
  }

  /** A route of the router applies to the sample. */
  ghost predicate Applies(rt: Router, x: Sample, p: string) {
    p in rt.routes && exists tag :: IsTag(x, tag) && IsPrefix(tag, p)
  }

  /** The table a sample belongs in. */
  ghost predicate Belongs(rt: Router, x: Sample, table: string) {
    if exists p :: Applies(rt, x, p)
    then exists p :: Applies(rt, x, p) && table == rt.routes[p]
    else table == rt.defaultTable
  }

  // ---- tags ----

  lemma {:induction false} AfterMarkerIs(s: string)
    ensures match AfterMarker(s)
      case Some(tag) => exists k :: FirstMarkerAt(s, k) && tag == s[k + 3..]
      case None => forall k :: !FirstMarkerAt(s, k)
  {
    if |s| < 3 {
    } else if s[..3] == ";s=" {
      assert s[0] == s[..3][0] && s[1] == s[..3][1] && s[2] == s[..3][2];
      assert FirstMarkerAt(s, 0);
    } else {
      AfterMarkerIs(s[1..]);
      Later(s);
    }
  }

  /** A text that does not begin with the marker has it one place later than its rest. */
  lemma Later(s: string)
    requires |s| >= 3 && s[..3] != ";s="
    ensures forall k: nat :: FirstMarkerAt(s[1..], k) ==> FirstMarkerAt(s, k + 1) && s[1..][k + 3..] == s[k + 4..]
    ensures forall k: nat :: FirstMarkerAt(s, k) ==> k > 0 && FirstMarkerAt(s[1..], k - 1)
  {
    assert s[..3] == [s[0], s[1], s[2]];
    assert forall k: nat :: MarkerAt(s[1..], k) <==> MarkerAt(s, k + 1);
    forall k: nat | FirstMarkerAt(s[1..], k) ensures FirstMarkerAt(s, k + 1) && s[1..][k + 3..] == s[k + 4..] {
      forall i: nat | i < k + 1 ensures !MarkerAt(s, i) {
        if i > 0 { assert !MarkerAt(s[1..], i - 1); }
      }
    }
  }

  lemma FirstIsOne(s: string, j: nat, k: nat)
    requires FirstMarkerAt(s, j) && FirstMarkerAt(s, k)
    ensures j == k
  {
  }

  lemma TagIsOne(x: Sample, tag: string)
    ensures IsTag(x, tag) <==> tag == TagName(x)
  {
    hide AfterMarker, IsBlank, Trim;
    AfterMarkerIs(x.nodeId);
    match AfterMarker(x.nodeId)
    case Some(t) =>
      TrimIs(t);
      var k :| FirstMarkerAt(x.nodeId, k) && t == x.nodeId[k + 3..];
      forall j | FirstMarkerAt(x.nodeId, j) ensures j == k { FirstIsOne(x.nodeId, j, k); }
    case None =>
  }

  // ---- prefixes ----

  lemma {:induction false} BeforeDotIs(s: string)
    ensures var head := BeforeDot(s);
      '.' !in head && |head| <= |s| && head == s[..|head|] && (|head| == |s| || s[|head|] == '.')
  {
    if s != "" && s[0] != '.' {
      BeforeDotIs(s[1..]);
    }
  }

  lemma {:induction false} BeforeDotOf(head: string, rest: string)
    requires '.' !in head && (rest == "" || rest[0] == '.')
    ensures BeforeDot(head + rest) == head
  {
    var s := head + rest;
    if head == "" {
      assert s == rest;
    } else {
      assert s[0] == head[0] && s[1..] == head[1..] + rest;
      BeforeDotOf(head[1..], rest);
    }
  }

  lemma PrefixIsOne(tag: string, p: string)
    ensures IsPrefix(tag, p) <==> p != "" && p == Trim(Whitespace, BeforeDot(tag))
  {
    hide Trim, BeforeDot, Encloses;
    var head := BeforeDot(tag);
    TrimIs(head);
    if IsPrefix(tag, p) {
      var other, rest :| IsHead(tag, other, rest) && Encloses(other, p);
      BeforeDotOf(other, rest);
    }
    BeforeDotIs(tag);
    assert IsHead(tag, head, tag[|head|..]);
  }

  // ---- tables ----

  lemma AppliesIs(rt: Router, x: Sample, p: string)
    ensures Applies(rt, x, p) <==> p in rt.routes && TagPrefix(x) == Some(p)
  {
    hide IsTag, IsPrefix, Trim, BeforeDot, TagName;
    TagIsOne(x, TagName(x));
    PrefixIsOne(TagName(x), p);
    if Applies(rt, x, p) {
      var tag :| IsTag(x, tag) && IsPrefix(tag, p);
      TagIsOne(x, tag);
    }
  }

  /**
   A sample's table is that of the route named by the text before the first dot of its tag, trimmed, and the
   default table exactly when no route is.
   */
  lemma TableExactly(rt: Router, x: Sample, table: string)
    ensures table == rt.TableFor(x) <==> Belongs(rt, x, table)
  {
    hide TagPrefix, Applies;
    forall p ensures Applies(rt, x, p) <==> p in rt.routes && TagPrefix(x) == Some(p) { AppliesIs(rt, x, p); }
  }

  /** After every run of the sink each history row is in the table its sample belongs in. */
  lemma RowsWhereTheyBelong(rt: Router, steps: seq<Step>, i: nat)
    requires Exec(rt, Init(), steps).Some? && i < |Exec(rt, Init(), steps).value.log|
    ensures var row := Exec(rt, Init(), steps).value.log[i]; Belongs(rt, row.sample, row.table)
  {
    hide Exec, Inv, Belongs, Router.TableFor;
    SinkTheorems.InitSound(rt);
    RunKeeps(rt, Init(), steps);
    var s := Exec(rt, Init(), steps).value;
    SinkTheorems.RoutedPart(rt, s);
    TableExactly(rt, s.log[i].sample, s.log[i].table);
  }
}
