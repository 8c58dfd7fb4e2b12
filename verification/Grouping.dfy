/** Lexicographic order, as byte strings, Rust `String`s and Python strings compare. */
module Order {

  predicate LexLess(a: seq<int>, b: seq<int>) {
    if b == [] then false
    else if a == [] then true
    else if a[0] == b[0] then LexLess(a[1..], b[1..])
    else a[0] < b[0]
  }

  function Codes(s: string): (r: seq<int>)
    ensures |r| == |s|
  {
    if s == [] then [] else [s[0] as int] + Codes(s[1..])
  }

  predicate StrLess(a: string, b: string) {
    LexLess(Codes(a), Codes(b))
  }

  lemma {:induction false} LexTotal(a: seq<int>, b: seq<int>)
    ensures LexLess(a, b) || a == b || LexLess(b, a)
    ensures !(LexLess(a, b) && LexLess(b, a)) && !LexLess(a, a)
  {
    if a != [] {
      LexTotal(a[1..], a[1..]);
    }
    if a != [] && b != [] {
      LexTotal(a[1..], b[1..]);
      if a[0] == b[0] && a[1..] == b[1..] {
        assert a == [a[0]] + a[1..] == b;
      }
    }
  }

  lemma {:induction false} LexTransitive(a: seq<int>, b: seq<int>, c: seq<int>)
    requires LexLess(a, b) && LexLess(b, c)
    ensures LexLess(a, c)
  {
    if a != [] && a[0] == b[0] == c[0] {
      LexTransitive(a[1..], b[1..], c[1..]);
    }
  }

  lemma {:induction false} CodesInjective(a: string, b: string)
    requires Codes(a) == Codes(b)
    ensures a == b
  {
    if a != [] {
      assert Codes(a)[1..] == Codes(a[1..]) && Codes(b)[1..] == Codes(b[1..]);
      assert Codes(a)[0] == a[0] as int && Codes(b)[0] == b[0] as int;
      CodesInjective(a[1..], b[1..]);
      assert a == [a[0]] + a[1..] == b;
    }
  }

  lemma StrTotal(a: string, b: string)
    ensures StrLess(a, b) || a == b || StrLess(b, a)
    ensures !(StrLess(a, b) && StrLess(b, a)) && !StrLess(a, a)
  {
    LexTotal(Codes(a), Codes(b));
    LexTotal(Codes(a), Codes(a));
    if Codes(a) == Codes(b) {
      CodesInjective(a, b);
    }
  }

  lemma StrTransitive(a: string, b: string, c: string)
    requires StrLess(a, b) && StrLess(b, c)
    ensures StrLess(a, c)
  {
    LexTransitive(Codes(a), Codes(b), Codes(c));
  }
}

/** Grouping by key into an ordered map of lists, as `entry(key).or_insert_with(Vec::new).push(x)` does. */
module Grouping {
  import opened Order

  datatype Keyed<T> = Keyed(key: string, item: T)
  datatype Group<T> = Group(key: string, items: seq<T>)

  /** One push into the ordered map. */
  function Push<T>(groups: seq<Group<T>>, x: Keyed<T>): seq<Group<T>> {
    if groups == [] then [Group(x.key, [x.item])]
    else if groups[0].key == x.key then [Group(x.key, groups[0].items + [x.item])] + groups[1..]
    else if StrLess(x.key, groups[0].key) then [Group(x.key, [x.item])] + groups
    else [groups[0]] + Push(groups[1..], x)
  }

  /** The items of one key, in order. */
  function Select<T>(xs: seq<Keyed<T>>, key: string): seq<T> {
    if xs == [] then []
    else
      var rest, last := Select(xs[..|xs| - 1], key), xs[|xs| - 1];
      if last.key == key then rest + [last.item] else rest
  }

  function Keys<T>(xs: seq<Keyed<T>>): set<string> {
    set i | 0 <= i < |xs| :: xs[i].key
  }

  ghost predicate Ascending<T>(groups: seq<Group<T>>) {
    forall i, j :: 0 <= i < j < |groups| ==> StrLess(groups[i].key, groups[j].key)
  }

  function GroupKeys<T>(groups: seq<Group<T>>): set<string> {
    set i | 0 <= i < |groups| :: groups[i].key
  }

  /** A stable partition: keys ascending, one group per key, each group the items of its key in order. */
  ghost predicate IsPartition<T>(groups: seq<Group<T>>, xs: seq<Keyed<T>>) {
    && Ascending(groups)
    && GroupKeys(groups) == Keys(xs)
    && forall i :: 0 <= i < |groups| ==> groups[i].items == Select(xs, groups[i].key) && groups[i].items != []
  }

  function Lookup<T>(groups: seq<Group<T>>, key: string): seq<T> {
    if groups == [] then [] else if groups[0].key == key then groups[0].items else Lookup(groups[1..], key)
  }

  lemma {:induction false} LookupAt<T>(groups: seq<Group<T>>, i: nat)
    requires Ascending(groups) && i < |groups|
    ensures Lookup(groups, groups[i].key) == groups[i].items
  {
    if i > 0 {
      StrTotal(groups[0].key, groups[i].key);
      assert StrLess(groups[0].key, groups[i].key);
      assert groups[1..][i - 1] == groups[i];
      LookupAt(groups[1..], i - 1);
    }
  }

  lemma {:induction false} LookupAbsent<T>(groups: seq<Group<T>>, key: string)
    requires key !in GroupKeys(groups)
    ensures Lookup(groups, key) == []
  {
    if groups != [] {
      assert groups[0].key in GroupKeys(groups);
      forall i | 0 <= i < |groups[1..]| ensures groups[1..][i].key != key {
        assert groups[i + 1].key in GroupKeys(groups);
      }
      LookupAbsent(groups[1..], key);
    }
  }

  lemma {:induction false} PushKeys<T>(groups: seq<Group<T>>, x: Keyed<T>)
    requires Ascending(groups)
    ensures Ascending(Push(groups, x))
    ensures GroupKeys(Push(groups, x)) == GroupKeys(groups) + {x.key}
  {
    hide StrLess;
    var r := Push(groups, x);
    if groups == [] {
      assert r == [Group(x.key, [x.item])] && r[0].key == x.key;
      assert GroupKeys(groups) == {} && GroupKeys(r) == {x.key};
    } else if groups[0].key == x.key {
      assert forall i :: 0 <= i < |groups| ==> r[i].key == groups[i].key;
      assert GroupKeys(r) == GroupKeys(groups);
      assert groups[0].key in GroupKeys(groups);
    } else if StrLess(x.key, groups[0].key) {
      forall i | 0 < i < |r| ensures StrLess(x.key, r[i].key) {
        if i > 1 { StrTransitive(x.key, groups[0].key, groups[i - 1].key); }
      }
      forall k | k in GroupKeys(groups) ensures k in GroupKeys(r) {
        var i :| 0 <= i < |groups| && groups[i].key == k;
        assert r[i + 1].key == k;
      }
      assert r[0].key == x.key;
      assert GroupKeys(r) == GroupKeys(groups) + {x.key};
    } else {
      var tail := Push(groups[1..], x);
      PushKeys(groups[1..], x);
      StrTotal(groups[0].key, x.key);
      KeysOfCons(groups[0], groups[1..]);
      KeysOfCons(groups[0], tail);
      assert groups == [groups[0]] + groups[1..];
      forall i | 0 <= i < |tail| ensures StrLess(groups[0].key, tail[i].key) {
        assert tail[i].key in GroupKeys(tail);
        if tail[i].key != x.key {
          var j :| 0 <= j < |groups[1..]| && groups[1..][j].key == tail[i].key;
          assert StrLess(groups[0].key, groups[j + 1].key);
        }
      }
    }
  }

  lemma KeysOfCons<T>(g: Group<T>, rest: seq<Group<T>>)
    ensures GroupKeys([g] + rest) == {g.key} + GroupKeys(rest)
  {
    var all := [g] + rest;
    assert all[0].key == g.key;
    assert forall i :: 0 <= i < |rest| ==> all[i + 1].key == rest[i].key;
  }

  lemma BelowAll<T>(groups: seq<Group<T>>, key: string)
    requires Ascending(groups) && groups != [] && StrLess(key, groups[0].key)
    ensures key !in GroupKeys(groups)
  {
    forall i | 0 <= i < |groups| ensures groups[i].key != key {
      StrTotal(key, key);
      if i > 0 { StrTransitive(key, groups[0].key, groups[i].key); }
    }
  }

  lemma {:induction false} PushLookup<T>(groups: seq<Group<T>>, x: Keyed<T>, key: string)
    requires Ascending(groups)
    ensures Lookup(Push(groups, x), key) == Lookup(groups, key) + (if x.key == key then [x.item] else [])
  {
    var r := Push(groups, x);
    if groups == [] {
      assert r[1..] == [];
    } else if groups[0].key == x.key {
      assert r[1..] == groups[1..];
    } else if StrLess(x.key, groups[0].key) {
      assert r[1..] == groups;
      if x.key == key {
        BelowAll(groups, key);
        LookupAbsent(groups, key);
      }
    } else {
      assert r[1..] == Push(groups[1..], x);
      PushLookup(groups[1..], x, key);
    }
  }

  /** Pushing the items of a list one after the other. */
  function Collect<T>(xs: seq<Keyed<T>>): seq<Group<T>> {
    if xs == [] then [] else Push(Collect(xs[..|xs| - 1]), xs[|xs| - 1])
  }

  lemma {:induction false} CollectLookup<T>(xs: seq<Keyed<T>>, key: string)
    ensures Ascending(Collect(xs)) && GroupKeys(Collect(xs)) == Keys(xs)
    ensures Lookup(Collect(xs), key) == Select(xs, key)
  {
    hide Push, StrLess, Lookup, GroupKeys;
    if xs == [] {
      LookupNone<T>(key);
    } else {
      var init, last := xs[..|xs| - 1], xs[|xs| - 1];
      CollectLookup(init, key);
      PushKeys(Collect(init), last);
      PushLookup(Collect(init), last, key);
      assert Keys(xs) == Keys(init) + {last.key} by {
        assert xs == init + [last];
        assert forall i :: 0 <= i < |init| ==> xs[i].key == init[i].key;
      }
    }
  }

  lemma LookupNone<T>(key: string)
    ensures Lookup<T>([], key) == [] && GroupKeys<T>([]) == {} && Keys<T>([]) == {}
  {
  }

  lemma {:induction false} SelectSome<T>(xs: seq<Keyed<T>>, key: string)
    ensures Select(xs, key) != [] <==> key in Keys(xs)
  {
    if xs != [] {
      var init, last := xs[..|xs| - 1], xs[|xs| - 1];
      SelectSome(init, key);
      assert forall i :: 0 <= i < |init| ==> xs[i].key == init[i].key;
      if key in Keys(xs) {
        var i :| 0 <= i < |xs| && xs[i].key == key;
        if i < |init| { assert init[i].key in Keys(init); }
      } else {
        assert key !in Keys(init);
      }
    }
  }

  lemma CollectIsPartition<T>(xs: seq<Keyed<T>>)
    ensures IsPartition(Collect(xs), xs)
  {
    var groups := Collect(xs);
    CollectLookup(xs, "");
    forall i | 0 <= i < |groups| ensures groups[i].items == Select(xs, groups[i].key) && groups[i].items != [] {
      CollectLookup(xs, groups[i].key);
      LookupAt(groups, i);
      SelectSome(xs, groups[i].key);
      assert groups[i].key in GroupKeys(groups);
    }
  }

  function Flatten<T>(groups: seq<Group<T>>): seq<T> {
    if groups == [] then [] else groups[0].items + Flatten(groups[1..])
  }

  function Items<T>(xs: seq<Keyed<T>>): (r: seq<T>)
    ensures |r| == |xs|
    ensures forall i :: 0 <= i < |xs| ==> r[i] == xs[i].item
  {
    seq(|xs|, i requires 0 <= i < |xs| => xs[i].item)
  }

  lemma {:induction false} SelectKeyed<T>(xs: seq<Keyed<T>>, key: string, x: T)
    requires x in Select(xs, key)
    ensures exists i :: 0 <= i < |xs| && xs[i] == Keyed(key, x)
  {
    var n := |xs| - 1;
    if x in Select(xs[..n], key) {
      SelectKeyed(xs[..n], key, x);
      var i :| 0 <= i < n && xs[..n][i] == Keyed(key, x);
      assert xs[i] == Keyed(key, x);
    } else {
      assert xs[n] == Keyed(key, x);
    }
  }

  lemma CollectKeyed<T>(xs: seq<Keyed<T>>, i: nat, x: T)
    requires i < |Collect(xs)| && x in Collect(xs)[i].items
    ensures exists k :: 0 <= k < |xs| && xs[k] == Keyed(Collect(xs)[i].key, x)
  {
    CollectIsPartition(xs);
    SelectKeyed(xs, Collect(xs)[i].key, x);
  }

  lemma {:induction false} PushFlatten<T>(groups: seq<Group<T>>, x: Keyed<T>)
    ensures multiset(Flatten(Push(groups, x))) == multiset(Flatten(groups)) + multiset{x.item}
  {
    var r := Push(groups, x);
    if groups == [] {
      assert r[1..] == [] && Flatten(r) == [x.item];
    } else if groups[0].key == x.key {
      assert r[1..] == groups[1..];
    } else if StrLess(x.key, groups[0].key) {
      assert r[1..] == groups;
    } else {
      assert r[1..] == Push(groups[1..], x);
      PushFlatten(groups[1..], x);
    }
  }

  lemma FlattenNone<T>()
    ensures Flatten<T>([]) == []
  {
  }

  /** Grouping loses and invents nothing. */
  lemma {:induction false} CollectFlatten<T>(xs: seq<Keyed<T>>)
    ensures multiset(Flatten(Collect(xs))) == multiset(Items(xs))
  {
    hide Push, Flatten;
    if xs == [] {
      assert Items(xs) == [];
      FlattenNone<T>();
    } else {
      var init, last := xs[..|xs| - 1], xs[|xs| - 1];
      CollectFlatten(init);
      PushFlatten(Collect(init), last);
      assert Items(xs) == Items(init) + [last.item];
    }
  }

  /** The loop of `group_samples_by_table`, `group_buffered_by_table` and the importer. */
  method GroupByKey<T>(xs: seq<Keyed<T>>) returns (groups: seq<Group<T>>)
    ensures groups == Collect(xs)
    ensures IsPartition(groups, xs)
  {
    groups := [];
    for i := 0 to |xs|
      invariant groups == Collect(xs[..i])
    {
      assert xs[..i + 1][..i] == xs[..i];
      groups := Push(groups, xs[i]);
    }
    assert xs[..|xs|] == xs;
    CollectIsPartition(xs);
  }
}
