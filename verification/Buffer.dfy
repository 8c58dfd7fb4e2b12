/**
 The failure buffer (src/buffer.rs): an ordered map from 8-byte keys, iterated in key order.
 `Contents` is the buffer as the rest of the service sees it, a list of numbered samples.
 */
module Buffer {
  import opened Options
  import opened Order
  import opened Samples

  const KEY_WIDTH: nat := 8
  const ID_LIMIT: nat := 0x1_0000_0000_0000_0000

  /** An entry as `drain_batch` hands it out; `id` is the number its key encodes. */
  datatype BufferedSample = BufferedSample(id: nat, sample: Sample)

  // ---- keys ----

  /** `to_be_bytes`, most significant byte first. */
  function BigEndian(n: nat, width: nat): (r: seq<int>)
    ensures |r| == width
    ensures forall k :: 0 <= k < |r| ==> 0 <= r[k] < 256
  {
    if width == 0 then [] else BigEndian(n / 256, width - 1) + [n % 256]
  }

  function Power256(width: nat): nat {
    if width == 0 then 1 else 256 * Power256(width - 1)
  }

  lemma KeySpace()
    ensures Power256(KEY_WIDTH) == ID_LIMIT
  {
    assert Power256(4) == 256 * 256 * 256 * 256;
    assert Power256(6) == 256 * 256 * Power256(4);
    assert Power256(8) == 256 * 256 * Power256(6);
  }

  lemma {:induction false} LexSnoc(a: seq<int>, b: seq<int>, x: int, y: int)
    requires |a| == |b|
    ensures LexLess(a + [x], b + [y]) <==> LexLess(a, b) || (a == b && x < y)
  {
    var a', b' := a + [x], b + [y];
    if a == [] {
      assert a' == [x] && b' == [y];
      assert [x][1..] == [] && [y][1..] == [];
    } else {
      assert a'[1..] == a[1..] + [x] && b'[1..] == b[1..] + [y];
      LexSnoc(a[1..], b[1..], x, y);
      if a[0] == b[0] && a[1..] == b[1..] {
        assert a == [a[0]] + a[1..] == b;
      }
    }
  }

  /** Key bytes compare as the numbers do. */
  lemma {:induction false} BigEndianOrder(m: nat, n: nat, width: nat)
    requires m < Power256(width) && n < Power256(width)
    ensures LexLess(BigEndian(m, width), BigEndian(n, width)) <==> m < n
    ensures BigEndian(m, width) == BigEndian(n, width) <==> m == n
  {
    if width > 0 {
      BigEndianOrder(m / 256, n / 256, width - 1);
      LexSnoc(BigEndian(m / 256, width - 1), BigEndian(n / 256, width - 1), m % 256, n % 256);
      var p, q := BigEndian(m, width), BigEndian(n, width);
      assert p[..width - 1] == BigEndian(m / 256, width - 1) && q[..width - 1] == BigEndian(n / 256, width - 1);
      assert p[width - 1] == m % 256 && q[width - 1] == n % 256;
    }
  }

  lemma KeyOrder(m: nat, n: nat)
    requires m < ID_LIMIT && n < ID_LIMIT
    ensures LexLess(Key(m), Key(n)) <==> m < n
    ensures Key(m) == Key(n) <==> m == n
  {
    KeySpace();
    BigEndianOrder(m, n, KEY_WIDTH);
  }

  function Key(id: nat): seq<int> {
    BigEndian(id, KEY_WIDTH)
  }

  // ---- the ordered map ----

  datatype Record = Record(key: seq<int>, sample: Sample)

  /** `db.insert`: keeps the records in key order, replacing an equal key. */
  function Insert(tree: seq<Record>, r: Record): seq<Record> {
    if tree == [] || LexLess(r.key, tree[0].key) then [r] + tree
    else if tree[0].key == r.key then [r] + tree[1..]
    else [tree[0]] + Insert(tree[1..], r)
  }

  /** `db.remove`. */
  function Remove(tree: seq<Record>, key: seq<int>): seq<Record> {
    if tree == [] then []
    else if tree[0].key == key then tree[1..]
    else [tree[0]] + Remove(tree[1..], key)
  }

  ghost predicate InKeyOrder(tree: seq<Record>) {
    forall i, j :: 0 <= i < j < |tree| ==> LexLess(tree[i].key, tree[j].key)
  }

  /** The map afterwards: the new record, and the others under their keys. */
  lemma {:induction false} InsertPuts(tree: seq<Record>, r: Record)
    requires InKeyOrder(tree)
    ensures forall x :: x in Insert(tree, r) <==> x == r || (x in tree && x.key != r.key)
  {
    hide LexLess;
    if tree != [] {
      assert tree == [tree[0]] + tree[1..];
      forall x | x in tree[1..] ensures LexLess(tree[0].key, x.key) {
        var k :| 0 <= k < |tree[1..]| && tree[1..][k] == x;
        assert tree[k + 1] == x;
      }
      LexTotal(r.key, tree[0].key);
      LexTotal(tree[0].key, tree[0].key);
      forall x | x in tree[1..] ensures x.key != tree[0].key && (LexLess(r.key, tree[0].key) ==> x.key != r.key) {
        LexTotal(tree[0].key, x.key);
        if LexLess(r.key, tree[0].key) {
          LexTransitive(r.key, tree[0].key, x.key);
          LexTotal(r.key, x.key);
        }
      }
      InsertPuts(tree[1..], r);
    }
  }

  lemma {:induction false} RemoveTakes(tree: seq<Record>, key: seq<int>)
    requires InKeyOrder(tree)
    ensures forall x :: x in Remove(tree, key) <==> x in tree && x.key != key
  {
    hide LexLess;
    if tree != [] {
      assert tree == [tree[0]] + tree[1..];
      forall x | x in tree[1..] ensures x.key != tree[0].key {
        var k :| 0 <= k < |tree[1..]| && tree[1..][k] == x;
        assert LexLess(tree[0].key, tree[k + 1].key);
        LexTotal(tree[0].key, x.key);
      }
      RemoveTakes(tree[1..], key);
    }
  }

  lemma {:induction false} InsertLast(tree: seq<Record>, r: Record)
    requires forall i :: 0 <= i < |tree| ==> LexLess(tree[i].key, r.key)
    ensures Insert(tree, r) == tree + [r]
  {
    if tree != [] {
      LexTotal(tree[0].key, r.key);
      InsertLast(tree[1..], r);
    }
  }

  // ---- numbered samples ----

  /** The entries a list of samples becomes when ids are handed out from `id` on. */
  function Numbered(id: nat, samples: seq<Sample>): (r: seq<BufferedSample>)
    ensures |r| == |samples|
    ensures forall k :: 0 <= k < |r| ==> r[k] == BufferedSample(id + k, samples[k])
  {
    seq(|samples|, k requires 0 <= k < |samples| => BufferedSample(id + k, samples[k]))
  }

  function SamplesOf(entries: seq<BufferedSample>): (r: seq<Sample>)
    ensures |r| == |entries|
    ensures forall k :: 0 <= k < |r| ==> r[k] == entries[k].sample
  {
    seq(|entries|, k requires 0 <= k < |entries| => entries[k].sample)
  }

  ghost predicate Increasing(entries: seq<BufferedSample>) {
    forall i, j :: 0 <= i < j < |entries| ==> entries[i].id < entries[j].id
  }

  function Without(entries: seq<BufferedSample>, id: nat): seq<BufferedSample> {
    if entries == [] then []
    else if entries[0].id == id then entries[1..]
    else [entries[0]] + Without(entries[1..], id)
  }

  function WithoutAll(entries: seq<BufferedSample>, gone: seq<BufferedSample>): seq<BufferedSample> {
    if gone == [] then entries else Without(WithoutAll(entries, gone[..|gone| - 1]), gone[|gone| - 1].id)
  }

  lemma IncreasingTail(entries: seq<BufferedSample>)
    requires Increasing(entries) && entries != []
    ensures Increasing(entries[1..]) && forall e :: e in entries[1..] ==> entries[0].id < e.id
  {
  }

  lemma IncreasingCons(x: BufferedSample, tail: seq<BufferedSample>)
    requires Increasing(tail) && forall e :: e in tail ==> x.id < e.id
    ensures Increasing([x] + tail)
  {
    forall j | 0 <= j < |tail| ensures x.id < tail[j].id { assert tail[j] in tail; }
  }

  lemma {:induction false} WithoutMembers(entries: seq<BufferedSample>, id: nat)
    requires Increasing(entries)
    ensures Increasing(Without(entries, id))
    ensures forall e :: e in Without(entries, id) <==> e in entries && e.id != id
  {
    hide Increasing;
    if entries != [] {
      IncreasingTail(entries);
      WithoutMembers(entries[1..], id);
      assert entries == [entries[0]] + entries[1..];
      if entries[0].id != id {
        IncreasingCons(entries[0], Without(entries[1..], id));
      }
    }
  }

  ghost predicate Survives(gone: seq<BufferedSample>, e: BufferedSample) {
    forall i :: 0 <= i < |gone| ==> gone[i].id != e.id
  }

  lemma SurvivesSnoc(gone: seq<BufferedSample>, last: BufferedSample, e: BufferedSample)
    ensures Survives(gone + [last], e) <==> Survives(gone, e) && last.id != e.id
  {
    var all := gone + [last];
    assert all[|gone|] == last;
    assert forall i :: 0 <= i < |gone| ==> all[i] == gone[i];
  }

  lemma {:induction false} WithoutAllMembers(entries: seq<BufferedSample>, gone: seq<BufferedSample>)
    requires Increasing(entries)
    ensures Increasing(WithoutAll(entries, gone))
    ensures forall e :: e in WithoutAll(entries, gone) <==> e in entries && Survives(gone, e)
  {
    hide Survives, Increasing, Without;
    if gone == [] {
      forall e ensures Survives(gone, e) { SurvivesNone(gone, e); }
    } else {
      var init, last := gone[..|gone| - 1], gone[|gone| - 1];
      WithoutAllMembers(entries, init);
      WithoutMembers(WithoutAll(entries, init), last.id);
      assert gone == init + [last];
      forall e ensures e in WithoutAll(entries, gone) <==> e in entries && Survives(gone, e) {
        SurvivesSnoc(init, last, e);
      }
    }
  }

  lemma SurvivesNone(gone: seq<BufferedSample>, e: BufferedSample)
    requires gone == []
    ensures Survives(gone, e)
  {
  }

  /** `SampleBuffer`. `tree` is the store as the process sees it, `synced` what is known to be on disk. */
  class SampleBuffer {
    var tree: seq<Record>
    var synced: seq<BufferedSample>
    var nextId: nat
    ghost var ids: seq<nat>

    ghost predicate Valid()
      reads this
    {
      && |ids| == |tree| && nextId <= ID_LIMIT
      && (forall i :: 0 <= i < |ids| ==> ids[i] < nextId && tree[i].key == Key(ids[i]))
      && (forall i, j :: 0 <= i < j < |ids| ==> ids[i] < ids[j])
    }

    ghost function Contents(): (r: seq<BufferedSample>)
      requires Valid()
      reads this
      ensures |r| == |tree|
      ensures forall i :: 0 <= i < |r| ==> r[i] == BufferedSample(ids[i], tree[i].sample)
    {
      seq(|tree|, i requires 0 <= i < |tree| && |ids| == |tree| reads this => BufferedSample(ids[i], tree[i].sample))
    }

    constructor ()
      ensures Valid() && Contents() == [] && synced == [] && nextId == 0
    {
      tree, synced, nextId, ids := [], [], 0, [];
    }

    /**
     `push_many`, on a store that accepts `room` more writes before it reports an error. Samples already
     written stay when a later write fails.
     */
    method PushMany(samples: seq<Sample>, room: nat) returns (ok: bool)
      requires Valid() && nextId + |samples| <= ID_LIMIT
      modifies this
      ensures Valid() && synced == old(synced)
      ensures ok <==> |samples| <= room
      ensures var n := if |samples| <= room then |samples| else room;
        && Contents() == old(Contents()) + Numbered(old(nextId), samples[..n])
        && nextId == old(nextId) + n
    {
      var i := 0;
      while i < |samples|
        invariant 0 <= i <= |samples| && i <= room && Valid() && synced == old(synced)
        invariant nextId == old(nextId) + i
        invariant Contents() == old(Contents()) + Numbered(old(nextId), samples[..i])
      {
        hide BigEndian, LexLess;
        if i == room {
          return false;
        }
        Store(samples[i]);
        assert Numbered(old(nextId), samples[..i + 1])
            == Numbered(old(nextId), samples[..i]) + [BufferedSample(old(nextId) + i, samples[i])];
        i := i + 1;
      }
      assert samples[..|samples|] == samples;
      ok := true;
    }

    /** One write under a new id. */
    method Store(sample: Sample)
      requires Valid() && nextId < ID_LIMIT
      modifies this
      ensures Valid() && synced == old(synced) && nextId == old(nextId) + 1
      ensures Contents() == old(Contents()) + [BufferedSample(old(nextId), sample)]
    {
      var r := Record(Key(nextId), sample);
      forall k | 0 <= k < |tree| ensures LexLess(tree[k].key, r.key) {
        KeyOrder(ids[k], nextId);
      }
      InsertLast(tree, r);
      tree := Insert(tree, r);
      ids := ids + [nextId];
      nextId := nextId + 1;
    }

    /** `drain_batch`: the oldest entries, which stay in the store. Reading fails after `readable` entries. */
    method DrainBatch(limit: nat, readable: nat) returns (r: Option<seq<BufferedSample>>)
      requires Valid()
      ensures var oldest := if |Contents()| <= limit then Contents() else Contents()[..limit];
        r == if |oldest| <= readable then Some(oldest) else None
    {
      var entries: seq<BufferedSample> := [];
      var i := 0;
      while i < |tree| && i < limit
        invariant 0 <= i <= |tree| && i <= limit && i <= readable && entries == Contents()[..i]
      {
        if i == readable {
          return None;
        }
        DecodeKey(ids[i]);
        entries := entries + [BufferedSample(Decode(tree[i].key), tree[i].sample)];
        i := i + 1;
      }
      assert i == |tree| ==> Contents()[..i] == Contents();
      r := Some(entries);
    }

    /** `ack`, on a store that accepts `room` more removals before it reports an error. */
    method Ack(entries: seq<BufferedSample>, room: nat) returns (ok: bool)
      requires Valid() && forall i :: 0 <= i < |entries| ==> entries[i].id < ID_LIMIT
      modifies this
      ensures Valid() && synced == old(synced) && nextId == old(nextId)
      ensures ok <==> |entries| <= room
      ensures Contents() == WithoutAll(old(Contents()), entries[..if |entries| <= room then |entries| else room])
    {
      var i := 0;
      while i < |entries|
        invariant 0 <= i <= |entries| && i <= room && Valid() && synced == old(synced) && nextId == old(nextId)
        invariant Contents() == WithoutAll(old(Contents()), entries[..i])
      {
        if i == room {
          return false;
        }
        assert entries[..i + 1][..i] == entries[..i];
        RemoveRecord(entries[i].id);
        i := i + 1;
      }
      assert entries[..|entries|] == entries;
      ok := true;
    }

    method RemoveRecord(id: nat)
      requires Valid() && id < ID_LIMIT
      modifies this
      ensures Valid() && synced == old(synced) && nextId == old(nextId)
      ensures Contents() == Without(old(Contents()), id)
    {
      hide Key, Remove, RemoveNumber, Without;
      ghost var before, contents := ids, Contents();
      RemoveAgrees(tree, ids, id, contents);
      ids := RemoveNumber(ids, id);
      tree := Remove(tree, Key(id));
      forall i | 0 <= i < |ids| ensures ids[i] < nextId {
        assert ids[i] in before;
      }
      assert Contents() == Without(contents, id);
    }

    /** `flush`, which may fail: everything the process sees is on disk. */
    method Flush(works: bool) returns (ok: bool)
      requires Valid()
      modifies this
      ensures Valid() && Contents() == old(Contents()) && nextId == old(nextId)
      ensures ok == works && synced == if works then Contents() else old(synced)
    {
      if works {
        var all := DrainBatch(|tree|, |tree|);
        synced := all.value;
      }
      ok := works;
    }
  }

  /** `from_be_bytes`. */
  function Decode(key: seq<int>): nat
    requires forall k :: 0 <= k < |key| ==> 0 <= key[k] < 256
  {
    if key == [] then 0 else Decode(key[..|key| - 1]) * 256 + key[|key| - 1]
  }

  lemma {:induction false} DecodeBigEndian(n: nat, width: nat)
    requires n < Power256(width)
    ensures Decode(BigEndian(n, width)) == n
  {
    if width > 0 {
      DecodeBigEndian(n / 256, width - 1);
      assert BigEndian(n, width)[..width - 1] == BigEndian(n / 256, width - 1);
    }
  }

  lemma DecodeKey(id: nat)
    requires id < ID_LIMIT
    ensures Decode(Key(id)) == id
  {
    KeySpace();
    DecodeBigEndian(id, KEY_WIDTH);
  }

  ghost function RemoveNumber(ids: seq<nat>, id: nat): seq<nat> {
    if ids == [] then [] else if ids[0] == id then ids[1..] else [ids[0]] + RemoveNumber(ids[1..], id)
  }

  /** A store, its entry numbers and its contents belong together. */
  ghost predicate Mirrors(tree: seq<Record>, ids: seq<nat>, contents: seq<BufferedSample>) {
    && |ids| == |tree| == |contents|
    && (forall i :: 0 <= i < |ids| ==>
          ids[i] < ID_LIMIT && tree[i].key == Key(ids[i]) && contents[i] == BufferedSample(ids[i], tree[i].sample))
    && (forall i, j :: 0 <= i < j < |ids| ==> ids[i] < ids[j])
  }

  lemma MirrorsTail(tree: seq<Record>, ids: seq<nat>, contents: seq<BufferedSample>)
    requires Mirrors(tree, ids, contents) && ids != []
    ensures Mirrors(tree[1..], ids[1..], contents[1..]) && forall n :: n in ids[1..] ==> ids[0] < n
  {
    hide Key;
  }

  lemma MirrorsCons(r: Record, id: nat, tree: seq<Record>, ids: seq<nat>, contents: seq<BufferedSample>)
    requires Mirrors(tree, ids, contents) && id < ID_LIMIT && r.key == Key(id) && forall n :: n in ids ==> id < n
    ensures Mirrors([r] + tree, [id] + ids, [BufferedSample(id, r.sample)] + contents)
  {
    hide Key;
    forall j | 0 <= j < |ids| ensures id < ids[j] { assert ids[j] in ids; }
  }

  /** Removing by key is removing by number. */
  lemma {:induction false} RemoveAgrees(tree: seq<Record>, ids: seq<nat>, id: nat, contents: seq<BufferedSample>)
    requires Mirrors(tree, ids, contents) && id < ID_LIMIT
    ensures Mirrors(Remove(tree, Key(id)), RemoveNumber(ids, id), Without(contents, id))
    ensures forall n :: n in RemoveNumber(ids, id) ==> n in ids
  {
    hide Key;
    if ids != [] {
      KeyOrder(ids[0], id);
      MirrorsTail(tree, ids, contents);
      RemoveAgrees(tree[1..], ids[1..], id, contents[1..]);
      assert ids == [ids[0]] + ids[1..];
      if ids[0] != id {
        hide Mirrors;
        MirrorsCons(tree[0], ids[0], Remove(tree[1..], Key(id)), RemoveNumber(ids[1..], id),
            Without(contents[1..], id));
      }
    }
  }
}
