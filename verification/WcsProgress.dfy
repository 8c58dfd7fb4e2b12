/** How many batches it takes until the inbox has no eligible event left. */
module WcsProgress {
  import opened Naturals
  import opened IdSets
  import opened WcsCatalog
  import opened WcsInbox
  import opened WcsProcedures

  /** The attempts an event has left. */
  function Left(e: Entry): nat {
    if Claimable(e) && e.attempts < 5 then 5 - e.attempts else 0
  }

  function AttemptsLeft(inbox: map<int, Entry>, ids: set<int>): nat
    requires forall id :: id in ids ==> id in inbox
  {
    if |ids| == 0 then 0 else Left(inbox[Min(ids)]) + AttemptsLeft(inbox, ids - {Min(ids)})
  }

  /** Batch after batch, each with failing calls of its own, and no new events. */
  ghost predicate Batches(c: Catalogs, inboxes: seq<map<int, Entry>>, limit: nat, faults: seq<map<int, nat>>) {
    && |inboxes| == |faults| + 1
    && forall i :: 0 <= i < |faults| ==> AfterBatch(c, inboxes[i], inboxes[i + 1], limit, faults[i])
  }

  lemma BatchEntry(c: Catalogs, before: map<int, Entry>, after: map<int, Entry>, limit: nat, faults: map<int, nat>,
                   id: int)
    requires AfterBatch(c, before, after, limit, faults) && id in before
    ensures id in after && Left(after[id]) + (if id in FirstIds(Eligible(before), limit) then 1 else 0)
      <= Left(before[id])
    ensures id in Eligible(after) ==> id in Eligible(before)
    ensures id in Eligible(after) && id in FirstIds(Eligible(before), limit) ==>
      after[id].attempts == before[id].attempts + 1
    ensures id in Eligible(after) && id !in FirstIds(Eligible(before), limit) ==> after[id] == before[id]
  {
    hide Completes, FirstIds;
    assert id in FirstIds(Eligible(before), limit) ==> id in Eligible(before);
  }

  /** A batch uses up an attempt for each event it takes. */
  lemma {:induction false} BatchUses(c: Catalogs, before: map<int, Entry>, after: map<int, Entry>, limit: nat,
                                     faults: map<int, nat>, ids: set<int>)
    requires AfterBatch(c, before, after, limit, faults) && forall id :: id in ids ==> id in before
    ensures forall id :: id in ids ==> id in after
    ensures AttemptsLeft(after, ids) + |ids * FirstIds(Eligible(before), limit)| <= AttemptsLeft(before, ids)
    decreases |ids|
  {
    hide Left, FirstIds, Attempted;
    var chosen := FirstIds(Eligible(before), limit);
    if |ids| == 0 {
      assert ids * chosen == {};
    } else {
      var m := Min(ids);
      BatchEntry(c, before, after, limit, faults, m);
      BatchUses(c, before, after, limit, faults, ids - {m});
      assert ids * chosen == (ids - {m}) * chosen + (if m in chosen then {m} else {});
    }
  }

  lemma {:induction false} EligibleLeft(inbox: map<int, Entry>, ids: set<int>)
    requires forall id :: id in ids ==> id in inbox
    ensures AttemptsLeft(inbox, ids) >= |ids * Eligible(inbox)|
    decreases |ids|
  {
    if |ids| == 0 {
      assert ids * Eligible(inbox) == {};
    } else {
      var m := Min(ids);
      EligibleLeft(inbox, ids - {m});
      assert ids * Eligible(inbox) == (ids - {m}) * Eligible(inbox) + (if m in Eligible(inbox) then {m} else {});
    }
  }

  lemma FullBatch(c: Catalogs, before: map<int, Entry>, after: map<int, Entry>, limit: nat, faults: map<int, nat>)
    requires AfterBatch(c, before, after, limit, faults)
    ensures after.Keys == before.Keys && Eligible(after) <= Eligible(before) && |Eligible(after)| <= |Eligible(before)|
    ensures AttemptsLeft(after, after.Keys) + Smaller(limit, |Eligible(before)|) <= AttemptsLeft(before, before.Keys)
  {
    hide FirstIds, Left, AttemptsLeft, Attempted;
    var chosen := FirstIds(Eligible(before), limit);
    BatchUses(c, before, after, limit, faults, before.Keys);
    assert before.Keys * chosen == chosen;
    forall id | id in Eligible(after) ensures id in Eligible(before) {
      BatchEntry(c, before, after, limit, faults, id);
    }
    SubsetSize(Eligible(after), Eligible(before));
  }

  /** While at least `limit` events are eligible, each batch uses up `limit` attempts. */
  lemma {:induction false} FullBatches(c: Catalogs, inboxes: seq<map<int, Entry>>, limit: nat,
                                       faults: seq<map<int, nat>>, n: nat, total: nat)
    requires Batches(c, inboxes, limit, faults) && n <= |faults| && total == n * limit
    ensures |Eligible(inboxes[n])| >= limit ==>
      AttemptsLeft(inboxes[n], inboxes[n].Keys) + total <= AttemptsLeft(inboxes[0], inboxes[0].Keys)
    ensures |Eligible(inboxes[n])| <= |Eligible(inboxes[0])|
  {
    hide AttemptsLeft, AfterBatch, Eligible;
    if n > 0 {
      assert total == (n - 1) * limit + limit;
      FullBatches(c, inboxes, limit, faults, n - 1, total - limit);
      FullBatch(c, inboxes[n - 1], inboxes[n], limit, faults[n - 1]);
    }
  }

  /** Once fewer than `limit` events are eligible, each batch takes all of them. */
  lemma {:induction false} SmallBatches(c: Catalogs, inboxes: seq<map<int, Entry>>, limit: nat,
                                        faults: seq<map<int, nat>>, k: nat, n: nat)
    requires Batches(c, inboxes, limit, faults) && k <= n <= |faults| && |Eligible(inboxes[k])| < limit
    ensures |Eligible(inboxes[n])| < limit && forall id :: id in Eligible(inboxes[n]) ==>
      inboxes[n][id].attempts >= n - k
  {
    hide AfterBatch;
    if k < n {
      SmallBatches(c, inboxes, limit, faults, k, n - 1);
      var before, after := inboxes[n - 1], inboxes[n];
      FullBatch(c, before, after, limit, faults[n - 1]);
      AllTaken(Eligible(before), limit);
      forall id | id in Eligible(after) ensures after[id].attempts >= n - k {
        assert id in Eligible(before);
        BatchEntry(c, before, after, limit, faults[n - 1], id);
      }
    }
  }

  lemma AllTaken(s: set<int>, limit: nat)
    requires |s| <= limit
    ensures FirstIds(s, limit) == s
  {
    SameSize(FirstIds(s, limit), s);
  }

  lemma SameSize(a: set<int>, b: set<int>)
    requires a <= b && |a| == |b|
    ensures a == b
  {
    assert forall x :: x in b ==> x in a || x in b - a;
    if b - a != {} {
      var x := Witness(b - a);
      SubsetSize(a, b - {x});
    }
  }

  /**
   Whatever calls fail: with no new events, after as many full batches as the attempts left allow and five
   more, no event is eligible. Each is then processed, or has used its five attempts, or hangs in `processing`.
   */
  lemma InboxSettles(c: Catalogs, inboxes: seq<map<int, Entry>>, limit: nat, faults: seq<map<int, nat>>)
    requires limit > 0 && Batches(c, inboxes, limit, faults)
    requires |faults| >= AttemptsLeft(inboxes[0], inboxes[0].Keys) / limit + 5
    ensures var end := inboxes[|faults|];
      && Eligible(end) == {} && end.Keys == inboxes[0].Keys
      && forall id :: id in end ==>
           end[id].status == Processed || end[id].attempts >= 5 || end[id].status == Processing
  {
    hide AfterBatch, AttemptsLeft;
    var left := AttemptsLeft(inboxes[0], inboxes[0].Keys);
    var k := left / limit;
    assert left < k * limit + limit;
    FullBatches(c, inboxes, limit, faults, k, k * limit);
    if |Eligible(inboxes[k])| >= limit {
      EligibleLeft(inboxes[k], inboxes[k].Keys);
      assert inboxes[k].Keys * Eligible(inboxes[k]) == Eligible(inboxes[k]);
    }
    SmallBatches(c, inboxes, limit, faults, k, |faults|);
    var end := inboxes[|faults|];
    forall id ensures id !in Eligible(end) { }
    assert Eligible(end) == {};
    SameKeys(c, inboxes, limit, faults, |faults|);
  }

  lemma {:induction false} SameKeys(c: Catalogs, inboxes: seq<map<int, Entry>>, limit: nat,
                                    faults: seq<map<int, nat>>, n: nat)
    requires Batches(c, inboxes, limit, faults) && n <= |faults|
    ensures inboxes[n].Keys == inboxes[0].Keys
  {
    hide Attempted, FirstIds, Eligible;
    if n > 0 {
      SameKeys(c, inboxes, limit, faults, n - 1);
      assert AfterBatch(c, inboxes[n - 1], inboxes[n], limit, faults[n - 1]);
    }
  }
}
