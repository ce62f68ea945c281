/**
 The queue's list as the Map it is in the agent: the numbers are its keys. It needs no order among them, so it also
 stands for a queue read back in another order, or one whose next number was taken already.
 */
module OutboxKeys {
  import opened Basics
  import opened OutboxState
  import opened OutboxFacts
  import opened OutboxValid

  /** No number twice, said one copy at a time. */
  ghost predicate Distinct(items: seq<Item>) {
    |items| == 0 ||
    (Distinct(items[..|items| - 1]) && forall it :: it in items[..|items| - 1] ==> it.n != items[|items| - 1].n)
  }

  lemma {:induction false} SortedDistinct(items: seq<Item>)
    requires Sorted(items)
    ensures Distinct(items)
  {
    if |items| > 0 {
      SortedDistinct(items[..|items| - 1]);
    }
  }

  lemma DistinctAppend(items: seq<Item>, it: Item)
    requires Distinct(items) && forall x :: x in items ==> x.n != it.n
    ensures Distinct(items + [it])
  {
    AppendLast(items, it);
  }

  lemma {:induction false} ReplacedLeft(items: seq<Item>, p: Place, cur: Option<nat>, it: Item)
    ensures it in WithoutReplaced(items, p, cur) <==> it in items && !Replaced(it, p, cur)
  {
    if |items| > 0 {
      assert items == items[..|items| - 1] + [items[|items| - 1]];
      ReplacedLeft(items[..|items| - 1], p, cur, it);
    }
  }

  lemma {:induction false} DistinctReplaced(items: seq<Item>, p: Place, cur: Option<nat>)
    requires Distinct(items)
    ensures Distinct(WithoutReplaced(items, p, cur))
  {
    if |items| > 0 {
      var init, last := items[..|items| - 1], items[|items| - 1];
      DistinctReplaced(init, p, cur);
      var r := WithoutReplaced(init, p, cur);
      forall x | x in r ensures x.n != last.n {
        ReplacedLeft(init, p, cur, x);
      }
      DistinctAppend(r, last);
      assert r + [] == r;
    }
  }

  lemma {:induction false} DistinctRemoved(items: seq<Item>, p: Place, cur: Option<nat>)
    requires Distinct(items)
    ensures Distinct(RemovedItems(items, p, cur))
  {
    if |items| > 0 {
      var init, last := items[..|items| - 1], items[|items| - 1];
      DistinctRemoved(init, p, cur);
      var r := RemovedItems(init, p, cur);
      forall x | x in r ensures x.n != last.n {
        RemovedItemsFrom(init, p, cur, x);
      }
      DistinctAppend(r, last);
      DistinctAppend(r, last.(trashed := true));
      assert r + [] == r;
    }
  }

  lemma {:induction false} CopyLeft(items: seq<Item>, n: nat, it: Item)
    ensures it in WithoutCopy(items, n) <==> it in items && it.n != n
  {
    if |items| > 0 {
      assert items == items[..|items| - 1] + [items[|items| - 1]];
      CopyLeft(items[..|items| - 1], n, it);
    }
  }

  lemma {:induction false} DistinctWithout(items: seq<Item>, n: nat)
    requires Distinct(items)
    ensures Distinct(WithoutCopy(items, n))
  {
    if |items| > 0 {
      var init, last := items[..|items| - 1], items[|items| - 1];
      DistinctWithout(init, n);
      var r := WithoutCopy(init, n);
      forall x | x in r ensures x.n != last.n {
        CopyLeft(init, n, x);
      }
      DistinctAppend(r, last);
      assert r + [] == r;
    }
  }

  lemma {:induction false} DistinctSame(a: seq<Item>, b: seq<Item>)
    requires Distinct(a) && |a| == |b| && forall i :: 0 <= i < |a| ==> a[i].n == b[i].n
    ensures Distinct(b)
  {
    if |a| > 0 {
      DistinctSame(a[..|a| - 1], b[..|b| - 1]);
      forall it | it in b[..|b| - 1] ensures it.n != b[|b| - 1].n {
        var i :| 0 <= i < |b| - 1 && b[i] == it;
        assert a[i] in a[..|a| - 1];
      }
    }
  }

  lemma {:induction false} SplitDiffers(a: seq<Item>, x: Item, b: seq<Item>)
    requires Distinct(a + [x] + b)
    ensures forall it :: it in a || it in b ==> it.n != x.n
    decreases |b|
  {
    var all := a + [x] + b;
    if |b| == 0 {
      assert all == a + [x];
      AppendLast(a, x);
    } else {
      var b', last := b[..|b| - 1], b[|b| - 1];
      assert all[..|all| - 1] == a + [x] + b';
      SplitDiffers(a, x, b');
      assert x in a + [x] + b';
    }
  }

  // ----- a copy taken under a number that may be queued already -----

  /** A key set again keeps its position; a new one goes to the end. */
  function SetItem(items: seq<Item>, it: Item): seq<Item> {
    if Find(items, it.n).Some? then
      seq(|items|, i requires 0 <= i < |items| => if items[i].n == it.n then it else items[i])
    else
      items + [it]
  }

  lemma SetItemKeys(items: seq<Item>, it: Item)
    requires Distinct(items)
    ensures Distinct(SetItem(items, it))
    ensures it in SetItem(items, it)
    ensures forall x :: x in items ==> exists y :: y in SetItem(items, it) && y.n == x.n
  {
    var r := SetItem(items, it);
    FindSpec(items, it.n);
    if Find(items, it.n).Some? {
      DistinctSame(items, r);
      var k :| 0 <= k < |items| && items[k] == Find(items, it.n).value;
      assert r[k] == it;
      forall x | x in items ensures exists y :: y in r && y.n == x.n {
        var i :| 0 <= i < |items| && items[i] == x;
        assert r[i] in r && r[i].n == x.n;
      }
    } else {
      DistinctAppend(items, it);
      forall x | x in items ensures exists y :: y in r && y.n == x.n {
        assert x in r;
      }
    }
  }

  /** A copy taken into the queue, whatever its number. */
  function Taken(q: Queue, n: nat, p: Place, bytes: Bytes, mtimeMs: real): Queue {
    var q' := Add(q, n, p, bytes, mtimeMs);
    q'.(items := SetItem(WithoutReplaced(q.items, p, Sending(q)), Item(n, p, |bytes|, mtimeMs.Floor, false, 0, 0)))
  }

  lemma TakenIsAdd(q: Queue, n: nat, p: Place, bytes: Bytes, mtimeMs: real)
    requires Joins(q, n, p)
    ensures Taken(q, n, p, bytes, mtimeMs) == Add(q, n, p, bytes, mtimeMs)
  {
    FindSpec(WithoutReplaced(q.items, p, Sending(q)), n);
  }

  /** One more copy, the newest, and everything agreeing with the directory. */
  ghost predicate JoinsAsNewest(q: Queue, n: nat, p: Place, bytes: Bytes, mtimeMs: real) {
    var q' := Taken(q, n, p, bytes, mtimeMs);
    Valid(q') && |q'.items| == |WithoutReplaced(q.items, p, Sending(q))| + 1
  }

  /** A copy replaced under the very number of the new one takes the new one's files with it. */
  lemma ReplacedNumberLost(q: Queue, n: nat, p: Place, bytes: Bytes, mtimeMs: real)
    requires n in ReplacedNumbers(q.items, p, Sending(q))
    ensures n !in Calls(q.dir, AddCalls(q, n, p, bytes, mtimeMs)).targets
  {
    var head := [TakeCopy(n, bytes), WriteTarget(n, Target(p, mtimeMs))];
    CallsConcat(q.dir, head, ReplaceCalls(q.items, p, Sending(q)));
    ReplaceCallsEffect(Calls(q.dir, head), q.items, p, Sending(q));
  }

  /** Taking a copy adds it as the newest and leaves the others, exactly when its number joins. */
  lemma TakenJoinsIff(q: Queue, n: nat, p: Place, bytes: Bytes, mtimeMs: real)
    requires Valid(q)
    ensures JoinsAsNewest(q, n, p, bytes, mtimeMs) <==> Joins(q, n, p)
  {
    if Joins(q, n, p) {
      TakenIsAdd(q, n, p, bytes, mtimeMs);
      JoinValid(q, n, p, bytes, mtimeMs);
    }
    if JoinsAsNewest(q, n, p, bytes, mtimeMs) {
      NewestJoins(q, n, p, bytes, mtimeMs);
    }
  }

  lemma NewestJoins(q: Queue, n: nat, p: Place, bytes: Bytes, mtimeMs: real)
    requires Valid(q) && JoinsAsNewest(q, n, p, bytes, mtimeMs)
    ensures Joins(q, n, p)
  {
    var kept := WithoutReplaced(q.items, p, Sending(q));
    var q', it := Taken(q, n, p, bytes, mtimeMs), Item(n, p, |bytes|, mtimeMs.Floor, false, 0, 0);
    FindSpec(kept, n);
    assert q'.items == kept + [it];
    AppendLast(kept, it);
    assert q'.items[|kept|] == it && Stored(it, q'.dir);
    WithoutReplacedMembers(q.items, p, Sending(q));
    forall x | x in q.items ensures x.n != n {
      if x.n == n {
        assert x !in kept;
        ReplacedNumberLost(q, n, p, bytes, mtimeMs);
      }
    }
  }
}
