/** Every operation keeps the queue's list, its directory and the copy in flight in agreement. */
module OutboxValid {
  import opened Basics
  import opened OutboxState
  import opened OutboxFacts

  lemma AddValid(q: Queue, n: nat, p: Place, bytes: Bytes, mtimeMs: real)
    requires Valid(q) && FreshNumber(q, n)
    ensures Valid(Add(q, n, p, bytes, mtimeMs))
  {
    WithoutReplacedMembers(q.items, p, Sending(q));
    JoinValid(q, n, p, bytes, mtimeMs);
  }

  lemma JoinValid(q: Queue, n: nat, p: Place, bytes: Bytes, mtimeMs: real)
    requires Valid(q) && Joins(q, n, p)
    ensures Valid(Add(q, n, p, bytes, mtimeMs))
  {
    AddSorted(q, n, p, bytes, mtimeMs);
    AddStored(q, n, p, bytes, mtimeMs);
    AddKeys(q, n, p, bytes, mtimeMs);
    if q.current.Some? {
      AddKeepsFlight(q, n, p, bytes, mtimeMs);
    }
  }

  lemma AddSorted(q: Queue, n: nat, p: Place, bytes: Bytes, mtimeMs: real)
    requires Valid(q) && Joins(q, n, p)
    ensures Sorted(Add(q, n, p, bytes, mtimeMs).items)
  {
    WithoutReplacedMembers(q.items, p, Sending(q));
    SortedAppend(WithoutReplaced(q.items, p, Sending(q)), Item(n, p, |bytes|, mtimeMs.Floor, false, 0, 0));
  }

  lemma AddStored(q: Queue, n: nat, p: Place, bytes: Bytes, mtimeMs: real)
    requires Valid(q) && Joins(q, n, p)
    ensures AllStored(Add(q, n, p, bytes, mtimeMs).items, Add(q, n, p, bytes, mtimeMs).dir)
  {
    var kept, q' := WithoutReplaced(q.items, p, Sending(q)), Add(q, n, p, bytes, mtimeMs);
    forall i | 0 <= i < |q'.items| ensures Stored(q'.items[i], q'.dir) {
      if i < |kept| {
        KeptStored(q, n, p, bytes, mtimeMs, kept[i]);
      } else {
        NewStored(q, n, p, bytes, mtimeMs);
      }
    }
  }

  lemma AddKeepsFlight(q: Queue, n: nat, p: Place, bytes: Bytes, mtimeMs: real)
    requires Valid(q) && q.current.Some?
    ensures InFlight(q) in Add(q, n, p, bytes, mtimeMs).items
    ensures Queued(Add(q, n, p, bytes, mtimeMs).items, q.current.value.n, q.current.value.size)
  {
    WithoutReplacedMembers(q.items, p, Sending(q));
    assert InFlight(q) in WithoutReplaced(q.items, p, Sending(q));
    MemberQueued(Add(q, n, p, bytes, mtimeMs).items, InFlight(q));
  }

  lemma NewStored(q: Queue, n: nat, p: Place, bytes: Bytes, mtimeMs: real)
    requires Joins(q, n, p)
    ensures Stored(Item(n, p, |bytes|, mtimeMs.Floor, false, 0, 0), Add(q, n, p, bytes, mtimeMs).dir)
  {
    AddCallsEffect(q, n, p, bytes, mtimeMs);
  }

  lemma AddKeys(q: Queue, n: nat, p: Place, bytes: Bytes, mtimeMs: real)
    requires Valid(q) && Joins(q, n, p)
    ensures Add(q, n, p, bytes, mtimeMs).dir.targets.Keys == Numbers(Add(q, n, p, bytes, mtimeMs).items)
  {
    AddCallsEffect(q, n, p, bytes, mtimeMs);
    AddNumbers(q, n, p, bytes, mtimeMs);
  }

  lemma KeptStored(q: Queue, n: nat, p: Place, bytes: Bytes, mtimeMs: real, it: Item)
    requires Valid(q) && Joins(q, n, p) && it in WithoutReplaced(q.items, p, Sending(q))
    ensures Stored(it, Add(q, n, p, bytes, mtimeMs).dir)
  {
    AddCallsEffect(q, n, p, bytes, mtimeMs);
    WithoutReplacedMembers(q.items, p, Sending(q));
    KeptIsNotReplaced(q, it, p);
  }

  lemma AddNumbers(q: Queue, n: nat, p: Place, bytes: Bytes, mtimeMs: real)
    requires Valid(q) && Joins(q, n, p)
    ensures Numbers(Add(q, n, p, bytes, mtimeMs).items) ==
            Numbers(q.items) - ReplacedNumbers(q.items, p, Sending(q)) + {n}
  {
    var kept := WithoutReplaced(q.items, p, Sending(q));
    NumbersAppend(kept, Item(n, p, |bytes|, mtimeMs.Floor, false, 0, 0));
    KeptNumbers(q.items, p, Sending(q));
  }

  lemma NumbersAppend(a: seq<Item>, x: Item)
    ensures Numbers(a + [x]) == Numbers(a) + {x.n}
  {
    var r := a + [x];
    assert r[|a|].n == x.n;
    forall k | k in Numbers(a) ensures k in Numbers(r) {
      var i :| 0 <= i < |a| && a[i].n == k;
      assert r[i].n == k;
    }
  }

  lemma {:induction false} KeptNumbers(items: seq<Item>, p: Place, cur: Option<nat>)
    requires Sorted(items)
    ensures Numbers(WithoutReplaced(items, p, cur)) == Numbers(items) - ReplacedNumbers(items, p, cur)
  {
    if |items| > 0 {
      var init, last := items[..|items| - 1], items[|items| - 1];
      SortedInit(items);
      KeptNumbers(init, p, cur);
      assert items == init + [last];
      NumbersAppend(init, last);
      NumbersAppend(WithoutReplaced(init, p, cur), last);
      NumbersStep(init, last, p, cur);
      assert WithoutReplaced(init, p, cur) + [] == WithoutReplaced(init, p, cur);
      LastIsNew(init, last, p, cur);
    }
  }

  lemma LastIsNew(init: seq<Item>, last: Item, p: Place, cur: Option<nat>)
    requires forall it :: it in init ==> it.n < last.n
    ensures last.n !in Numbers(init) && last.n !in ReplacedNumbers(init, p, cur)
  {
  }

  lemma MemberQueued(items: seq<Item>, it: Item)
    requires it in items
    ensures Queued(items, it.n, it.size)
  {
  }

  lemma KeptIsNotReplaced(q: Queue, it: Item, p: Place)
    requires Sorted(q.items) && it in q.items && !Replaced(it, p, Sending(q))
    ensures it.n !in ReplacedNumbers(q.items, p, Sending(q))
  {
    if it.n in ReplacedNumbers(q.items, p, Sending(q)) {
      var x :| x in q.items && Replaced(x, p, Sending(q)) && x.n == it.n;
      SortedUnique(q.items, x, it);
    }
  }

  /** The same copies, whatever else changed of them. */
  lemma SameNumbers(a: seq<Item>, b: seq<Item>)
    requires |a| == |b| && forall i :: 0 <= i < |a| ==> a[i].n == b[i].n
    ensures Numbers(a) == Numbers(b)
    ensures Sorted(a) ==> Sorted(b)
  {
    SortedInOrder(a);
    SortedInOrder(b);
    forall k | k in Numbers(a) ensures k in Numbers(b) {
      var i :| 0 <= i < |a| && a[i].n == k;
      assert b[i].n == k;
    }
    forall k | k in Numbers(b) ensures k in Numbers(a) {
      var i :| 0 <= i < |b| && b[i].n == k;
      assert a[i].n == k;
    }
  }

  lemma RenameValid(q: Queue, src: Place, dst: Place)
    requires Valid(q)
    ensures Valid(RenamePending(q, src, dst))
  {
    var q' := RenamePending(q, src, dst);
    SameNumbers(q.items, q'.items);
    forall i | 0 <= i < |q.items| ensures Stored(q'.items[i], q'.dir) {
      RenamedStored(q, src, dst, i);
    }
    MoveCallsKeys(q.dir, q.items, src, dst);
    if q.current.Some? {
      var i :| 0 <= i < |q.items| && q.items[i].n == q.current.value.n && q.items[i].size == q.current.value.size;
      assert q'.items[i].n == q.items[i].n && q'.items[i].size == q.items[i].size;
    }
  }

  lemma RenamedStored(q: Queue, src: Place, dst: Place, i: nat)
    requires Valid(q) && i < |q.items|
    ensures Stored(Moved(q.items[i], src, dst), RenamePending(q, src, dst).dir)
  {
    MoveCallsTarget(q.dir, q.items, src, dst, q.items[i]);
    MoveCallsCopies(q.dir, q.items, src, dst);
  }

  lemma RemoveValid(q: Queue, p: Place)
    requires Valid(q)
    ensures Valid(RemovePending(q, p))
  {
    var q' := RemovePending(q, p);
    RemovedItemsSorted(q.items, p, Sending(q));
    forall i | 0 <= i < |q'.items| ensures Stored(q'.items[i], q'.dir) {
      LeftStored(q, p, q'.items[i]);
    }
    RemoveKeys(q, p);
    if q.current.Some? {
      var it := InFlight(q);
      RemovedItemsKeep(q.items, p, Sending(q), it);
      if Hit(it, p) { MemberQueued(q'.items, it.(trashed := true)); } else { MemberQueued(q'.items, it); }
    }
  }

  lemma LeftStored(q: Queue, p: Place, x: Item)
    requires Valid(q) && x in RemovePending(q, p).items
    ensures Stored(x, RemovePending(q, p).dir) && x.n in RemovePending(q, p).dir.targets
  {
    RemovedItemsFrom(q.items, p, Sending(q), x);
    StaysStored(q, p, if x in q.items then x else x.(trashed := false));
  }

  lemma RemoveKeys(q: Queue, p: Place)
    requires Valid(q)
    ensures RemovePending(q, p).dir.targets.Keys == Numbers(RemovePending(q, p).items)
  {
    var q' := RemovePending(q, p);
    RemoveCallsEffect(q.dir, q.items, p, Sending(q));
    forall k | k in q'.dir.targets ensures k in Numbers(q'.items) {
      var i :| 0 <= i < |q.items| && q.items[i].n == k;
      var it := q.items[i];
      RemovedItemsKeep(q.items, p, Sending(q), it);
      assert !(Hit(it, p) && Sending(q) != Some(it.n));
      MemberQueued(q'.items, if Hit(it, p) then it.(trashed := true) else it);
    }
    forall k | k in Numbers(q'.items) ensures k in q'.dir.targets {
      var i :| 0 <= i < |q'.items| && q'.items[i].n == k;
      LeftStored(q, p, q'.items[i]);
    }
  }

  lemma StaysStored(q: Queue, p: Place, it: Item)
    requires Valid(q) && it in q.items && (!Hit(it, p) || Sending(q) == Some(it.n))
    ensures Stored(it, RemovePending(q, p).dir) && it.n in RemovePending(q, p).dir.targets
  {
    RemoveCallsEffect(q.dir, q.items, p, Sending(q));
    if it.n in RemovedNumbers(q.items, p, Sending(q)) {
      var y :| y in q.items && Hit(y, p) && Sending(q) != Some(y.n) && y.n == it.n;
      SortedUnique(q.items, y, it);
    }
  }

  lemma BeginValid(q: Queue, it: Item)
    requires Valid(q) && it in q.items
    ensures Valid(Begin(q, it))
  {
  }

  lemma EndValid(q: Queue)
    requires Valid(q) && q.current.Some?
    ensures Valid(End(q))
  {
    var n := q.current.value.n;
    var left := WithoutCopy(q.items, n);
    WithoutCopyMembers(q.items, n);
    DropCallsEffect(q.dir, n);
    forall i | 0 <= i < |left| ensures Stored(left[i], End(q).dir) {
      assert left[i] in q.items && left[i].n != n;
    }
    WithoutCopyNumbers(q.items, n);
  }

  lemma WithoutCopyNumbers(items: seq<Item>, n: nat)
    requires Sorted(items)
    ensures Numbers(WithoutCopy(items, n)) == Numbers(items) - {n}
  {
    var left := WithoutCopy(items, n);
    WithoutCopyMembers(items, n);
    forall k | k in Numbers(left) ensures k in Numbers(items) - {n} {
      var i :| 0 <= i < |left| && left[i].n == k;
      assert left[i] in items;
    }
    forall k | k in Numbers(items) - {n} ensures k in Numbers(left) {
      var i :| 0 <= i < |items| && items[i].n == k;
      assert items[i] in left;
    }
  }

  lemma FailValid(q: Queue, now: int)
    requires Valid(q) && q.current.Some?
    ensures Valid(Fail(q, now))
  {
    SameNumbers(q.items, Fail(q, now).items);
  }
}
