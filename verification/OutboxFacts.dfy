/** What the operations on the queue's list and on its directory do, copy by copy. */
module OutboxFacts {
  import opened Basics
  import opened OutboxState

  ghost predicate InOrder(items: seq<Item>) {
    forall i, j :: 0 <= i < j < |items| ==> items[i].n < items[j].n
  }

  lemma {:induction false} SortedInOrder(items: seq<Item>)
    ensures Sorted(items) <==> InOrder(items)
  {
    if |items| > 0 {
      var init, last := items[..|items| - 1], items[|items| - 1];
      SortedInOrder(init);
      if InOrder(items) {
        forall it | it in init ensures it.n < last.n {
          var i :| 0 <= i < |init| && init[i] == it;
          assert items[i] == it;
        }
      }
      if Sorted(items) {
        forall i, j | 0 <= i < j < |items| ensures items[i].n < items[j].n {
          if j == |items| - 1 { assert init[i] in init; } else { assert init[i].n < init[j].n; }
        }
      }
    }
  }

  lemma {:induction false} SortedUnique(items: seq<Item>, a: Item, b: Item)
    requires Sorted(items) && a in items && b in items && a.n == b.n
    ensures a == b
  {
    SortedInit(items);
    var last := items[|items| - 1];
    if a != last && b != last {
      SortedUnique(items[..|items| - 1], a, b);
    }
  }

  lemma SortedInit(items: seq<Item>)
    requires Sorted(items) && |items| > 0
    ensures Sorted(items[..|items| - 1])
    ensures forall it :: it in items[..|items| - 1] ==> it.n < items[|items| - 1].n && it in items
    ensures forall it :: it in items <==> it in items[..|items| - 1] || it == items[|items| - 1]
  {
    assert items == items[..|items| - 1] + [items[|items| - 1]];
  }

  lemma SortedAppend(items: seq<Item>, it: Item)
    requires Sorted(items) && forall x :: x in items ==> x.n < it.n
    ensures Sorted(items + [it])
  {
    AppendLast(items, it);
  }

  /** The newest copy of a place is the one with the greatest number. */
  lemma {:induction false} NewestSpec(items: seq<Item>, p: Place)
    requires Sorted(items)
    ensures Newest(items, p).None? <==> forall it :: it in items ==> !Hit(it, p)
    ensures Newest(items, p).Some? ==>
              var m := Newest(items, p).value;
              m in items && Hit(m, p) && forall it :: it in items && Hit(it, p) ==> it.n <= m.n
  {
    if |items| > 0 {
      SortedInit(items);
      NewestSpec(items[..|items| - 1], p);
      assert items[|items| - 1] in items;
    }
  }

  lemma {:induction false} FindSpec(items: seq<Item>, n: nat)
    ensures Find(items, n).None? <==> forall it :: it in items ==> it.n != n
    ensures Find(items, n).Some? ==> Find(items, n).value in items && Find(items, n).value.n == n
  {
    if |items| > 0 {
      assert items == items[..|items| - 1] + [items[|items| - 1]];
      FindSpec(items[..|items| - 1], n);
    }
  }

  /** The copy in flight, as the queue holds it now. */
  ghost function InFlight(q: Queue): (it: Item)
    requires Valid(q) && q.current.Some?
    ensures it in q.items && it.n == q.current.value.n && it.size == q.current.value.size
    ensures Find(q.items, q.current.value.n) == Some(it)
  {
    var n := q.current.value.n;
    FindSpec(q.items, n);
    var it := Find(q.items, n).value;
    var i :| 0 <= i < |q.items| && q.items[i].n == n && q.items[i].size == q.current.value.size;
    SortedUnique(q.items, q.items[i], it);
    it
  }

  lemma {:induction false} WithoutReplacedMembers(items: seq<Item>, p: Place, cur: Option<nat>)
    requires Sorted(items)
    ensures Sorted(WithoutReplaced(items, p, cur))
    ensures forall it :: it in WithoutReplaced(items, p, cur) <==> it in items && !Replaced(it, p, cur)
  {
    if |items| > 0 {
      var init, last := items[..|items| - 1], items[|items| - 1];
      SortedInit(items);
      WithoutReplacedMembers(init, p, cur);
      var r := WithoutReplaced(init, p, cur);
      SortedAppend(r, last);
      assert r + [] == r;
    }
  }

  /** What is left of the list comes from it; only a copy in flight was changed. */
  lemma {:induction false} RemovedItemsFrom(items: seq<Item>, p: Place, cur: Option<nat>, x: Item)
    requires x in RemovedItems(items, p, cur)
    ensures !Hit(x, p)
    ensures x in items || (x.at == p && cur == Some(x.n) && x.trashed && x.(trashed := false) in items)
  {
    var init, last := items[..|items| - 1], items[|items| - 1];
    assert items == init + [last];
    if x in RemovedItems(init, p, cur) {
      RemovedItemsFrom(init, p, cur, x);
    }
  }

  lemma {:induction false} RemovedItemsSorted(items: seq<Item>, p: Place, cur: Option<nat>)
    requires Sorted(items)
    ensures Sorted(RemovedItems(items, p, cur))
  {
    if |items| > 0 {
      var init, last := items[..|items| - 1], items[|items| - 1];
      RemovedItemsSorted(init, p, cur);
      var r := RemovedItems(init, p, cur);
      forall x | x in r ensures x.n < last.n {
        RemovedItemsFrom(init, p, cur, x);
      }
      SortedAppend(r, last);
      SortedAppend(r, last.(trashed := true));
      assert r + [] == r;
    }
  }

  /** What becomes of one copy. */
  lemma {:induction false} RemovedItemsKeep(items: seq<Item>, p: Place, cur: Option<nat>, it: Item)
    requires it in items
    ensures !Hit(it, p) ==> it in RemovedItems(items, p, cur)
    ensures Hit(it, p) && cur == Some(it.n) ==> it.(trashed := true) in RemovedItems(items, p, cur)
  {
    var init, last := items[..|items| - 1], items[|items| - 1];
    if it != last {
      RemovedItemsKeep(init, p, cur, it);
    }
  }

  lemma {:induction false} WithoutCopyMembers(items: seq<Item>, n: nat)
    requires Sorted(items)
    ensures Sorted(WithoutCopy(items, n))
    ensures forall it :: it in WithoutCopy(items, n) <==> it in items && it.n != n
  {
    if |items| > 0 {
      var init, last := items[..|items| - 1], items[|items| - 1];
      SortedInit(items);
      WithoutCopyMembers(init, n);
      var r := WithoutCopy(init, n);
      SortedAppend(r, last);
      assert r + [] == r;
    }
  }

  lemma FailedItemsMembers(items: seq<Item>, n: nat, now: int)
    requires Sorted(items)
    ensures Sorted(FailedItems(items, n, now))
    ensures forall it :: it in items && it.n != n ==> it in FailedItems(items, n, now)
  {
    var r := FailedItems(items, n, now);
    SortedInOrder(items);
    SortedInOrder(r);
    forall it | it in items && it.n != n ensures it in r {
      var i :| 0 <= i < |items| && items[i] == it;
      assert r[i] in r;
    }
  }

  // ----- the directory -----

  lemma {:induction false} CallsConcat(d: Dir, a: seq<FsCall>, b: seq<FsCall>)
    ensures Calls(d, a + b) == Calls(Calls(d, a), b)
    decreases |b|
  {
    if |b| == 0 {
      assert a + b == a;
    } else {
      assert (a + b)[..|a + b| - 1] == a + b[..|b| - 1];
      CallsConcat(d, a, b[..|b| - 1]);
    }
  }

  /** A copy and its target gone. */
  function Dropped(d: Dir, ns: set<nat>): Dir {
    Dir(d.copies - ns, d.targets - ns)
  }

  lemma DropCallsEffect(d: Dir, n: nat)
    ensures Calls(d, DropCalls(n)) == Dropped(d, {n})
  {
    var cs := DropCalls(n);
    assert cs[..1] == [RemoveCopy(n)] && cs[..1][..0] == [];
    assert Calls(d, cs[..1]) == Call(d, RemoveCopy(n));
  }

  ghost function ReplacedNumbers(items: seq<Item>, p: Place, cur: Option<nat>): set<nat> {
    set it | it in items && Replaced(it, p, cur) :: it.n
  }

  ghost function RemovedNumbers(items: seq<Item>, p: Place, cur: Option<nat>): set<nat> {
    set it | it in items && Hit(it, p) && cur != Some(it.n) :: it.n
  }

  lemma NumbersStep(init: seq<Item>, last: Item, p: Place, cur: Option<nat>)
    ensures ReplacedNumbers(init + [last], p, cur) ==
            ReplacedNumbers(init, p, cur) + if Replaced(last, p, cur) then {last.n} else {}
    ensures RemovedNumbers(init + [last], p, cur) ==
            RemovedNumbers(init, p, cur) + if Hit(last, p) && cur != Some(last.n) then {last.n} else {}
  {
  }

  lemma DropAfter(d: Dir, a: seq<FsCall>, gone: set<nat>, n: nat)
    requires Calls(d, a) == Dropped(d, gone)
    ensures Calls(d, a + DropCalls(n)) == Dropped(d, gone + {n})
  {
    CallsConcat(d, a, DropCalls(n));
    DropCallsEffect(Calls(d, a), n);
  }

  lemma {:induction false} ReplaceCallsEffect(d: Dir, items: seq<Item>, p: Place, cur: Option<nat>)
    ensures Calls(d, ReplaceCalls(items, p, cur)) == Dropped(d, ReplacedNumbers(items, p, cur))
  {
    if |items| == 0 {
      assert ReplacedNumbers(items, p, cur) == {};
    } else {
      var init, last := items[..|items| - 1], items[|items| - 1];
      assert items == init + [last];
      ReplaceCallsEffect(d, init, p, cur);
      NumbersStep(init, last, p, cur);
      DropAfter(d, ReplaceCalls(init, p, cur), ReplacedNumbers(init, p, cur), last.n);
      assert ReplaceCalls(init, p, cur) + [] == ReplaceCalls(init, p, cur);
    }
  }

  lemma {:induction false} RemoveCallsEffect(d: Dir, items: seq<Item>, p: Place, cur: Option<nat>)
    ensures Calls(d, RemoveCalls(items, p, cur)) == Dropped(d, RemovedNumbers(items, p, cur))
  {
    if |items| == 0 {
      assert RemovedNumbers(items, p, cur) == {};
    } else {
      var init, last := items[..|items| - 1], items[|items| - 1];
      assert items == init + [last];
      RemoveCallsEffect(d, init, p, cur);
      NumbersStep(init, last, p, cur);
      DropAfter(d, RemoveCalls(init, p, cur), RemovedNumbers(init, p, cur), last.n);
      assert RemoveCalls(init, p, cur) + [] == RemoveCalls(init, p, cur);
    }
  }

  ghost function HitNumbers(items: seq<Item>, p: Place): set<nat> {
    set it | it in items && Hit(it, p) :: it.n
  }

  lemma {:induction false} MoveCallsKeys(d: Dir, items: seq<Item>, src: Place, dst: Place)
    requires HitNumbers(items, src) <= d.targets.Keys
    ensures Calls(d, MoveCalls(items, src, dst)).targets.Keys == d.targets.Keys
  {
    if |items| > 0 {
      var init, last := items[..|items| - 1], items[|items| - 1];
      var a := MoveCalls(init, src, dst);
      assert HitNumbers(init, src) <= HitNumbers(items, src);
      MoveCallsKeys(d, init, src, dst);
      if Hit(last, src) {
        assert last.n in HitNumbers(items, src);
        assert (a + [WriteTarget(last.n, Target(dst, last.mtime as real))])[..|a|] == a;
      } else {
        assert a + [] == a;
      }
    }
  }

  lemma {:induction false} MoveCallsCopies(d: Dir, items: seq<Item>, src: Place, dst: Place)
    ensures Calls(d, MoveCalls(items, src, dst)).copies == d.copies
  {
    if |items| > 0 {
      var init, last := items[..|items| - 1], items[|items| - 1];
      MoveCallsCopies(d, init, src, dst);
      MoveCallsStep(d, init, last, src, dst);
      assert items == init + [last];
    }
  }

  lemma MoveCallsStep(d: Dir, init: seq<Item>, last: Item, src: Place, dst: Place)
    ensures Calls(d, MoveCalls(init + [last], src, dst)) ==
            var e := Calls(d, MoveCalls(init, src, dst));
            if Hit(last, src) then e.(targets := e.targets[last.n := Target(dst, last.mtime as real)]) else e
  {
    AppendLast(init, last);
    var a := MoveCalls(init, src, dst);
    if Hit(last, src) {
      AppendLast(a, WriteTarget(last.n, Target(dst, last.mtime as real)));
    } else {
      assert a + [] == a;
    }
  }

  /** A copy renamed is stored with its new place, the others keep theirs. */
  lemma {:induction false} MoveCallsTarget(d: Dir, items: seq<Item>, src: Place, dst: Place, it: Item)
    requires Sorted(items) && it in items
    ensures var e := Calls(d, MoveCalls(items, src, dst));
            if Hit(it, src) then it.n in e.targets && e.targets[it.n] == Target(dst, it.mtime as real)
            else
              && (it.n in e.targets <==> it.n in d.targets)
              && (it.n in d.targets ==> e.targets[it.n] == d.targets[it.n])
  {
    var init, last := items[..|items| - 1], items[|items| - 1];
    SortedInit(items);
    assert items == init + [last];
    MoveCallsStep(d, init, last, src, dst);
    if it == last {
      MoveCallsOther(d, init, src, dst, it.n);
    } else {
      MoveCallsTarget(d, init, src, dst, it);
    }
  }

  lemma {:induction false} MoveCallsOther(d: Dir, items: seq<Item>, src: Place, dst: Place, n: nat)
    requires forall it :: it in items ==> it.n != n
    ensures var e := Calls(d, MoveCalls(items, src, dst));
            (n in e.targets <==> n in d.targets) && (n in d.targets ==> e.targets[n] == d.targets[n])
  {
    if |items| > 0 {
      var init, last := items[..|items| - 1], items[|items| - 1];
      assert items == init + [last];
      MoveCallsOther(d, init, src, dst, n);
      MoveCallsStep(d, init, last, src, dst);
    }
  }

  lemma AddCallsEffect(q: Queue, n: nat, p: Place, bytes: Bytes, mtimeMs: real)
    requires forall it :: it in q.items ==> it.n != n
    ensures Calls(q.dir, AddCalls(q, n, p, bytes, mtimeMs)) ==
            var d := Dropped(q.dir, ReplacedNumbers(q.items, p, Sending(q)));
            Dir(d.copies[n := bytes], d.targets[n := Target(p, mtimeMs)])
  {
    var head := [TakeCopy(n, bytes), WriteTarget(n, Target(p, mtimeMs))];
    CallsConcat(q.dir, head, ReplaceCalls(q.items, p, Sending(q)));
    assert head[..1] == [TakeCopy(n, bytes)] && head[..1][..0] == [];
    assert Calls(q.dir, head[..1]) == Call(q.dir, TakeCopy(n, bytes));
    ReplaceCallsEffect(Calls(q.dir, head), q.items, p, Sending(q));
    assert n !in ReplacedNumbers(q.items, p, Sending(q));
  }
}
