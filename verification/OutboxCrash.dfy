/**
 The queue survives a crash between any two file-system calls: what a restart finds in the directory is, copy
 by copy, the queue before the interrupted operation or after it.
 */
module OutboxCrash {
  import opened Basics
  import opened OutboxState
  import opened OutboxFacts
  import opened OutboxValid
  import opened OutboxKeys

  // ----- what a restart takes from the directory (vdisk.ts `constructor`) -----

  function RestoredItem(d: Dir, n: nat): Option<Item> {
    if n in d.targets && n in d.copies && !LocalOnlyName(d.targets[n].at.name) then
      Some(Item(n, d.targets[n].at, |d.copies[n]|, d.targets[n].mtime.Floor, false, 0, 0))
    else None
  }

  /** What of a queued copy is stored: not that it was removed while uploaded, nor when to try again. */
  function Durable(it: Item): Item {
    it.(trashed := false, fails := 0, notBefore := 0)
  }

  /** The queue's copy of a number as a restart should find it. */
  function Kept(q: Queue, n: nat): Option<Item> {
    match Find(q.items, n)
    case None => None
    case Some(it) => if Uploadable(it) then Some(Durable(it)) else None
  }

  lemma ValidRestores(q: Queue, n: nat)
    requires Valid(q)
    ensures RestoredItem(q.dir, n) == Kept(q, n)
  {
    FindSpec(q.items, n);
    if n in q.dir.targets {
      assert n in Numbers(q.items);
    }
    if Find(q.items, n).Some? {
      var i :| 0 <= i < |q.items| && q.items[i] == Find(q.items, n).value;
      assert q.items[i].n in Numbers(q.items);
    }
  }

  // ----- the calls of one operation -----

  datatype Op =
    | Take(n: nat, p: Place, bytes: Bytes, mtimeMs: real)
    | Rename(src: Place, dst: Place)
    | Remove(gone: Place)
    | Touch(k: nat, mtime: int)
    | Uploaded

  ghost predicate Possible(q: Queue, op: Op) {
    match op
    case Take(n, _, _, _) => FreshNumber(q, n)
    case Rename(_, _) => true
    case Remove(_) => true
    case Touch(k, mtime) => Find(q.items, k).Some?
    case Uploaded => q.current.Some?
  }

  function TouchedItem(it: Item, k: nat, mtime: int): Item {
    if it.n == k then it.(mtime := mtime) else it
  }

  function TouchedItems(items: seq<Item>, k: nat, mtime: int): (r: seq<Item>)
    ensures |r| == |items|
    ensures forall i :: 0 <= i < |items| ==> r[i] == TouchedItem(items[i], k, mtime)
  {
    seq(|items|, i requires 0 <= i < |items| => TouchedItem(items[i], k, mtime))
  }

  /** A new modification time for a queued copy. */
  function Touched(q: Queue, k: nat, mtime: int): Queue
    requires Find(q.items, k).Some?
  {
    q.(items := TouchedItems(q.items, k, mtime),
       dir := Call(q.dir, WriteTarget(k, Target(Find(q.items, k).value.at, mtime as real))))
  }

  ghost function OpCalls(q: Queue, op: Op): seq<FsCall>
    requires Possible(q, op)
  {
    match op
    case Take(n, p, bytes, mtimeMs) => AddCalls(q, n, p, bytes, mtimeMs)
    case Rename(src, dst) => MoveCalls(q.items, src, dst)
    case Remove(p) => RemoveCalls(q.items, p, Sending(q))
    case Touch(k, mtime) => [WriteTarget(k, Target(Find(q.items, k).value.at, mtime as real))]
    case Uploaded => DropCalls(q.current.value.n)
  }

  ghost function After(q: Queue, op: Op): Queue
    requires Possible(q, op)
  {
    match op
    case Take(n, p, bytes, mtimeMs) => Add(q, n, p, bytes, mtimeMs)
    case Rename(src, dst) => RenamePending(q, src, dst)
    case Remove(p) => RemovePending(q, p)
    case Touch(k, mtime) => Touched(q, k, mtime)
    case Uploaded => End(q)
  }

  lemma TouchedValid(q: Queue, k: nat, mtime: int)
    requires Valid(q) && Find(q.items, k).Some?
    ensures Valid(Touched(q, k, mtime))
  {
    var q' := Touched(q, k, mtime);
    SameNumbers(q.items, q'.items);
    forall i | 0 <= i < |q.items| ensures Stored(q'.items[i], q'.dir) {
      TouchedStored(q, k, mtime, i);
    }
    TouchedKeys(q, k, mtime);
    if q.current.Some? {
      var i :| 0 <= i < |q.items| && q.items[i].n == q.current.value.n && q.items[i].size == q.current.value.size;
      assert q'.items[i].n == q.items[i].n && q'.items[i].size == q.items[i].size;
    }
  }

  lemma TouchedKeys(q: Queue, k: nat, mtime: int)
    requires Valid(q) && Find(q.items, k).Some?
    ensures Touched(q, k, mtime).dir.targets.Keys == q.dir.targets.Keys
  {
    FindSpec(q.items, k);
    var f :| 0 <= f < |q.items| && q.items[f] == Find(q.items, k).value;
    assert Stored(q.items[f], q.dir);
  }

  lemma TouchedStored(q: Queue, k: nat, mtime: int, i: nat)
    requires Valid(q) && Find(q.items, k).Some? && i < |q.items|
    ensures Stored(TouchedItem(q.items[i], k, mtime), Touched(q, k, mtime).dir)
  {
    FindSpec(q.items, k);
    if q.items[i].n == k {
      SortedUnique(q.items, q.items[i], Find(q.items, k).value);
    }
  }

  lemma AfterValid(q: Queue, op: Op)
    requires Valid(q) && Possible(q, op)
    ensures Valid(After(q, op)) && After(q, op).dir == Calls(q.dir, OpCalls(q, op))
  {
    match op
    case Take(n, p, bytes, mtimeMs) => AddValid(q, n, p, bytes, mtimeMs);
    case Rename(src, dst) => RenameValid(q, src, dst);
    case Remove(p) => RemoveValid(q, p);
    case Touch(k, mtime) =>
      TouchedValid(q, k, mtime);
      var cs := OpCalls(q, op);
      assert cs[..|cs| - 1] == [];
    case Uploaded => EndValid(q);
  }

  // ----- a crash in the middle -----

  /** The calls that concern one copy. */
  function Only(cs: seq<FsCall>, n: nat): seq<FsCall> {
    if |cs| == 0 then []
    else Only(cs[..|cs| - 1], n) + if cs[|cs| - 1].n == n then [cs[|cs| - 1]] else []
  }

  /** What the directory has of one copy. */
  datatype Slot = Slot(copy: Option<Bytes>, target: Option<Target>)

  function SlotOf(d: Dir, n: nat): Slot {
    Slot(if n in d.copies then Some(d.copies[n]) else None, if n in d.targets then Some(d.targets[n]) else None)
  }

  function SlotCall(s: Slot, c: FsCall): Slot {
    match c
    case TakeCopy(_, b) => s.(copy := Some(b))
    case WriteTarget(_, t) => s.(target := Some(t))
    case RemoveCopy(_) => s.(copy := None)
    case RemoveTarget(_) => s.(target := None)
  }

  function SlotCalls(s: Slot, cs: seq<FsCall>): Slot {
    if |cs| == 0 then s else SlotCall(SlotCalls(s, cs[..|cs| - 1]), cs[|cs| - 1])
  }

  function SlotItem(s: Slot, n: nat): Option<Item> {
    if s.target.Some? && s.copy.Some? && !LocalOnlyName(s.target.value.at.name) then
      Some(Item(n, s.target.value.at, |s.copy.value|, s.target.value.mtime.Floor, false, 0, 0))
    else None
  }

  lemma RestoredSlot(d: Dir, n: nat)
    ensures RestoredItem(d, n) == SlotItem(SlotOf(d, n), n)
  {
  }

  lemma CallSlot(d: Dir, c: FsCall, n: nat)
    ensures SlotOf(Call(d, c), n) == if c.n == n then SlotCall(SlotOf(d, n), c) else SlotOf(d, n)
  {
  }

  lemma {:induction false} OnlyMatters(d: Dir, cs: seq<FsCall>, n: nat)
    ensures SlotOf(Calls(d, cs), n) == SlotCalls(SlotOf(d, n), Only(cs, n))
  {
    if |cs| > 0 {
      var init, last := cs[..|cs| - 1], cs[|cs| - 1];
      OnlyMatters(d, init, n);
      CallSlot(Calls(d, init), last, n);
      var o := Only(init, n);
      assert (o + [last])[..|o|] == o;
      assert o + [] == o;
    }
  }

  lemma {:induction false} OnlyConcat(a: seq<FsCall>, b: seq<FsCall>, n: nat)
    ensures Only(a + b, n) == Only(a, n) + Only(b, n)
    decreases |b|
  {
    if |b| == 0 {
      assert a + b == a;
    } else {
      assert (a + b)[..|a + b| - 1] == a + b[..|b| - 1];
      OnlyConcat(a, b[..|b| - 1], n);
    }
  }

  lemma OnlyPair(x: FsCall, y: FsCall, n: nat)
    ensures Only([x], n) == if x.n == n then [x] else []
    ensures Only([x, y], n) == (if x.n == n then [x] else []) + (if y.n == n then [y] else [])
  {
    assert [x][..0] == [];
    assert [x, y][..1] == [x];
  }

  lemma OnlyDrop(a: seq<FsCall>, k: nat, n: nat)
    ensures Only(a + DropCalls(k), n) == Only(a, n) + if k == n then DropCalls(n) else []
  {
    OnlyConcat(a, DropCalls(k), n);
    OnlyPair(RemoveCopy(k), RemoveTarget(k), n);
  }

  lemma {:induction false} OnlyReplace(items: seq<Item>, p: Place, cur: Option<nat>, n: nat)
    requires Sorted(items)
    ensures Only(ReplaceCalls(items, p, cur), n) == [] || Only(ReplaceCalls(items, p, cur), n) == DropCalls(n)
    ensures (forall it :: it in items ==> it.n != n) ==> Only(ReplaceCalls(items, p, cur), n) == []
  {
    if |items| > 0 {
      var init, last := items[..|items| - 1], items[|items| - 1];
      SortedInit(items);
      OnlyReplace(init, p, cur, n);
      assert last in items;
      OnlyDrop(ReplaceCalls(init, p, cur), last.n, n);
      assert ReplaceCalls(init, p, cur) + [] == ReplaceCalls(init, p, cur);
    }
  }

  lemma {:induction false} OnlyRemove(items: seq<Item>, p: Place, cur: Option<nat>, n: nat)
    requires Sorted(items)
    ensures Only(RemoveCalls(items, p, cur), n) == [] || Only(RemoveCalls(items, p, cur), n) == DropCalls(n)
    ensures (forall it :: it in items ==> it.n != n) ==> Only(RemoveCalls(items, p, cur), n) == []
  {
    if |items| > 0 {
      var init, last := items[..|items| - 1], items[|items| - 1];
      SortedInit(items);
      OnlyRemove(init, p, cur, n);
      assert last in items;
      OnlyDrop(RemoveCalls(init, p, cur), last.n, n);
      assert RemoveCalls(init, p, cur) + [] == RemoveCalls(init, p, cur);
    }
  }

  lemma {:induction false} OnlyMove(items: seq<Item>, src: Place, dst: Place, n: nat)
    requires Sorted(items)
    ensures |Only(MoveCalls(items, src, dst), n)| <= 1
    ensures (forall it :: it in items ==> it.n != n) ==> Only(MoveCalls(items, src, dst), n) == []
  {
    if |items| > 0 {
      var init, last := items[..|items| - 1], items[|items| - 1];
      SortedInit(items);
      OnlyMove(init, src, dst, n);
      assert last in items;
      var b := if Hit(last, src) then [WriteTarget(last.n, Target(dst, last.mtime as real))] else [];
      OnlyConcat(MoveCalls(init, src, dst), b, n);
      if Hit(last, src) { OnlyPair(b[0], b[0], n); }
    }
  }

  /** An operation's calls on one copy: none, one, its two files removed, or its two files written. */
  ghost predicate Simple(s: Slot, cs: seq<FsCall>, n: nat) {
    || |cs| <= 1
    || cs == DropCalls(n)
    || (s.target.None? && |cs| == 2 && cs[0].TakeCopy?)
  }

  lemma TakeIsSimple(q: Queue, k: nat, p: Place, bytes: Bytes, mtimeMs: real, n: nat)
    requires Sorted(q.items) && FreshNumber(q, k)
    ensures Simple(SlotOf(q.dir, n), Only(AddCalls(q, k, p, bytes, mtimeMs), n), n)
  {
    var head := [TakeCopy(k, bytes), WriteTarget(k, Target(p, mtimeMs))];
    OnlyConcat(head, ReplaceCalls(q.items, p, Sending(q)), n);
    OnlyPair(head[0], head[1], n);
    OnlyReplace(q.items, p, Sending(q), n);
    if n == k {
      assert head + [] == head;
    }
  }

  lemma OpIsSimple(q: Queue, op: Op, n: nat)
    requires Valid(q) && Possible(q, op)
    ensures Simple(SlotOf(q.dir, n), Only(OpCalls(q, op), n), n)
  {
    match op
    case Take(k, p, bytes, mtimeMs) => TakeIsSimple(q, k, p, bytes, mtimeMs, n);
    case Rename(src, dst) => OnlyMove(q.items, src, dst, n);
    case Remove(p) => OnlyRemove(q.items, p, Sending(q), n);
    case Touch(k, mtime) => OnlyPair(OpCalls(q, op)[0], OpCalls(q, op)[0], n);
    case Uploaded => OnlyPair(RemoveCopy(q.current.value.n), RemoveTarget(q.current.value.n), n);
  }

  lemma PrefixOfSimple(s: Slot, cs: seq<FsCall>, n: nat, i: nat)
    requires Simple(s, cs, n) && i <= |cs|
    ensures SlotItem(SlotCalls(s, cs[..i]), n) == SlotItem(s, n)
         || SlotItem(SlotCalls(s, cs[..i]), n) == SlotItem(SlotCalls(s, cs), n)
  {
    if i == |cs| {
      assert cs[..i] == cs;
    } else if i == 1 {
      assert cs[..1] == [cs[0]] && cs[..1][..0] == [] && [cs[0]][..0] == [];
      assert SlotCalls(s, cs[..1]) == SlotCall(s, cs[0]);
      assert SlotCalls(s, cs) == SlotCall(SlotCalls(s, cs[..1]), cs[1]);
    }
  }

  lemma {:induction false} OnlyPrefix(cs: seq<FsCall>, n: nat, i: nat)
    requires i <= |cs|
    ensures Only(cs[..i], n) <= Only(cs, n)
    decreases |cs|
  {
    if i == |cs| {
      assert cs[..i] == cs;
    } else {
      OnlyPrefix(cs[..|cs| - 1], n, i);
      assert cs[..|cs| - 1][..i] == cs[..i];
    }
  }

  /**
   A crash after any number of an operation's calls: a restart finds each copy as it was queued before the
   operation or as it is queued after it.
   */
  lemma CrashKeepsQueue(q: Queue, op: Op, i: nat, n: nat)
    requires Valid(q) && Possible(q, op) && i <= |OpCalls(q, op)|
    ensures RestoredItem(Calls(q.dir, OpCalls(q, op)[..i]), n) == Kept(q, n)
         || RestoredItem(Calls(q.dir, OpCalls(q, op)[..i]), n) == Kept(After(q, op), n)
  {
    var cs := OpCalls(q, op);
    AfterValid(q, op);
    ValidRestores(q, n);
    ValidRestores(After(q, op), n);
    OpIsSimple(q, op, n);
    CrashOnOneCopy(q.dir, cs, i, n);
  }

  lemma CrashOnOneCopy(d: Dir, cs: seq<FsCall>, i: nat, n: nat)
    requires Simple(SlotOf(d, n), Only(cs, n), n) && i <= |cs|
    ensures RestoredItem(Calls(d, cs[..i]), n) == RestoredItem(d, n)
         || RestoredItem(Calls(d, cs[..i]), n) == RestoredItem(Calls(d, cs), n)
  {
    var o, part := Only(cs, n), Only(cs[..i], n);
    OnlyMatters(d, cs[..i], n);
    OnlyMatters(d, cs, n);
    OnlyPrefix(cs, n, i);
    assert part == o[..|part|];
    PrefixOfSimple(SlotOf(d, n), o, n, |part|);
    RestoredSlot(d, n);
    RestoredSlot(Calls(d, cs), n);
    RestoredSlot(Calls(d, cs[..i]), n);
  }

  // ----- the whole queue of a restart -----

  /** The directory's targets, each read once, in whatever order the system lists them. */
  ghost predicate Listing(d: Dir, ns: seq<nat>) {
    && (forall i, j :: 0 <= i < j < |ns| ==> ns[i] != ns[j])
    && (forall n :: n in ns <==> n in d.targets)
  }

  ghost predicate Ascending(ns: seq<nat>) {
    forall i, j :: 0 <= i < j < |ns| ==> ns[i] < ns[j]
  }

  function RestoredItems(d: Dir, ns: seq<nat>): seq<Item> {
    if |ns| == 0 then []
    else
      var last := RestoredItem(d, ns[|ns| - 1]);
      RestoredItems(d, ns[..|ns| - 1]) + if last.Some? then [last.value] else []
  }

  function DurableItems(items: seq<Item>): seq<Item> {
    if |items| == 0 then []
    else
      var last := items[|items| - 1];
      DurableItems(items[..|items| - 1]) + if Uploadable(last) then [Durable(last)] else []
  }

  lemma {:induction false} RestoredMember(d: Dir, ns: seq<nat>, x: Item)
    ensures x in RestoredItems(d, ns) <==> x.n in ns && RestoredItem(d, x.n) == Some(x)
  {
    if |ns| > 0 {
      assert ns == ns[..|ns| - 1] + [ns[|ns| - 1]];
      RestoredMember(d, ns[..|ns| - 1], x);
    }
  }

  lemma {:induction false} RestoredDistinct(d: Dir, ns: seq<nat>)
    requires forall i, j :: 0 <= i < j < |ns| ==> ns[i] != ns[j]
    ensures Distinct(RestoredItems(d, ns))
  {
    if |ns| > 0 {
      var init, last := ns[..|ns| - 1], RestoredItem(d, ns[|ns| - 1]);
      RestoredDistinct(d, init);
      var r := RestoredItems(d, init);
      if last.Some? {
        forall x | x in r ensures x.n != last.value.n { RestoredMember(d, init, x); }
        DistinctAppend(r, last.value);
      } else {
        assert r + [] == r;
      }
    }
  }

  lemma {:induction false} AscendingRestored(d: Dir, ns: seq<nat>)
    requires Ascending(ns)
    ensures Sorted(RestoredItems(d, ns))
  {
    if |ns| > 0 {
      var init, last := ns[..|ns| - 1], RestoredItem(d, ns[|ns| - 1]);
      AscendingRestored(d, init);
      var r := RestoredItems(d, init);
      if last.Some? {
        forall x | x in r ensures x.n < last.value.n { RestoredMember(d, init, x); }
        SortedAppend(r, last.value);
      } else {
        assert r + [] == r;
      }
    }
  }

  lemma {:induction false} DurableMember(items: seq<Item>, x: Item)
    requires Sorted(items)
    ensures x in DurableItems(items) <==>
            Find(items, x.n).Some? && Uploadable(Find(items, x.n).value) && Durable(Find(items, x.n).value) == x
  {
    if |items| > 0 {
      var init, last := items[..|items| - 1], items[|items| - 1];
      SortedInit(items);
      DurableMember(init, x);
      FindSpec(init, x.n);
    }
  }

  lemma {:induction false} DurableSorted(items: seq<Item>)
    requires Sorted(items)
    ensures Sorted(DurableItems(items))
  {
    if |items| > 0 {
      var init, last := items[..|items| - 1], items[|items| - 1];
      DurableSorted(init);
      var r := DurableItems(init);
      forall x | x in r ensures x.n < last.n {
        DurableMember(init, x);
        FindSpec(init, x.n);
      }
      SortedAppend(r, Durable(last));
      assert r + [] == r;
    }
  }

  lemma RestoredIsDurable(q: Queue, ns: seq<nat>, x: Item)
    requires Valid(q) && Listing(q.dir, ns)
    ensures x in RestoredItems(q.dir, ns) <==> x in DurableItems(q.items)
  {
    RestoredMember(q.dir, ns, x);
    DurableMember(q.items, x);
    ValidRestores(q, x.n);
  }

  lemma {:induction false} OnceEach(items: seq<Item>, x: Item)
    requires Distinct(items)
    ensures multiset(items)[x] == if x in items then 1 else 0
  {
    if |items| > 0 {
      var init, last := items[..|items| - 1], items[|items| - 1];
      assert items == init + [last];
      OnceEach(init, x);
    }
  }

  lemma HasMember(items: seq<Item>)
    requires |items| > 0
    ensures exists x :: x in items
  {
    assert items[0] in items;
  }

  lemma {:induction false} SortedSame(a: seq<Item>, b: seq<Item>)
    requires Sorted(a) && Sorted(b) && forall x :: x in a <==> x in b
    ensures a == b
  {
    if |a| == 0 {
      if |b| > 0 { HasMember(b); }
    } else {
      assert a[|a| - 1] in a && b[|b| - 1] in b;
      SortedInit(a);
      SortedInit(b);
      var last, a', b' := a[|a| - 1], a[..|a| - 1], b[..|b| - 1];
      assert last == b[|b| - 1];
      forall x ensures x in a' <==> x in b' {
        assert x in a <==> x in b;
        assert x in a <==> x in a' || x == last;
        assert x in b <==> x in b' || x == last;
      }
      SortedSame(a', b');
    }
  }

  /** The queue a restart makes of a directory, files without a usable target taken out of it. */
  function Restored(d: Dir, ns: seq<nat>): Queue {
    var items := RestoredItems(d, ns);
    Queue(items, None, 0, Sizes(items),
      Dir(d.copies, map n | n in d.targets && RestoredItem(d, n).Some? :: d.targets[n]))
  }

  function Sizes(items: seq<Item>): nat {
    if |items| == 0 then 0 else Sizes(items[..|items| - 1]) + items[|items| - 1].size
  }

  lemma RestoredKeys(d: Dir, ns: seq<nat>)
    requires Listing(d, ns)
    ensures Restored(d, ns).dir.targets.Keys == Numbers(RestoredItems(d, ns))
  {
    var r := RestoredItems(d, ns);
    forall n | n in Restored(d, ns).dir.targets ensures n in Numbers(r) {
      var it := RestoredItem(d, n).value;
      RestoredMember(d, ns, it);
      MemberQueued(r, it);
    }
    forall n | n in Numbers(r) ensures n in Restored(d, ns).dir.targets {
      var i :| 0 <= i < |r| && r[i].n == n;
      RestoredMember(d, ns, r[i]);
    }
  }

  lemma RestoredStored(d: Dir, ns: seq<nat>)
    ensures AllStored(RestoredItems(d, ns), Restored(d, ns).dir)
  {
    var r := RestoredItems(d, ns);
    forall i | 0 <= i < |r| ensures Stored(r[i], Restored(d, ns).dir) {
      RestoredMember(d, ns, r[i]);
    }
  }

  /** It agrees with its directory exactly when the copies taken come in the order of their numbers. */
  lemma RestoredValid(d: Dir, ns: seq<nat>)
    requires Listing(d, ns)
    ensures Valid(Restored(d, ns)) <==> Sorted(RestoredItems(d, ns))
    ensures Ascending(ns) ==> Sorted(RestoredItems(d, ns))
  {
    RestoredStored(d, ns);
    RestoredKeys(d, ns);
    if Ascending(ns) { AscendingRestored(d, ns); }
  }

  /**
   A restart after the last operation finished finds what can be uploaded and nothing else, each copy once; in the
   order of the queue exactly when the copies it takes are read by number.
   */
  lemma RestartRebuilds(q: Queue, ns: seq<nat>)
    requires Valid(q) && Listing(q.dir, ns)
    ensures multiset(RestoredItems(q.dir, ns)) == multiset(DurableItems(q.items))
    ensures RestoredItems(q.dir, ns) == DurableItems(q.items) <==> Sorted(RestoredItems(q.dir, ns))
    ensures Ascending(ns) ==> Sorted(RestoredItems(q.dir, ns))
  {
    var r, k := RestoredItems(q.dir, ns), DurableItems(q.items);
    RestoredDistinct(q.dir, ns);
    DurableSorted(q.items);
    SortedDistinct(k);
    forall x ensures (x in r <==> x in k) && multiset(r)[x] == multiset(k)[x] {
      RestoredIsDurable(q, ns, x);
      OnceEach(r, x);
      OnceEach(k, x);
    }
    if Sorted(r) { SortedSame(r, k); }
    if Ascending(ns) { AscendingRestored(q.dir, ns); }
  }

  /** The list without the times of the next tries. */
  function AtRest(items: seq<Item>): (r: seq<Item>)
    ensures |r| == |items|
  {
    seq(|items|, i requires 0 <= i < |items| => items[i].(fails := 0, notBefore := 0))
  }

  ghost predicate AllUploadable(items: seq<Item>) {
    forall i :: 0 <= i < |items| ==> Uploadable(items[i])
  }

  ghost predicate NoneTrashed(items: seq<Item>) {
    forall i :: 0 <= i < |items| ==> !items[i].trashed
  }

  lemma {:induction false} AllDurable(items: seq<Item>)
    requires AllUploadable(items) && NoneTrashed(items)
    ensures DurableItems(items) == AtRest(items)
  {
    if |items| > 0 {
      AllDurable(items[..|items| - 1]);
    }
  }

  lemma {:induction false} NoneLeftOut(d: Dir, ns: seq<nat>)
    requires forall n :: n in ns ==> RestoredItem(d, n).Some?
    ensures |RestoredItems(d, ns)| == |ns| && forall i :: 0 <= i < |ns| ==> RestoredItems(d, ns)[i].n == ns[i]
  {
    if |ns| > 0 {
      assert ns[|ns| - 1] in ns;
      NoneLeftOut(d, ns[..|ns| - 1]);
    }
  }

  lemma AtRestSorted(items: seq<Item>)
    requires Sorted(items)
    ensures Sorted(AtRest(items))
  {
    SameNumbers(items, AtRest(items));
  }

  lemma SameQueueIsRead(q: Queue, ns: seq<nat>)
    requires Valid(q) && Listing(q.dir, ns) && RestoredItems(q.dir, ns) == AtRest(q.items)
    ensures Ascending(ns) && AllUploadable(q.items) && NoneTrashed(q.items)
  {
    var r, a := RestoredItems(q.dir, ns), AtRest(q.items);
    forall i | 0 <= i < |q.items| ensures Uploadable(q.items[i]) && !q.items[i].trashed {
      assert a[i] in r;
      RestoredMember(q.dir, ns, a[i]);
    }
    forall n | n in ns ensures RestoredItem(q.dir, n).Some? {
      assert n in Numbers(q.items);
      var i :| 0 <= i < |q.items| && q.items[i].n == n;
      assert Stored(q.items[i], q.dir);
    }
    NoneLeftOut(q.dir, ns);
    AtRestSorted(q.items);
    SortedInOrder(r);
  }

  /**
   It is the same queue exactly when the directory is read by number and no copy is in the trash or has a name kept
   on this computer only.
   */
  lemma RestartKeepsQueueIff(q: Queue, ns: seq<nat>)
    requires Valid(q) && Listing(q.dir, ns)
    ensures RestoredItems(q.dir, ns) == AtRest(q.items) <==>
            Ascending(ns) && AllUploadable(q.items) && NoneTrashed(q.items)
  {
    if Ascending(ns) && AllUploadable(q.items) && NoneTrashed(q.items) {
      RestartRebuilds(q, ns);
      AllDurable(q.items);
    }
    if RestoredItems(q.dir, ns) == AtRest(q.items) {
      SameQueueIsRead(q, ns);
    }
  }

  /** A file removed while it was uploaded is in the queue again after a crash. */
  lemma RemovedFileComesBack(q: Queue)
    requires Valid(q) && q.current.Some? && InFlight(q).trashed && Uploadable(InFlight(q))
    ensures RestoredItem(q.dir, InFlight(q).n) == Some(Durable(InFlight(q)))
    ensures !Durable(InFlight(q)).trashed
  {
    ValidRestores(q, InFlight(q).n);
  }
}
