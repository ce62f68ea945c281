/** The queue as the agent keeps it: an object whose operations change its list, its counters and its directory. */
module OutboxQueue {
  import opened Basics
  import opened OutboxState
  import opened OutboxFacts
  import opened OutboxValid
  import opened OutboxKeys
  import opened OutboxProgress
  import Crash = OutboxCrash

  // ----- a restart -----

  /**
   Whatever a crash left and in whatever order it is read, the restarted queue counts its bytes and has each number
   once; it agrees with its directory exactly when the copies taken come in the order of their numbers.
   */
  lemma RestoredCounted(d: Dir, ns: seq<nat>)
    requires Crash.Listing(d, ns)
    ensures Balanced(Crash.Restored(d, ns)) && Keyed(Crash.Restored(d, ns))
    ensures Valid(Crash.Restored(d, ns)) <==> Sorted(Crash.Restored(d, ns).items)
    ensures Crash.Ascending(ns) ==> Counted(Crash.Restored(d, ns))
  {
    RestoredBalanced(d, ns);
    Crash.RestoredDistinct(d, ns);
    Crash.RestoredValid(d, ns);
    if Crash.Ascending(ns) { Crash.AscendingRestored(d, ns); }
  }

  /** The directory when the targets `seen` have been read. */
  ghost function LeftToRead(d: Dir, seen: seq<nat>): Dir {
    Dir(d.copies, map n | n in d.targets && (n !in seen || Crash.RestoredItem(d, n).Some?) :: d.targets[n])
  }

  lemma ReadStep(d: Dir, seen: seq<nat>, n: nat)
    requires n in d.targets
    ensures Crash.RestoredItems(d, seen + [n]) ==
            var r := Crash.RestoredItem(d, n);
            Crash.RestoredItems(d, seen) + if r.Some? then [r.value] else []
    ensures LeftToRead(d, seen + [n]) ==
            if Crash.RestoredItem(d, n).Some? then LeftToRead(d, seen) else Call(LeftToRead(d, seen), RemoveTarget(n))
    ensures Crash.Sizes(Crash.RestoredItems(d, seen + [n])) ==
            var r := Crash.RestoredItem(d, n);
            Crash.Sizes(Crash.RestoredItems(d, seen)) + if r.Some? then r.value.size else 0
  {
    AppendLast(seen, n);
    var before := Crash.RestoredItems(d, seen);
    if Crash.RestoredItem(d, n).Some? {
      AppendLast(before, Crash.RestoredItem(d, n).value);
    } else {
      assert before + [] == before;
    }
  }

  // ----- removing from the middle of the list -----

  lemma {:induction false} WithoutConcat(a: seq<Item>, b: seq<Item>, n: nat)
    ensures WithoutCopy(a + b, n) == WithoutCopy(a, n) + WithoutCopy(b, n)
    decreases |b|
  {
    if |b| == 0 {
      assert a + b == a;
    } else {
      assert (a + b)[..|a + b| - 1] == a + b[..|b| - 1];
      WithoutConcat(a, b[..|b| - 1], n);
    }
  }

  lemma DropMiddle(a: seq<Item>, x: Item, b: seq<Item>)
    requires forall it :: it in a || it in b ==> it.n != x.n
    ensures WithoutCopy(a + [x] + b, x.n) == a + b
  {
    var n := x.n;
    WithoutConcat(a + [x], b, n);
    WithoutConcat(a, [x], n);
    NothingWithout(a, n);
    NothingWithout(b, n);
    AppendLast([], x);
    assert [x] == [] + [x];
    assert WithoutCopy([x], n) == [];
    assert a + [] == a;
  }

  /** One pass of the loop that drops what a newer copy replaces. */
  lemma ReplaceStep(a: seq<Item>, x: Item, b: seq<Item>, p: Place, cur: Option<nat>, d: Dir)
    requires forall it :: it in a || it in b ==> it.n != x.n
    ensures var left := WithoutReplaced(a, p, cur) + ([x] + b);
            var left' := WithoutReplaced(a + [x], p, cur) + b;
            && x in left
            && (if Replaced(x, p, cur) then
                  && left' == WithoutCopy(left, x.n)
                  && Calls(d, ReplaceCalls(a + [x], p, cur)) == Calls(Calls(d, ReplaceCalls(a, p, cur)), DropCalls(x.n))
                else
                  left' == left && ReplaceCalls(a + [x], p, cur) == ReplaceCalls(a, p, cur))
  {
    var kept := WithoutReplaced(a, p, cur);
    AppendLast(a, x);
    assert kept + ([x] + b) == kept + [x] + b;
    if Replaced(x, p, cur) {
      KeptFrom(a, p, cur);
      DropMiddle(kept, x, b);
      CallsConcat(d, ReplaceCalls(a, p, cur), DropCalls(x.n));
      assert kept + [] == kept;
    }
  }

  /** One pass of the loop that drops what was removed on the disk. */
  lemma RemoveStep(a: seq<Item>, x: Item, b: seq<Item>, p: Place, cur: Option<nat>, d: Dir)
    requires forall it :: it in a || it in b ==> it.n != x.n
    ensures var kept := RemovedItems(a, p, cur);
            var left, left' := kept + ([x] + b), RemovedItems(a + [x], p, cur) + b;
            && x in left && left[|kept|] == x
            && (if !Hit(x, p) then
                  left' == left && RemoveCalls(a + [x], p, cur) == RemoveCalls(a, p, cur)
                else if cur == Some(x.n) then
                  left' == left[|kept| := x.(trashed := true)] && RemoveCalls(a + [x], p, cur) == RemoveCalls(a, p, cur)
                else
                  && left' == WithoutCopy(left, x.n)
                  && Calls(d, RemoveCalls(a + [x], p, cur)) == Calls(Calls(d, RemoveCalls(a, p, cur)), DropCalls(x.n)))
  {
    var kept := RemovedItems(a, p, cur);
    AppendLast(a, x);
    assert kept + ([x] + b) == kept + [x] + b;
    if Hit(x, p) && cur != Some(x.n) {
      LeftFrom(a, p, cur);
      DropMiddle(kept, x, b);
      CallsConcat(d, RemoveCalls(a, p, cur), DropCalls(x.n));
      assert kept + [] == kept;
    }
  }

  lemma TotalsStep(a: seq<Item>, x: Item, p: Place, cur: Option<nat>, done: nat, total: nat)
    ensures ReplacedTotal(a + [x], p, cur, done, total) ==
            var t := ReplacedTotal(a, p, cur, done, total);
            if Replaced(x, p, cur) then DropTotal(x, cur, done, t) else t
    ensures RemovedTotal(a + [x], p, cur, done, total) ==
            var t := RemovedTotal(a, p, cur, done, total);
            if Hit(x, p) && cur != Some(x.n) then DropTotal(x, cur, done, t) else t
  {
    AppendLast(a, x);
  }

  lemma AnyHitStep(a: seq<Item>, x: Item, p: Place)
    ensures AnyHit(a + [x], p) <==> AnyHit(a, p) || Hit(x, p)
  {
    assert (a + [x])[|a|] == x;
    if AnyHit(a, p) {
      var i :| 0 <= i < |a| && Hit(a[i], p);
      assert Hit((a + [x])[i], p);
    }
  }

  /** The list when the first `i` copies have been renamed. */
  function MovedUpTo(all: seq<Item>, i: nat, src: Place, dst: Place): (r: seq<Item>)
    requires i <= |all|
    ensures |r| == |all| && forall k :: i <= k < |all| ==> r[k] == all[k]
  {
    if i == 0 then all else MovedUpTo(all, i - 1, src, dst)[i - 1 := Moved(all[i - 1], src, dst)]
  }

  lemma {:induction false} MovedUpToAll(all: seq<Item>, i: nat, src: Place, dst: Place)
    requires i <= |all|
    ensures forall k :: 0 <= k < i ==> MovedUpTo(all, i, src, dst)[k] == Moved(all[k], src, dst)
    ensures i == |all| ==> MovedUpTo(all, i, src, dst) == MovedItems(all, src, dst)
  {
    if i > 0 {
      MovedUpToAll(all, i - 1, src, dst);
    }
  }

  /** One pass of the loop that renames. */
  lemma MoveStep(all: seq<Item>, i: nat, src: Place, dst: Place, d: Dir)
    requires i < |all|
    ensures var cs, cs' := MoveCalls(all[..i], src, dst), MoveCalls(all[..i + 1], src, dst);
            if Hit(all[i], src) then
              Calls(d, cs') == Call(Calls(d, cs), WriteTarget(all[i].n, Target(dst, all[i].mtime as real)))
            else cs' == cs
    ensures AnyHit(all[..i + 1], src) <==> AnyHit(all[..i], src) || Hit(all[i], src)
  {
    assert all[..i + 1][..i] == all[..i];
    assert all[..i + 1] == all[..i] + [all[i]];
    AnyHitStep(all[..i], all[i], src);
    var cs, w := MoveCalls(all[..i], src, dst), [WriteTarget(all[i].n, Target(dst, all[i].mtime as real))];
    assert (cs + w)[..|cs|] == cs;
    assert cs + [] == cs;
  }

  // ----- what the object keeps -----

  /** No number queued twice, the copy in flight queued. */
  ghost predicate Keyed(q: Queue) {
    Distinct(q.items) && (q.current.Some? ==> q.current.value.n in Numbers(q.items))
  }

  ghost predicate UpTo(items: seq<Item>, c: nat) {
    forall it :: it in items ==> it.n <= c
  }

  /** Whether a copy may be uploaded now. */
  predicate Ready(it: Item, now: int) { Uploadable(it) && it.notBefore <= now }

  lemma UpToFresh(q: Queue, c: nat)
    requires Valid(q) && UpTo(q.items, c)
    ensures FreshNumber(q, c + 1)
  {
  }

  lemma SameKeys(q: Queue, q': Queue)
    requires Keyed(q) && q'.current == q.current
    requires |q'.items| == |q.items| && forall i :: 0 <= i < |q.items| ==> q'.items[i].n == q.items[i].n
    ensures Keyed(q')
  {
    DistinctSame(q.items, q'.items);
    if q.current.Some? {
      var i :| 0 <= i < |q.items| && q.items[i].n == q.current.value.n;
      assert q'.items[i].n == q.current.value.n;
    }
  }

  lemma SameUpTo(a: seq<Item>, b: seq<Item>, c: nat)
    requires UpTo(a, c) && |a| == |b| && forall i :: 0 <= i < |a| ==> a[i].n == b[i].n
    ensures UpTo(b, c)
  {
    forall it | it in b ensures it.n <= c {
      var i :| 0 <= i < |b| && b[i] == it;
      assert a[i] in a;
    }
  }

  lemma TakenKeyed(q: Queue, n: nat, p: Place, bytes: Bytes, mtimeMs: real)
    requires Keyed(q)
    ensures Keyed(Taken(q, n, p, bytes, mtimeMs))
  {
    var kept, it := WithoutReplaced(q.items, p, Sending(q)), Item(n, p, |bytes|, mtimeMs.Floor, false, 0, 0);
    DistinctReplaced(q.items, p, Sending(q));
    SetItemKeys(kept, it);
    if q.current.Some? {
      var i :| 0 <= i < |q.items| && q.items[i].n == q.current.value.n;
      ReplacedLeft(q.items, p, Sending(q), q.items[i]);
      var y :| y in SetItem(kept, it) && y.n == q.items[i].n;
      MemberQueued(SetItem(kept, it), y);
    }
  }

  lemma RemovedKeyed(q: Queue, p: Place)
    requires Keyed(q)
    ensures Keyed(RemovePending(q, p))
  {
    var r := RemovedItems(q.items, p, Sending(q));
    DistinctRemoved(q.items, p, Sending(q));
    if q.current.Some? {
      var i :| 0 <= i < |q.items| && q.items[i].n == q.current.value.n;
      var it := q.items[i];
      RemovedItemsKeep(q.items, p, Sending(q), it);
      MemberQueued(r, if Hit(it, p) then it.(trashed := true) else it);
    }
  }

  /** In the order of the numbers, none above the counter. */
  ghost predicate OrderlyAt(q: Queue, c: nat) {
    Valid(q) && UpTo(q.items, c)
  }

  /** A copy taken under the counter's next number keeps an orderly queue orderly and balanced. */
  ghost predicate AddsOrderly(q: Queue, q': Queue, n: nat, p: Place, bytes: Bytes, mtimeMs: real) {
    n > 0 && OrderlyAt(q, n - 1) ==>
      && q' == Add(q, n, p, bytes, mtimeMs)
      && OrderlyAt(q', n)
      && (Balanced(q) ==> Balanced(q'))
  }

  lemma TakenKept(q: Queue, n: nat, p: Place, bytes: Bytes, mtimeMs: real)
    requires Keyed(q)
    ensures Keyed(Taken(q, n, p, bytes, mtimeMs))
    ensures AddsOrderly(q, Taken(q, n, p, bytes, mtimeMs), n, p, bytes, mtimeMs)
  {
    TakenKeyed(q, n, p, bytes, mtimeMs);
    if n > 0 && OrderlyAt(q, n - 1) {
      UpToFresh(q, n - 1);
      WithoutReplacedMembers(q.items, p, Sending(q));
      TakenIsAdd(q, n, p, bytes, mtimeMs);
      AddValid(q, n, p, bytes, mtimeMs);
      if Balanced(q) { AddBalanced(q, n, p, bytes, mtimeMs); }
    }
  }

  lemma TouchedKept(q: Queue, c: nat, k: nat, mtime: int)
    requires Keyed(q) && Find(q.items, k).Some?
    ensures Keyed(Crash.Touched(q, k, mtime))
    ensures OrderlyAt(q, c) ==> OrderlyAt(Crash.Touched(q, k, mtime), c)
  {
    SameKeys(q, Crash.Touched(q, k, mtime));
    if OrderlyAt(q, c) {
      Crash.TouchedValid(q, k, mtime);
      SameUpTo(q.items, Crash.TouchedItems(q.items, k, mtime), c);
    }
  }

  lemma RenamedKept(q: Queue, c: nat, src: Place, dst: Place)
    requires Keyed(q)
    ensures Keyed(RenamePending(q, src, dst))
    ensures OrderlyAt(q, c) ==> OrderlyAt(RenamePending(q, src, dst), c)
  {
    SameKeys(q, RenamePending(q, src, dst));
    if OrderlyAt(q, c) {
      RenameValid(q, src, dst);
      SameUpTo(q.items, MovedItems(q.items, src, dst), c);
    }
  }

  lemma RemovedKept(q: Queue, c: nat, p: Place)
    requires Keyed(q)
    ensures Keyed(RemovePending(q, p))
    ensures OrderlyAt(q, c) ==> OrderlyAt(RemovePending(q, p), c)
  {
    RemovedKeyed(q, p);
    if OrderlyAt(q, c) {
      RemoveValid(q, p);
      LeftFrom(q.items, p, Sending(q));
    }
  }

  lemma EndKept(q: Queue, c: nat)
    requires Keyed(q) && q.current.Some?
    ensures Keyed(End(q))
    ensures OrderlyAt(q, c) ==> OrderlyAt(End(q), c)
  {
    var n := q.current.value.n;
    DistinctWithout(q.items, n);
    if OrderlyAt(q, c) {
      EndValid(q);
      forall it | it in WithoutCopy(q.items, n) ensures it.n <= c {
        CopyLeft(q.items, n, it);
      }
    }
  }

  lemma FailedKept(q: Queue, c: nat, now: int)
    requires Keyed(q) && q.current.Some?
    ensures Keyed(Fail(q, now))
    ensures OrderlyAt(q, c) ==> OrderlyAt(Fail(q, now), c)
  {
    var r := FailedItems(q.items, q.current.value.n, now);
    DistinctSame(q.items, r);
    if OrderlyAt(q, c) {
      FailValid(q, now);
      SameUpTo(q.items, r, c);
    }
  }

  // ----- what a folder shows from the queue -----

  datatype Entry = Entry(n: nat, name: string, size: nat, mtime: int)

  function EntryOf(it: Item): Entry { Entry(it.n, it.at.name, it.size, it.mtime) }

  predicate Named(es: seq<Entry>, name: string) {
    exists i :: 0 <= i < |es| && es[i].name == name
  }

  /** A name set again keeps its position and takes the later copy; a new one goes to the end. */
  function SetEntry(es: seq<Entry>, e: Entry): seq<Entry> {
    if Named(es, e.name) then seq(|es|, i requires 0 <= i < |es| => if es[i].name == e.name then e else es[i])
    else es + [e]
  }

  function EntriesOf(items: seq<Item>, folder: string): seq<Entry> {
    if |items| == 0 then []
    else
      var init, last := EntriesOf(items[..|items| - 1], folder), items[|items| - 1];
      if last.at.dir == folder && !last.trashed then SetEntry(init, EntryOf(last)) else init
  }

  predicate DistinctNames(es: seq<Entry>) {
    forall i, j :: 0 <= i < j < |es| ==> es[i].name != es[j].name
  }

  lemma SetEntrySpec(es: seq<Entry>, e: Entry)
    requires DistinctNames(es)
    ensures DistinctNames(SetEntry(es, e))
    ensures forall x :: x in SetEntry(es, e) <==> x == e || (x in es && x.name != e.name)
  {
    var r := SetEntry(es, e);
    if Named(es, e.name) {
      var k :| 0 <= k < |es| && es[k].name == e.name;
      assert r[k] == e;
      forall x | x in es && x.name != e.name ensures x in r {
        var i :| 0 <= i < |es| && es[i] == x;
        assert r[i] == x;
      }
    }
  }

  /** A folder shows each name once, with the newest copy queued for it. */
  lemma {:induction false} EntriesShowNewest(items: seq<Item>, folder: string)
    ensures DistinctNames(EntriesOf(items, folder))
    ensures forall e :: e in EntriesOf(items, folder) <==>
              Newest(items, Place(folder, e.name)).Some? && e == EntryOf(Newest(items, Place(folder, e.name)).value)
  {
    if |items| > 0 {
      var init, last := items[..|items| - 1], items[|items| - 1];
      EntriesShowNewest(init, folder);
      if last.at.dir == folder && !last.trashed {
        SetEntrySpec(EntriesOf(init, folder), EntryOf(last));
        assert last.at == Place(folder, last.at.name);
      }
    }
  }

  lemma TakeFirst(q: Queue, n: nat, p: Place, bytes: Bytes, mtimeMs: real)
    ensures Calls(q.dir, AddCalls(q, n, p, bytes, mtimeMs)) ==
            Calls(Call(Call(q.dir, TakeCopy(n, bytes)), WriteTarget(n, Target(p, mtimeMs))),
              ReplaceCalls(q.items, p, Sending(q)))
  {
    var head := [TakeCopy(n, bytes), WriteTarget(n, Target(p, mtimeMs))];
    CallsConcat(q.dir, head, ReplaceCalls(q.items, p, Sending(q)));
    assert head[..1] == [TakeCopy(n, bytes)] && head[..1][..0] == [];
    assert Calls(q.dir, head[..1]) == Call(q.dir, TakeCopy(n, bytes));
  }

  // ----- the object -----

  /** What the window is told: files left, bytes done and in total. */
  datatype Burst = Burst(left: nat, done: nat, total: nat)

  class Outbox {
    var items: seq<Item>
    var current: Option<Flight>
    var done: nat
    var total: nat
    /** Bytes of the file uploading now. */
    var partial: nat
    /** When the window was last told, and how much of that file. */
    var lastReport: int
    var reported: nat
    var dir: Dir
    var counter: nat

    ghost function State(): Queue
      reads this
    {
      Queue(items, current, done, total, dir)
    }

    /** What the window is told of the burst: files left, bytes done (at most the total) and in total. */
    function Told(): Burst
      reads this
    {
      Burst(|items|, Min(total, done + partial), total)
    }

    /** What always holds: no number is queued twice, the copy in flight is queued. */
    ghost predicate Ok()
      reads this
    {
      Keyed(State())
    }

    /** What holds while the directory was read by number and the clock was not set back. */
    ghost predicate Orderly()
      reads this
    {
      OrderlyAt(State(), counter)
    }

    /** Rebuilt from what an earlier run left (`ns`: the directory's targets in the order they are read). */
    constructor (d: Dir, ns: seq<nat>, clock: nat)
      requires Crash.Listing(d, ns)
      ensures State() == Crash.Restored(d, ns)
      ensures Ok() && Balanced(State())
      ensures Orderly() <==> Sorted(items) && UpTo(items, clock)
      ensures counter == clock && partial == 0 && lastReport == 0 && reported == 0
    {
      items, current, done, total, partial, dir, counter := [], None, 0, 0, 0, d, clock;
      lastReport, reported := 0, 0;
      new;
      ReadBack(d, ns);
      assert LeftToRead(d, ns) == Crash.Restored(d, ns).dir;
      RestoredCounted(d, ns);
    }

    method ReadBack(d: Dir, ns: seq<nat>)
      requires forall n :: n in ns ==> n in d.targets
      requires items == [] && total == 0 && dir == d
      modifies this`items, this`total, this`dir
      ensures items == Crash.RestoredItems(d, ns) && total == Crash.Sizes(items)
      ensures dir == LeftToRead(d, ns)
    {
      var seen, rest := [], ns;
      while |rest| > 0
        invariant ns == seen + rest
        invariant items == Crash.RestoredItems(d, seen) && total == Crash.Sizes(items)
        invariant dir == LeftToRead(d, seen)
        decreases |rest|
      {
        var n := rest[0];
        assert n in ns;
        assert rest == [n] + rest[1..];
        ReadStep(d, seen, n);
        ReadOne(d, n);
        seen, rest := seen + [n], rest[1..];
      }
      assert seen == ns;
    }

    /** One target: its copy queued, or the target taken out. */
    method ReadOne(d: Dir, n: nat)
      requires n in d.targets
      modifies this`items, this`total, this`dir
      ensures var r := Crash.RestoredItem(d, n);
              && items == old(items) + (if r.Some? then [r.value] else [])
              && total == old(total) + (if r.Some? then r.value.size else 0)
              && dir == if r.Some? then old(dir) else Call(old(dir), RemoveTarget(n))
    {
      var t := d.targets[n];
      if LocalOnlyName(t.at.name) || n !in d.copies {
        dir := Call(dir, RemoveTarget(n));
        assert items + [] == items;
      } else {
        var it := Item(n, t.at, |d.copies[n]|, t.mtime.Floor, false, 0, 0);
        items := items + [it];
        total := total + it.size;
      }
    }

    method Drop(it: Item)
      requires it in items
      modifies this`items, this`total, this`dir
      ensures items == WithoutCopy(old(items), it.n)
      ensures total == DropTotal(it, Sending(old(State())), done, old(total))
      ensures dir == Calls(old(dir), DropCalls(it.n))
    {
      if (current.None? || current.value.n != it.n) && Uploadable(it) {
        total := Max(done, total - it.size);
      }
      items := WithoutCopy(items, it.n);
      DropCallsEffect(dir, it.n);
      dir := Call(dir, RemoveCopy(it.n));
      dir := Call(dir, RemoveTarget(it.n));
    }

    /** A closed file's copy taken into the queue. */
    method Add(p: Place, bytes: Bytes, mtimeMs: real, now: int) returns (n: nat, shown: Burst)
      requires Ok()
      modifies this
      ensures n == old(counter) + 1 == counter
      ensures State() == Taken(old(State()), n, p, bytes, mtimeMs)
      ensures Ok() && partial == old(partial)
      ensures AddsOrderly(old(State()), State(), n, p, bytes, mtimeMs)
      ensures shown == Told()
    {
      ghost var q := State();
      n := counter + 1;
      counter := n;
      shown := Accept(n, p, bytes, mtimeMs, now);
      TakenKept(q, n, p, bytes, mtimeMs);
      assert State() == Taken(q, n, p, bytes, mtimeMs);
    }

    method Accept(n: nat, p: Place, bytes: Bytes, mtimeMs: real, now: int) returns (shown: Burst)
      requires Distinct(items)
      modifies this`items, this`done, this`total, this`dir, this`lastReport, this`reported
      ensures State() == Taken(old(State()), n, p, bytes, mtimeMs)
      ensures shown == Told()
    {
      Take(n, p, bytes, mtimeMs);
      var told := Report(true, now);
      shown := told.value;
    }

    method Take(n: nat, p: Place, bytes: Bytes, mtimeMs: real)
      requires Distinct(items)
      modifies this`items, this`total, this`dir
      ensures State() == Taken(old(State()), n, p, bytes, mtimeMs) && |items| > 0
    {
      TakeFirst(State(), n, p, bytes, mtimeMs);
      dir := Call(dir, TakeCopy(n, bytes));
      dir := Call(dir, WriteTarget(n, Target(p, mtimeMs)));
      DropReplaced(p);
      var it := Item(n, p, |bytes|, mtimeMs.Floor, false, 0, 0);
      items := SetItem(items, it);
      if Uploadable(it) {
        total := total + |bytes|;
      }
    }

    /** A newer copy of the same name replaces the ones not being uploaded. */
    method DropReplaced(p: Place)
      requires Distinct(items)
      modifies this`items, this`total, this`dir
      ensures items == WithoutReplaced(old(items), p, Sending(old(State())))
      ensures total == ReplacedTotal(old(items), p, Sending(old(State())), done, old(total))
      ensures dir == Calls(old(dir), ReplaceCalls(old(items), p, Sending(old(State()))))
    {
      var cur := if current.Some? then Some(current.value.n) else None;
      var seen, rest := [], items;
      while |rest| > 0
        invariant old(items) == seen + rest
        invariant items == WithoutReplaced(seen, p, cur) + rest
        invariant total == ReplacedTotal(seen, p, cur, done, old(total))
        invariant dir == Calls(old(dir), ReplaceCalls(seen, p, cur))
        decreases |rest|
      {
        var it := rest[0];
        assert rest == [it] + rest[1..];
        assert seen + rest == seen + [it] + rest[1..];
        SplitDiffers(seen, it, rest[1..]);
        ReplaceStep(seen, it, rest[1..], p, cur, old(dir));
        TotalsStep(seen, it, p, cur, done, old(total));
        if it.at == p && cur != Some(it.n) {
          Drop(it);
        }
        seen, rest := seen + [it], rest[1..];
      }
      assert seen == old(items);
    }

    /** False when it is not queued any more, or the time is before 1970. */
    method Touch(k: nat, mtime: real) returns (ok: bool)
      requires Ok()
      modifies this`items, this`dir
      ensures ok <==> old(Find(items, k)).Some? && mtime >= 0.0
      ensures State() == if ok then Crash.Touched(old(State()), k, mtime.Floor) else old(State())
      ensures Ok() && (old(Orderly()) ==> Orderly())
    {
      ghost var q := State();
      var found := Find(items, k);
      if found.None? || mtime < 0.0 {
        return false;
      }
      items := Crash.TouchedItems(items, k, mtime.Floor);
      dir := Call(dir, WriteTarget(k, Target(found.value.at, mtime.Floor as real)));
      ok := true;
      TouchedKept(q, counter, k, mtime.Floor);
    }

    /** What a folder shows from the queue. */
    method Entries(folder: string) returns (es: seq<Entry>)
      ensures es == EntriesOf(items, folder)
      ensures DistinctNames(es)
      ensures forall e :: e in es <==>
                Newest(items, Place(folder, e.name)).Some? && e == EntryOf(Newest(items, Place(folder, e.name)).value)
    {
      es := [];
      var i := 0;
      while i < |items|
        invariant 0 <= i <= |items|
        invariant es == EntriesOf(items[..i], folder)
      {
        assert items[..i + 1][..i] == items[..i];
        if items[i].at.dir == folder && !items[i].trashed {
          es := SetEntry(es, EntryOf(items[i]));
        }
        i := i + 1;
      }
      assert items[..|items|] == items;
      EntriesShowNewest(items, folder);
    }

    method RenamePending(src: Place, dst: Place) returns (hit: bool)
      requires Ok()
      modifies this`items, this`dir
      ensures State() == OutboxState.RenamePending(old(State()), src, dst)
      ensures hit <==> old(AnyHit(items, src))
      ensures Ok() && (old(Orderly()) ==> Orderly())
    {
      ghost var q := State();
      hit := MoveQueued(src, dst);
      assert State() == OutboxState.RenamePending(q, src, dst);
      RenamedKept(q, counter, src, dst);
    }

    method MoveQueued(src: Place, dst: Place) returns (hit: bool)
      modifies this`items, this`dir
      ensures items == MovedItems(old(items), src, dst)
      ensures dir == Calls(old(dir), MoveCalls(old(items), src, dst))
      ensures hit <==> old(AnyHit(items, src))
    {
      hit := false;
      ghost var was := dir;
      var all, i := items, 0;
      while i < |all|
        invariant 0 <= i <= |all|
        invariant items == MovedUpTo(all, i, src, dst)
        invariant dir == Calls(was, MoveCalls(all[..i], src, dst))
        invariant hit <==> AnyHit(all[..i], src)
      {
        MoveStep(all, i, src, dst, was);
        MoveOne(all[i], i, src, dst);
        hit := hit || Hit(all[i], src);
        i := i + 1;
      }
      assert all[..|all|] == all;
      MovedUpToAll(all, i, src, dst);
    }

    method MoveOne(it: Item, i: nat, src: Place, dst: Place)
      requires i < |items| && items[i] == it
      modifies this`items, this`dir
      ensures items == old(items)[i := Moved(it, src, dst)]
      ensures dir == if Hit(it, src) then Call(old(dir), WriteTarget(it.n, Target(dst, it.mtime as real))) else old(dir)
    {
      if it.at == src && !it.trashed {
        items := items[i := it.(at := dst)];
        dir := Call(dir, WriteTarget(it.n, Target(dst, it.mtime as real)));
      }
    }

    method RemovePending(p: Place) returns (hit: bool)
      requires Ok()
      modifies this`items, this`total, this`dir
      ensures State() == OutboxState.RemovePending(old(State()), p)
      ensures hit <==> old(AnyHit(items, p))
      ensures Ok() && (old(Orderly()) ==> Orderly())
      ensures Balanced(old(State())) ==> Balanced(State())
    {
      ghost var q := State();
      hit := RemoveQueued(p);
      assert State() == OutboxState.RemovePending(q, p);
      RemovedKept(q, counter, p);
      if Balanced(q) { RemoveBalanced(q, p); }
    }

    /** The one uploading now goes to the trash once in the account; the others are just dropped. */
    method RemoveQueued(p: Place) returns (hit: bool)
      requires Distinct(items)
      modifies this`items, this`total, this`dir
      ensures items == RemovedItems(old(items), p, Sending(old(State())))
      ensures total == RemovedTotal(old(items), p, Sending(old(State())), done, old(total))
      ensures dir == Calls(old(dir), RemoveCalls(old(items), p, Sending(old(State()))))
      ensures hit <==> old(AnyHit(items, p))
    {
      hit := false;
      var cur := if current.Some? then Some(current.value.n) else None;
      var seen, rest := [], items;
      while |rest| > 0
        invariant old(items) == seen + rest
        invariant items == RemovedItems(seen, p, cur) + rest
        invariant total == RemovedTotal(seen, p, cur, done, old(total))
        invariant dir == Calls(old(dir), RemoveCalls(seen, p, cur))
        invariant hit <==> AnyHit(seen, p)
        decreases |rest|
      {
        var it := rest[0];
        assert rest == [it] + rest[1..];
        assert seen + rest == seen + [it] + rest[1..];
        SplitDiffers(seen, it, rest[1..]);
        RemoveStep(seen, it, rest[1..], p, cur, old(dir));
        TotalsStep(seen, it, p, cur, done, old(total));
        AnyHitStep(seen, it, p);
        RemoveOne(it, |items| - |rest|, p);
        hit := hit || Hit(it, p);
        seen, rest := seen + [it], rest[1..];
      }
      assert seen == old(items);
    }

    method RemoveOne(it: Item, i: nat, p: Place)
      requires i < |items| && items[i] == it
      modifies this`items, this`total, this`dir
      ensures var flying := Sending(old(State())) == Some(it.n);
              && items == (if !Hit(it, p) then old(items)
                           else if flying then old(items)[i := it.(trashed := true)]
                           else WithoutCopy(old(items), it.n))
              && total ==
                 (if Hit(it, p) && !flying then DropTotal(it, Sending(old(State())), done, old(total)) else old(total))
              && dir == (if Hit(it, p) && !flying then Calls(old(dir), DropCalls(it.n)) else old(dir))
    {
      if it.at == p && !it.trashed {
        if current.Some? && current.value.n == it.n {
          items := items[i := it.(trashed := true)];
        } else {
          Drop(it);
        }
      }
    }

    /** The copy to upload next: the oldest whose time has come. A failed one never holds the others. */
    method Pick(now: int) returns (r: Option<Item>)
      ensures r.Some? ==> r.value in items && Ready(r.value, now)
      ensures r.Some? ==> forall it :: it in items && Ready(it, now) ==> r.value.n <= it.n
      ensures r.None? ==> forall it :: it in items ==> !Ready(it, now)
    {
      r := None;
      var i := 0;
      while i < |items|
        invariant 0 <= i <= |items|
        invariant r.None? ==> forall k :: 0 <= k < i ==> !Ready(items[k], now)
        invariant r.Some? ==> r.value in items && Ready(r.value, now)
        invariant r.Some? ==> forall k :: 0 <= k < i && Ready(items[k], now) ==> r.value.n <= items[k].n
      {
        if Ready(items[i], now) && (r.None? || items[i].n < r.value.n) {
          r := Some(items[i]);
        }
        i := i + 1;
      }
    }

    method Begin(it: Item)
      requires Ok() && it in items && current.None?
      modifies this`current, this`partial, this`reported
      ensures State() == OutboxState.Begin(old(State()), it) && partial == 0 && reported == 0
      ensures Ok() && (old(Orderly()) ==> Orderly())
    {
      current := Some(Flight(it.n, it.at, it.size));
      partial := 0;
      reported := 0;
      MemberQueued(items, it);
      if OrderlyAt(old(State()), counter) { BeginValid(old(State()), it); }
    }

    /**
     The numbers shown: copies left, bytes done (at most the total) and in total. Not told (`force` off) within half
     a second of the last time, unless nothing of the file was told yet.
     */
    method Report(force: bool, t: int) returns (shown: Option<Burst>)
      modifies this`done, this`total, this`lastReport, this`reported
      ensures State() == OutboxState.Report(old(State()))
      ensures |items| > 0 ==> State() == old(State())
      ensures shown.None? <==> Held(force, t, old(lastReport), old(reported))
      ensures shown.Some? ==> shown.value == Told()
      ensures shown.Some? ==> lastReport == t && reported == partial
      ensures shown.None? ==> lastReport == old(lastReport) && reported == old(reported)
    {
      if |items| == 0 {
        done, total := 0, 0;
      }
      if !force && t - lastReport < HALF_SECOND && reported > 0 {
        return None;
      }
      reported := partial;
      lastReport := t;
      shown := Some(Told());
    }

    /** A piece of the file was sent. */
    method Progress(sent: nat, t: int) returns (shown: Option<Burst>)
      modifies this`partial, this`done, this`total, this`lastReport, this`reported
      ensures State() == OutboxState.Report(old(State())) && partial == sent
      ensures shown.None? <==> Held(false, t, old(lastReport), old(reported))
      ensures shown.Some? ==> shown.value == Told()
      ensures shown.Some? ==> lastReport == t && reported == sent
      ensures shown.None? ==> lastReport == old(lastReport) && reported == old(reported)
    {
      partial := sent;
      shown := Report(false, t);
    }

    /** The upload ended: the copy is dropped, uploaded or never uploadable. Its last known place and fate. */
    method End(now: int) returns (it: Item, shown: Burst)
      requires Ok() && current.Some?
      modifies this
      ensures State() == OutboxState.End(old(State())) && partial == 0 && counter == old(counter)
      ensures Some(it) == old(Find(items, current.value.n))
      ensures Ok() && (old(Orderly()) ==> Orderly())
      ensures shown == Told()
    {
      ghost var q := State();
      FindSpec(items, current.value.n);
      it, shown := Leave(now);
      EndKept(q, counter);
    }

    method Leave(now: int) returns (it: Item, shown: Burst)
      requires current.Some? && Find(items, current.value.n).Some? && Find(items, current.value.n).value in items
      requires Find(items, current.value.n).value.n == current.value.n
      modifies this
      ensures State() == OutboxState.End(old(State())) && partial == 0 && counter == old(counter)
      ensures Some(it) == old(Find(items, current.value.n))
      ensures shown == Told()
    {
      it := Find(items, current.value.n).value;
      CountDone(it);
      var told := Report(true, now);
      shown := told.value;
      current := None;
    }

    /** The bytes sent are done, the copy goes. */
    method CountDone(it: Item)
      requires current.Some? && it in items && it.n == current.value.n
      modifies this`items, this`done, this`total, this`partial, this`dir
      ensures partial == 0 && items == WithoutCopy(old(items), it.n) && done == old(done) + current.value.size
      ensures total == old(total) && dir == Calls(old(dir), DropCalls(it.n))
    {
      partial := 0;
      done := done + current.value.size;
      Drop(it);
    }

    method Failed(now: int)
      requires Ok() && current.Some?
      modifies this`items, this`current, this`partial
      ensures State() == Fail(old(State()), now) && partial == 0
      ensures Ok() && (old(Orderly()) ==> Orderly())
    {
      ghost var q := State();
      partial := 0;
      items := FailedItems(items, current.value.n, now);
      current := None;
      assert State() == Fail(q, now);
      FailedKept(q, counter, now);
    }
  }

  lemma {:induction false} KeptFrom(items: seq<Item>, p: Place, cur: Option<nat>)
    ensures forall it :: it in WithoutReplaced(items, p, cur) ==> it in items
  {
    if |items| > 0 {
      KeptFrom(items[..|items| - 1], p, cur);
    }
  }

  lemma {:induction false} LeftFrom(items: seq<Item>, p: Place, cur: Option<nat>)
    ensures forall it :: it in RemovedItems(items, p, cur) ==> exists x :: x in items && x.n == it.n
  {
    if |items| > 0 {
      LeftFrom(items[..|items| - 1], p, cur);
    }
  }
}
