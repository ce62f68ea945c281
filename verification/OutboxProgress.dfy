/**
 The bytes of a burst of uploads are conserved: its total is what is done plus what still waits. So the cap in
 `report` and the floor in `drop` never change a number.
 */
module OutboxProgress {
  import opened Basics
  import opened OutboxState
  import opened OutboxFacts
  import opened OutboxValid
  import opened OutboxOverlay
  import opened OutboxSteps
  import opened OutboxRuns
  import Crash = OutboxCrash

  /** Bytes that will be uploaded. */
  function Waiting(items: seq<Item>): nat {
    if |items| == 0 then 0
    else
      var last := items[|items| - 1];
      Waiting(items[..|items| - 1]) + if Uploadable(last) then last.size else 0
  }

  predicate Balanced(q: Queue) {
    q.total == q.done + Waiting(q.items)
  }

  // ----- dropping copies -----

  lemma {:induction false} ReplacedWaiting(items: seq<Item>, p: Place, cur: Option<nat>, done: nat, total: nat)
    requires total >= done + Waiting(items)
    ensures var left := Waiting(WithoutReplaced(items, p, cur));
            left <= Waiting(items) && ReplacedTotal(items, p, cur, done, total) == total - (Waiting(items) - left)
  {
    if |items| > 0 {
      var init, last := items[..|items| - 1], items[|items| - 1];
      ReplacedWaiting(init, p, cur, done, total);
      var kept := WithoutReplaced(init, p, cur);
      assert (kept + [last])[..|kept|] == kept;
      assert kept + [] == kept;
    }
  }

  lemma {:induction false} RemovedWaiting(items: seq<Item>, p: Place, cur: Option<nat>, done: nat, total: nat)
    requires total >= done + Waiting(items)
    ensures var left := Waiting(RemovedItems(items, p, cur));
            left <= Waiting(items) && RemovedTotal(items, p, cur, done, total) == total - (Waiting(items) - left)
  {
    if |items| > 0 {
      var init, last := items[..|items| - 1], items[|items| - 1];
      RemovedWaiting(init, p, cur, done, total);
      var left := RemovedItems(init, p, cur);
      assert (left + [last])[..|left|] == left;
      assert (left + [last.(trashed := true)])[..|left|] == left;
      assert left + [] == left;
    }
  }

  lemma {:induction false} WithoutCopyWaiting(items: seq<Item>, it: Item)
    requires Sorted(items) && it in items
    ensures Waiting(items) == Waiting(WithoutCopy(items, it.n)) + if Uploadable(it) then it.size else 0
  {
    var init, last := items[..|items| - 1], items[|items| - 1];
    SortedInit(items);
    var left := WithoutCopy(init, it.n);
    assert (left + [last])[..|left|] == left;
    assert left + [] == left;
    if last.n == it.n {
      SortedUnique(items, last, it);
      NothingWithout(init, it.n);
    } else {
      WithoutCopyWaiting(init, it);
    }
  }

  lemma {:induction false} NothingWithout(items: seq<Item>, n: nat)
    requires forall it :: it in items ==> it.n != n
    ensures WithoutCopy(items, n) == items
  {
    if |items| > 0 {
      NothingWithout(items[..|items| - 1], n);
      assert items[|items| - 1] in items;
    }
  }

  /** Bytes a rename moves. */
  function HitBytes(items: seq<Item>, p: Place): nat {
    if |items| == 0 then 0
    else
      var last := items[|items| - 1];
      HitBytes(items[..|items| - 1], p) + if Hit(last, p) then last.size else 0
  }

  lemma {:induction false} MovedWaiting(items: seq<Item>, src: Place, dst: Place)
    ensures Waiting(MovedItems(items, src, dst)) ==
            Waiting(items)
            + (if LocalOnlyName(src.name) && !LocalOnlyName(dst.name) then HitBytes(items, src) else 0)
            - (if !LocalOnlyName(src.name) && LocalOnlyName(dst.name) then HitBytes(items, src) else 0)
  {
    if |items| > 0 {
      var init := items[..|items| - 1];
      MovedWaiting(init, src, dst);
      assert MovedItems(items, src, dst)[..|init|] == MovedItems(init, src, dst);
    }
  }

  lemma {:induction false} FailedWaiting(items: seq<Item>, n: nat, now: int)
    ensures Waiting(FailedItems(items, n, now)) == Waiting(items)
  {
    if |items| > 0 {
      var init := items[..|items| - 1];
      FailedWaiting(init, n, now);
      assert FailedItems(items, n, now)[..|init|] == FailedItems(init, n, now);
    }
  }

  // ----- each operation -----

  lemma AddBalanced(q: Queue, n: nat, p: Place, bytes: Bytes, mtimeMs: real)
    requires Balanced(q)
    ensures Balanced(Add(q, n, p, bytes, mtimeMs))
  {
    ReplacedWaiting(q.items, p, Sending(q), q.done, q.total);
    var q' := Add(q, n, p, bytes, mtimeMs);
    assert q'.items[..|q'.items| - 1] == WithoutReplaced(q.items, p, Sending(q));
  }

  lemma RemoveBalanced(q: Queue, p: Place)
    requires Balanced(q)
    ensures Balanced(RemovePending(q, p))
  {
    RemovedWaiting(q.items, p, Sending(q), q.done, q.total);
  }

  predicate SameKind(a: Place, b: Place) {
    LocalOnlyName(a.name) == LocalOnlyName(b.name)
  }

  /** Whether a rename carries no bytes between local-only and normal names. */
  predicate RenameCounts(q: Queue, src: Place, dst: Place) {
    SameKind(src, dst) || HitBytes(q.items, src) == 0
  }

  /** Whether the copy in flight still has a normal name, is empty, or is the last one. */
  ghost predicate EndCounts(q: Queue)
    requires Valid(q) && q.current.Some?
  {
    Uploadable(InFlight(q)) || InFlight(q).size == 0 || |q.items| == 1
  }

  /** A rename keeps the balance exactly when it does not carry bytes between local-only and normal names. */
  lemma RenameBalancedIff(q: Queue, src: Place, dst: Place)
    requires Balanced(q)
    ensures Balanced(RenamePending(q, src, dst)) <==> RenameCounts(q, src, dst)
  {
    MovedWaiting(q.items, src, dst);
  }

  /** The end of an upload keeps it exactly when the copy still has a normal name, is empty, or was the last one. */
  lemma EndBalancedIff(q: Queue)
    requires Valid(q) && Balanced(q) && q.current.Some?
    ensures Balanced(End(q)) <==> EndCounts(q)
  {
    var it := InFlight(q);
    var left := WithoutCopy(q.items, it.n);
    WithoutCopyWaiting(q.items, it);
    WithoutCopyCount(q.items, it);
  }

  lemma {:induction false} WithoutCopyCount(items: seq<Item>, it: Item)
    requires Sorted(items) && it in items
    ensures |WithoutCopy(items, it.n)| == |items| - 1
  {
    var init, last := items[..|items| - 1], items[|items| - 1];
    SortedInit(items);
    if last.n == it.n {
      NothingWithout(init, it.n);
    } else {
      WithoutCopyCount(init, it);
    }
  }

  // ----- a restart -----

  lemma {:induction false} RestoredSizes(d: Dir, ns: seq<nat>)
    ensures Waiting(Crash.RestoredItems(d, ns)) == Crash.Sizes(Crash.RestoredItems(d, ns))
  {
    if |ns| > 0 {
      RestoredSizes(d, ns[..|ns| - 1]);
      SizesNext(Crash.RestoredItems(d, ns[..|ns| - 1]), Crash.RestoredItem(d, ns[|ns| - 1]));
    }
  }

  lemma SizesNext(r: seq<Item>, it: Option<Item>)
    requires Waiting(r) == Crash.Sizes(r) && (it.Some? ==> Uploadable(it.value))
    ensures var more := r + if it.Some? then [it.value] else []; Waiting(more) == Crash.Sizes(more)
  {
    if it.Some? { AppendLast(r, it.value); } else { assert r + [] == r; }
  }

  lemma RestoredBalanced(d: Dir, ns: seq<nat>)
    ensures Balanced(Crash.Restored(d, ns))
  {
    RestoredSizes(d, ns);
  }

  // ----- one event -----

  ghost predicate StepCounts(w: World, e: Event)
    requires Valid(w.q) && Enabled(w, e)
  {
    match e
    case Rename(src, dst, _, _) => RenameCounts(w.q, src, dst)
    case Uploaded(_) => EndCounts(w.q)
    case RefusedForGood => EndCounts(w.q)
    case _ => true
  }

  lemma UploadBalanced(w: World, n: nat, p: Place, bytes: Bytes, mtimeMs: real, nameOk: bool)
    requires Balanced(w.q) && FreshNumber(w.q, n)
    ensures Balanced(Step(w, Upload(n, p, bytes, mtimeMs, nameOk)).q)
  {
    AddBalanced(w.q, n, p, bytes, mtimeMs);
  }

  lemma FailBalanced(q: Queue, now: int)
    requires Balanced(q) && q.current.Some?
    ensures Balanced(Fail(q, now))
  {
    FailedWaiting(q.items, q.current.value.n, now);
  }

  /** An event keeps the balance exactly under that condition. */
  lemma StepBalancedIff(w: World, e: Event)
    requires Valid(w.q) && Balanced(w.q) && Enabled(w, e)
    ensures Balanced(Step(w, e).q) <==> StepCounts(w, e)
  {
    match e
    case Upload(n, p, bytes, mtimeMs, nameOk) => UploadBalanced(w, n, p, bytes, mtimeMs, nameOk);
    case Rename(src, dst, _, _) => RenameBalancedIff(w.q, src, dst);
    case Remove(p, _) => RemoveBalanced(w.q, p);
    case Start(_) =>
    case Uploaded(_) => EndBalancedIff(w.q);
    case FailedFor(now) => FailBalanced(w.q, now);
    case RefusedForGood => EndBalancedIff(w.q);
    case Restart(ns, _) => RestoredBalanced(w.q.dir, ns);
  }

  // ----- whole runs -----

  /** The total is what is done plus what waits, now and after each event. */
  ghost predicate AlwaysBalanced(w: World, es: seq<Event>)
    requires Possible(w, es)
    decreases |es|
  {
    Balanced(w.q) && (|es| > 0 ==> AlwaysBalanced(Step(w, es[0]), es[1..]))
  }

  ghost predicate StepsCount(w: World, es: seq<Event>)
    requires Valid(w.q) && Possible(w, es)
    decreases |es|
  {
    |es| > 0 ==>
      && StepCounts(w, es[0])
      && (StepValid(w, es[0]);
          StepsCount(Step(w, es[0]), es[1..]))
  }

  /**
   In every run, with no condition on it, the bytes are conserved after each event exactly when no rename carries
   bytes between the two kinds of names and no upload ends for a copy renamed to a local-only one (but an empty
   or a last copy).
   */
  lemma {:induction false} AlwaysBalancedIff(w: World, es: seq<Event>)
    requires Valid(w.q) && Balanced(w.q) && Possible(w, es)
    ensures AlwaysBalanced(w, es) <==> StepsCount(w, es)
    decreases |es|
  {
    if |es| > 0 {
      var w' := Step(w, es[0]);
      StepValid(w, es[0]);
      StepBalancedIff(w, es[0]);
      if Balanced(w'.q) { AlwaysBalancedIff(w', es[1..]); }
    }
  }

  /** Renames stay among normal names or among local-only ones. */
  ghost predicate KeepsKind(e: Event) {
    e.Rename? ==> SameKind(e.src, e.dst)
  }

  ghost predicate FlightUploads(q: Queue)
    requires Valid(q)
  {
    q.current.Some? ==> Uploadable(InFlight(q))
  }

  ghost predicate Counted(q: Queue) {
    Valid(q) && Balanced(q) && FlightUploads(q)
  }

  lemma UploadKeepsFlight(w: World, n: nat, p: Place, bytes: Bytes, mtimeMs: real, nameOk: bool)
    requires Valid(w.q) && FlightUploads(w.q) && FreshNumber(w.q, n)
    ensures var w' := Step(w, Upload(n, p, bytes, mtimeMs, nameOk)); Valid(w'.q) && FlightUploads(w'.q)
  {
    StepValid(w, Upload(n, p, bytes, mtimeMs, nameOk));
    if w.q.current.Some? && nameOk {
      var q' := Add(w.q, n, p, bytes, mtimeMs);
      AddKeepsFlight(w.q, n, p, bytes, mtimeMs);
      SortedUnique(q'.items, InFlight(w.q), InFlight(q'));
    }
  }

  lemma StartFlight(q: Queue, k: nat)
    requires Valid(q) && Find(q.items, k).Some? && Uploadable(Find(q.items, k).value)
    ensures Valid(Begin(q, Find(q.items, k).value)) && FlightUploads(Begin(q, Find(q.items, k).value))
  {
    StartValid(q, k);
    FindSpec(q.items, k);
    SortedUnique(q.items, Find(q.items, k).value, InFlight(Begin(q, Find(q.items, k).value)));
  }

  lemma MovedKind(it: Item, src: Place, dst: Place)
    requires SameKind(src, dst)
    ensures Uploadable(Moved(it, src, dst)) == Uploadable(it)
  {
  }

  lemma RenameKeepsFlight(q: Queue, src: Place, dst: Place)
    requires Valid(q) && FlightUploads(q) && SameKind(src, dst)
    ensures Valid(RenamePending(q, src, dst)) && FlightUploads(RenamePending(q, src, dst))
  {
    RenameValid(q, src, dst);
    if q.current.Some? {
      InFlightMoved(q, src, dst);
      MovedKind(InFlight(q), src, dst);
    }
  }

  lemma RemoveKeepsFlight(q: Queue, p: Place)
    requires Valid(q) && FlightUploads(q)
    ensures Valid(RemovePending(q, p)) && FlightUploads(RemovePending(q, p))
  {
    RemoveValid(q, p);
    if q.current.Some? { InFlightRemoved(q, p); }
  }

  lemma RenameStepKeepsFlight(w: World, src: Place, dst: Place, nameOk: bool, r: Reach)
    requires Valid(w.q) && FlightUploads(w.q) && SameKind(src, dst) && CanReach(w.account, src, dst, r)
    ensures var w' := Step(w, Rename(src, dst, nameOk, r)); Valid(w'.q) && FlightUploads(w'.q)
  {
    StepQueue(w, src, dst, nameOk, r);
    RenameKeepsFlight(w.q, src, dst);
  }

  lemma RemoveStepKeepsFlight(w: World, p: Place, ok: bool)
    requires Valid(w.q) && FlightUploads(w.q)
    ensures var w' := Step(w, Remove(p, ok)); Valid(w'.q) && FlightUploads(w'.q)
  {
    RemoveQueue(w, p, ok);
    RemoveKeepsFlight(w.q, p);
  }

  lemma StepKeepsFlight(w: World, e: Event)
    requires Valid(w.q) && FlightUploads(w.q) && Enabled(w, e) && KeepsKind(e)
    ensures Valid(Step(w, e).q) && FlightUploads(Step(w, e).q)
  {
    match e
    case Upload(n, p, bytes, mtimeMs, nameOk) => UploadKeepsFlight(w, n, p, bytes, mtimeMs, nameOk);
    case Rename(src, dst, nameOk, r) => RenameStepKeepsFlight(w, src, dst, nameOk, r);
    case Remove(p, ok) => RemoveStepKeepsFlight(w, p, ok);
    case Start(k) => StartFlight(w.q, k);
    case Uploaded(_) => EndValid(w.q);
    case FailedFor(now) => FailValid(w.q, now);
    case RefusedForGood => EndValid(w.q);
    case Restart(_, _) => StepValid(w, e);
  }

  /** So renames that keep to one kind of name conserve the bytes over every run. */
  lemma {:induction false} RunsConserveBytes(w: World, es: seq<Event>)
    requires Counted(w.q) && Possible(w, es) && forall e :: e in es ==> KeepsKind(e)
    ensures StepsCount(w, es) && AlwaysBalanced(w, es)
    decreases |es|
  {
    if |es| > 0 {
      assert es[0] in es;
      StepKeepsFlight(w, es[0]);
      StepBalancedIff(w, es[0]);
      RunsConserveBytes(Step(w, es[0]), es[1..]);
    }
  }

  /**
   Then what is reported (bytes done and of the file under way) is within the total by itself, and dropping a copy
   takes exactly its bytes off.
   */
  lemma CountedReports(q: Queue, partial: nat)
    requires Counted(q)
    ensures q.current.Some? && partial <= InFlight(q).size ==> Min(q.total, q.done + partial) == q.done + partial
    ensures forall it :: it in q.items && Uploadable(it) ==> Max(q.done, q.total - it.size) == q.total - it.size
  {
    forall it | it in q.items && Uploadable(it) ensures q.done + it.size <= q.total {
      WithoutCopyWaiting(q.items, it);
    }
    if q.current.Some? {
      assert InFlight(q) in q.items;
    }
  }

  // ----- how often the window is told (vdisk.ts `report`) -----

  const HALF_SECOND := 500

  /** Whether a report is held back. */
  predicate Held(force: bool, t: int, lastReport: int, reported: nat) {
    !force && t - lastReport < HALF_SECOND && reported > 0
  }

  /** A report asked for: when, with how much of the file sent, and whether it must be made. */
  datatype Tick = Tick(t: int, sent: nat, force: bool)

  /** The reports made of those asked for. */
  function Told(lastReport: int, reported: nat, ticks: seq<Tick>): seq<Tick>
    decreases |ticks|
  {
    if |ticks| == 0 then []
    else if Held(ticks[0].force, ticks[0].t, lastReport, reported) then Told(lastReport, reported, ticks[1..])
    else [ticks[0]] + Told(ticks[0].t, ticks[0].sent, ticks[1..])
  }

  /** While a file uploads the window is told at most every half second, once it was told of any bytes. */
  lemma {:induction false} ToldApart(lastReport: int, reported: nat, ticks: seq<Tick>)
    ensures var s := Told(lastReport, reported, ticks);
            && (|s| > 0 ==> s[0].force || s[0].t - lastReport >= HALF_SECOND || reported == 0)
            && forall i :: 0 < i < |s| ==> s[i].force || s[i].t - s[i - 1].t >= HALF_SECOND || s[i - 1].sent == 0
    decreases |ticks|
  {
    if |ticks| > 0 {
      if Held(ticks[0].force, ticks[0].t, lastReport, reported) {
        ToldApart(lastReport, reported, ticks[1..]);
      } else {
        ToldApart(ticks[0].t, ticks[0].sent, ticks[1..]);
      }
    }
  }

  /** The first bytes of a file are told at once. */
  lemma {:induction false} FirstBytesTold(lastReport: int, ticks: seq<Tick>, i: nat)
    requires i < |ticks| && forall j :: 0 <= j < i ==> ticks[j].sent == 0
    ensures |Told(lastReport, 0, ticks)| > i && Told(lastReport, 0, ticks)[i] == ticks[i]
    decreases |ticks|
  {
    if i > 0 {
      FirstBytesTold(ticks[0].t, ticks[1..], i - 1);
    }
  }

  /** The wait after the f-th failure in closed form. */
  lemma {:induction false} BackoffIsCapped(fails: nat)
    requires fails > 0
    ensures Backoff(fails) == Min(RETRY_FIRST * Power2(fails - 1), RETRY_LAST)
  {
    if fails > 1 {
      BackoffIsCapped(fails - 1);
    }
  }

  function Power2(k: nat): nat {
    if k == 0 then 1 else 2 * Power2(k - 1)
  }
}
