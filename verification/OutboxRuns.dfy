/**
 Whole runs of the disk. As long as no upload begins past an older copy of the same name, and renames keep to
 RenameOk, what the disk shows after any run is what a plain file system shows after the same operations, and
 the uploads themselves never show.
 */
module OutboxRuns {
  import opened Basics
  import opened OutboxState
  import opened OutboxFacts
  import opened OutboxValid
  import opened OutboxOverlay
  import opened OutboxCommit
  import opened OutboxRestart
  import opened OutboxSteps
  import Crash = OutboxCrash

  // ----- the conditions on a run -----

  predicate OnlyYounger(items: seq<Item>, src: Place, dst: Place) {
    forall i, j :: 0 <= i < |items| && 0 <= j < |items| && Hit(items[i], src) && items[j].at == dst ==>
      items[j].n < items[i].n
  }

  predicate NothingAt(items: seq<Item>, p: Place) {
    forall i :: 0 <= i < |items| ==> items[i].at != p
  }

  predicate NoneTrashedAt(items: seq<Item>, p: Place) {
    forall i :: 0 <= i < |items| && items[i].at == p ==> !items[i].trashed
  }

  predicate SendingFrom(q: Queue, p: Place) {
    q.current.Some? && exists i :: 0 <= i < |q.items| && q.items[i].n == q.current.value.n && Hit(q.items[i], p)
  }

  /**
   What is renamed onto a name is younger than every queued copy of that name; the copy being uploaded is
   renamed only onto a name nothing queued has; and a file that is in the account goes onto a name with queued
   copies, or that the upload under way was aimed at, only when a queued copy goes with it over them.
   */
  predicate RenameOk(w: World, src: Place, dst: Place) {
    var items := w.q.items;
    || src == dst
    || (&& OnlyYounger(items, src, dst)
        && (SendingFrom(w.q, src) ==> NothingAt(items, dst))
        && (src in w.account ==>
              && (!AnyHit(items, src) ==> NothingAt(items, dst))
              && NoneTrashedAt(items, dst)
              && (w.q.current.Some? && w.q.current.value.at == dst ==> SendingFrom(w.q, src) || SendingFrom(w.q, dst))))
  }

  /** No older copy of the same name is waiting (for instance after a failure). */
  predicate StartOk(q: Queue, k: nat) {
    forall i, j :: 0 <= i < |q.items| && 0 <= j < |q.items| && q.items[j].n == k && q.items[i].at == q.items[j].at ==>
      q.items[i].n >= k
  }

  /**
   Besides: a rename or removal the account does not carry out has nothing queued at its name; what follows an upload
   in the account succeeds; and a restart has nothing to lose.
   */
  ghost predicate Guard(w: World, e: Event)
    requires Enabled(w, e)
  {
    match e
    case Rename(src, dst, nameOk, r) =>
      if Carried(w, src, nameOk, r) then RenameOk(w, src, dst)
      else src == dst || (!AnyHit(w.q.items, src) && FailedAt(nameOk, r).Nowhere?)
    case Remove(p, ok) => ok || p !in w.account || !AnyHit(w.q.items, p)
    case Start(k) => StartOk(w.q, k)
    case Uploaded(r) => r.Through?
    case Restart(_, committed) => RestartKeeps(w, committed)
    case _ => true
  }

  // ----- what such runs keep -----

  /** A copy removed while it was uploaded has no file of the account under it. */
  ghost predicate TrashGone(items: seq<Item>, account: Files) {
    forall it :: it in items && it.trashed ==> it.at !in account
  }

  /** ... and no older copy of its name. */
  ghost predicate TrashOldest(items: seq<Item>) {
    forall a, b :: a in items && b in items && a.at == b.at && a.n < b.n ==> !b.trashed
  }

  ghost predicate Oldest(items: seq<Item>, it: Item) {
    forall x :: x in items && x.at == it.at ==> it.n <= x.n
  }

  /**
   The copy in flight is the oldest of its name, and once it strayed the account holds nothing at the place the
   upload is aimed at.
   */
  ghost predicate FlightGood(w: World)
    requires Valid(w.q)
  {
    w.q.current.Some? ==>
      && Oldest(w.q.items, InFlight(w.q))
      && (Strayed(InFlight(w.q), w.q.current.value) ==> w.q.current.value.at !in w.account)
  }

  ghost predicate Good(w: World) {
    && Valid(w.q)
    && TrashGone(w.q.items, w.account)
    && TrashOldest(w.q.items)
    && FlightGood(w)
  }

  lemma UploadGood(w: World, n: nat, p: Place, bytes: Bytes, mtimeMs: real)
    requires Good(w) && FreshNumber(w.q, n)
    ensures Good(w.(q := Add(w.q, n, p, bytes, mtimeMs)))
  {
    AddValid(w.q, n, p, bytes, mtimeMs);
    UploadTrash(w, n, p, bytes, mtimeMs);
    if w.q.current.Some? { UploadFlight(w, n, p, bytes, mtimeMs); }
  }

  lemma UploadTrash(w: World, n: nat, p: Place, bytes: Bytes, mtimeMs: real)
    requires Sorted(w.q.items) && FreshNumber(w.q, n) && TrashGone(w.q.items, w.account) && TrashOldest(w.q.items)
    ensures TrashGone(Add(w.q, n, p, bytes, mtimeMs).items, w.account) &&
            TrashOldest(Add(w.q, n, p, bytes, mtimeMs).items)
  {
    WithoutReplacedMembers(w.q.items, p, Sending(w.q));
  }

  lemma UploadFlight(w: World, n: nat, p: Place, bytes: Bytes, mtimeMs: real)
    requires Good(w) && FreshNumber(w.q, n) && w.q.current.Some? && Valid(Add(w.q, n, p, bytes, mtimeMs))
    ensures FlightGood(w.(q := Add(w.q, n, p, bytes, mtimeMs)))
  {
    var q' := Add(w.q, n, p, bytes, mtimeMs);
    WithoutReplacedMembers(w.q.items, p, Sending(w.q));
    AddKeepsFlight(w.q, n, p, bytes, mtimeMs);
    SortedUnique(q'.items, InFlight(w.q), InFlight(q'));
  }

  lemma RemoveGood(w: World, p: Place)
    requires Good(w)
    ensures Good(World(RemovePending(w.q, p), w.account - {p}))
  {
    var q' := RemovePending(w.q, p);
    RemoveValid(w.q, p);
    forall x | x in q'.items && x.trashed ensures x.at !in w.account - {p} {
      RemovedItemsFrom(w.q.items, p, Sending(w.q), x);
    }
    forall a, b | a in q'.items && b in q'.items && a.at == b.at && a.n < b.n ensures !b.trashed {
      RemovedItemsFrom(w.q.items, p, Sending(w.q), a);
      RemovedItemsFrom(w.q.items, p, Sending(w.q), b);
      if b !in w.q.items {
        SortedUnique(w.q.items, b.(trashed := false), InFlight(w.q));
      }
    }
    if w.q.current.Some? {
      RemoveFlight(w, p);
    }
  }

  /** The copy in flight after a removal: the same, perhaps in the trash. */
  lemma InFlightRemoved(q: Queue, p: Place)
    requires Valid(q) && q.current.Some? && Valid(RemovePending(q, p))
    ensures InFlight(RemovePending(q, p)) == if Hit(InFlight(q), p) then InFlight(q).(trashed := true) else InFlight(q)
  {
    var it := InFlight(q);
    RemovedItemsKeep(q.items, p, Sending(q), it);
    var it' := if Hit(it, p) then it.(trashed := true) else it;
    SortedUnique(RemovePending(q, p).items, it', InFlight(RemovePending(q, p)));
  }

  lemma RemoveFlight(w: World, p: Place)
    requires Good(w) && w.q.current.Some? && Valid(RemovePending(w.q, p))
    ensures FlightGood(World(RemovePending(w.q, p), w.account - {p}))
  {
    InFlightRemoved(w.q, p);
    var it := InFlight(w.q);
    forall x | x in RemovePending(w.q, p).items && x.at == it.at ensures it.n <= x.n {
      RemovedItemsFrom(w.q.items, p, Sending(w.q), x);
    }
  }

  lemma StartGood(w: World, k: nat)
    requires Good(w) && Enabled(w, Start(k)) && StartOk(w.q, k)
    ensures Good(Step(w, Start(k)))
  {
    FindSpec(w.q.items, k);
    var it := Find(w.q.items, k).value;
    var q' := Begin(w.q, it);
    BeginValid(w.q, it);
    SortedUnique(w.q.items, it, InFlight(q'));
  }

  lemma EndGood(w: World, account: Files)
    requires Good(w) && w.q.current.Some?
    requires var f, it := w.q.current.value, InFlight(w.q);
             forall p :: p in account ==> p in w.account || (p == it.at && !it.trashed)
    ensures Good(World(End(w.q), account))
  {
    var it := InFlight(w.q);
    EndValid(w.q);
    WithoutCopyMembers(w.q.items, it.n);
    forall t | t in End(w.q).items && t.trashed ensures t.at !in account {
      if t.at == it.at && !it.trashed {
        assert t in w.q.items && it.n < t.n;
      }
    }
  }

  lemma CommitAccount(w: World, p: Place)
    requires Good(w) && w.q.current.Some? && p in Commit(w, Through).account
    ensures var it := InFlight(w.q); p in w.account || (p == it.at && !it.trashed)
  {
  }

  lemma FailGood(w: World, now: int)
    requires Good(w) && w.q.current.Some?
    ensures Good(w.(q := Fail(w.q, now)))
  {
    FailValid(w.q, now);
    FailKeepsTrash(w.q, w.account, now);
  }

  lemma FailKeepsTrash(q: Queue, account: Files, now: int)
    requires q.current.Some? && TrashGone(q.items, account) && TrashOldest(q.items)
    ensures TrashGone(Fail(q, now).items, account) && TrashOldest(Fail(q, now).items)
  {
    var items' := Fail(q, now).items;
    forall x | x in items' && x.trashed ensures x.at !in account {
      var it := FailedFrom(q, now, x);
    }
    forall a, b | a in items' && b in items' && a.at == b.at && a.n < b.n ensures !b.trashed {
      var x := FailedFrom(q, now, a);
      var y := FailedFrom(q, now, b);
    }
  }

  lemma FailedFrom(q: Queue, now: int, x: Item) returns (it: Item)
    requires q.current.Some? && x in Fail(q, now).items
    ensures it in q.items && x.n == it.n && x.at == it.at && x.trashed == it.trashed
  {
    var i :| 0 <= i < |q.items| && Fail(q, now).items[i] == x;
    it := q.items[i];
  }

  lemma RenameGood(w: World, src: Place, dst: Place)
    requires Good(w) && RenameOk(w, src, dst)
    ensures Good(World(RenamePending(w.q, src, dst), Move(w.account, src, dst)))
  {
    RenameValid(w.q, src, dst);
    if src == dst {
      RenameSame(w, src);
      if w.q.current.Some? {
        SortedUnique(w.q.items, InFlight(w.q), InFlight(RenamePending(w.q, src, dst)));
      }
    } else {
      RenameTrashGone(w, src, dst);
      RenameTrashOldest(w, src, dst);
      if w.q.current.Some? {
        RenameFlight(w, src, dst);
      }
    }
  }

  /** A refused rename of nothing queued changes nothing; of a name onto itself, only the stored times. */
  lemma RefusedGood(w: World, src: Place, dst: Place, nameOk: bool, r: Reach)
    requires Good(w) && !Carried(w, src, nameOk, r)
    requires src == dst || (!AnyHit(w.q.items, src) && FailedAt(nameOk, r).Nowhere?)
    ensures Good(HandleRename(w, src, dst, nameOk, r).0)
  {
    RefusedWorld(w, src, dst, nameOk, r);
    if src == dst {
      RenameGood(w, src, dst);
      RenameSame(w, src);
    } else {
      RenameOfNothing(w.q, src, dst);
    }
  }

  /** So does a removal of nothing queued that the account fails. */
  lemma RemoveGoodStep(w: World, p: Place, ok: bool)
    requires Good(w) && (ok || p !in w.account || !AnyHit(w.q.items, p))
    ensures Good(HandleRemove(w, p, ok).0)
  {
    if ok || p !in w.account {
      RemoveGood(w, p);
      assert p !in w.account ==> w.account - {p} == w.account;
    } else {
      RemoveOfNothing(w.q.items, p, Sending(w.q), w.q.done, w.q.total);
    }
  }

  lemma {:induction false} RemoveOfNothing(items: seq<Item>, p: Place, cur: Option<nat>, done: nat, total: nat)
    requires !AnyHit(items, p)
    ensures RemovedItems(items, p, cur) == items && RemoveCalls(items, p, cur) == []
    ensures RemovedTotal(items, p, cur, done, total) == total
  {
    if |items| > 0 {
      var init := items[..|items| - 1];
      assert forall i :: 0 <= i < |init| ==> init[i] == items[i];
      RemoveOfNothing(init, p, cur, done, total);
    }
  }

  /** A queue with nothing in the trash and nothing in flight may begin any run. */
  lemma CleanGood(w: World)
    requires Valid(w.q) && w.q.current.None? && forall x :: x in w.q.items ==> !x.trashed
    ensures Good(w)
  {
  }

  /** A restarted queue is one. */
  lemma RestartGood(w: World, account: Files, ns: seq<nat>)
    requires Crash.Listing(w.q.dir, ns) && Crash.Ascending(ns)
    ensures Good(Restarted(w, account, ns))
  {
    Crash.RestoredValid(w.q.dir, ns);
    forall x | x in Crash.RestoredItems(w.q.dir, ns) ensures !x.trashed {
      Crash.RestoredMember(w.q.dir, ns, x);
    }
    CleanGood(Restarted(w, account, ns));
  }

  lemma RenameOfNothing(q: Queue, src: Place, dst: Place)
    requires !AnyHit(q.items, src)
    ensures RenamePending(q, src, dst) == q
  {
    assert MovedItems(q.items, src, dst) == q.items;
    NoMoveCalls(q.items, src, dst);
  }

  lemma {:induction false} NoMoveCalls(items: seq<Item>, src: Place, dst: Place)
    requires !AnyHit(items, src)
    ensures MoveCalls(items, src, dst) == []
  {
    if |items| > 0 {
      var init := items[..|items| - 1];
      assert forall i :: 0 <= i < |init| ==> init[i] == items[i];
      NoMoveCalls(init, src, dst);
    }
  }

  lemma RenameTrashGone(w: World, src: Place, dst: Place)
    requires TrashGone(w.q.items, w.account) && src != dst
    requires src in w.account ==> NoneTrashedAt(w.q.items, dst)
    ensures TrashGone(RenamePending(w.q, src, dst).items, Move(w.account, src, dst))
  {
    var items' := RenamePending(w.q, src, dst).items;
    forall x | x in items' && x.trashed ensures x.at !in Move(w.account, src, dst) {
      var it := MovedFrom(w.q, src, dst, x);
      assert it == x && x.at !in w.account;
    }
  }

  lemma RenameTrashOldest(w: World, src: Place, dst: Place)
    requires TrashOldest(w.q.items) && OnlyYounger(w.q.items, src, dst) && src != dst
    ensures TrashOldest(RenamePending(w.q, src, dst).items)
  {
    var items' := RenamePending(w.q, src, dst).items;
    forall a, b | a in items' && b in items' && a.at == b.at && a.n < b.n ensures !b.trashed {
      var x := MovedFrom(w.q, src, dst, a);
      var y := MovedFrom(w.q, src, dst, b);
      if b.trashed && Hit(x, src) {
        Ordered(w.q.items, src, dst, x, y);
      }
    }
  }

  lemma MovedFrom(q: Queue, src: Place, dst: Place, x: Item) returns (it: Item)
    requires x in RenamePending(q, src, dst).items
    ensures it in q.items && x == Moved(it, src, dst)
  {
    var i :| 0 <= i < |q.items| && RenamePending(q, src, dst).items[i] == x;
    it := q.items[i];
  }

  lemma Ordered(items: seq<Item>, src: Place, dst: Place, s: Item, d: Item)
    requires OnlyYounger(items, src, dst) && s in items && d in items && Hit(s, src) && d.at == dst
    ensures d.n < s.n
  {
  }

  lemma RenameFlight(w: World, src: Place, dst: Place)
    requires Good(w) && RenameOk(w, src, dst) && src != dst && w.q.current.Some?
    requires Valid(RenamePending(w.q, src, dst))
    ensures FlightGood(World(RenamePending(w.q, src, dst), Move(w.account, src, dst)))
  {
    InFlightMoved(w.q, src, dst);
    SendingIs(w.q, src);
    RenameFlightOldest(w.q, src, dst, InFlight(w.q));
    RenameFlightTarget(w, src, dst);
  }

  lemma InFlightMoved(q: Queue, src: Place, dst: Place)
    requires Valid(q) && q.current.Some? && Valid(RenamePending(q, src, dst))
    ensures InFlight(RenamePending(q, src, dst)) == Moved(InFlight(q), src, dst)
  {
    var was := MovedFrom(q, src, dst, InFlight(RenamePending(q, src, dst)));
    SortedUnique(q.items, was, InFlight(q));
  }

  lemma RenameFlightTarget(w: World, src: Place, dst: Place)
    requires Good(w) && RenameOk(w, src, dst) && src != dst && w.q.current.Some?
    ensures Strayed(Moved(InFlight(w.q), src, dst), w.q.current.value) ==>
            w.q.current.value.at !in Move(w.account, src, dst)
  {
    var it, f := InFlight(w.q), w.q.current.value;
    SendingIs(w.q, src);
    SendingIs(w.q, dst);
    assert FlightGood(w);
    if src in w.account && f.at == dst {
      assert Hit(it, src) || Hit(it, dst);
    }
  }

  lemma RenameFlightOldest(q: Queue, src: Place, dst: Place, it: Item)
    requires Oldest(q.items, it) && it in q.items && OnlyYounger(q.items, src, dst) && src != dst
    requires Hit(it, src) ==> NothingAt(q.items, dst)
    ensures Oldest(RenamePending(q, src, dst).items, Moved(it, src, dst))
  {
    var items', it' := RenamePending(q, src, dst).items, Moved(it, src, dst);
    forall x | x in items' && x.at == it'.at ensures it'.n <= x.n {
      var y := MovedFrom(q, src, dst, x);
      if !Hit(it, src) && Hit(y, src) {
        Ordered(q.items, src, dst, y, it);
      }
    }
  }

  lemma SendingIs(q: Queue, p: Place)
    requires Valid(q) && q.current.Some?
    ensures SendingFrom(q, p) <==> Hit(InFlight(q), p)
  {
    var it := InFlight(q);
    if SendingFrom(q, p) {
      var i :| 0 <= i < |q.items| && q.items[i].n == q.current.value.n && Hit(q.items[i], p);
      SortedUnique(q.items, q.items[i], it);
    }
  }

  lemma StepGood(w: World, e: Event)
    requires Good(w) && Enabled(w, e) && Guard(w, e)
    ensures Good(Step(w, e))
  {
    match e
    case Upload(n, p, bytes, mtimeMs, nameOk) => if nameOk { UploadGood(w, n, p, bytes, mtimeMs); }
    case Rename(src, dst, nameOk, r) => RenameGoodStep(w, src, dst, nameOk, r);
    case Remove(p, ok) => RemoveGoodStep(w, p, ok);
    case Start(k) => StartGood(w, k);
    case Uploaded(_) => CommitGood(w);
    case FailedFor(now) => FailGood(w, now);
    case RefusedForGood => EndGood(w, w.account);
    case Restart(ns, committed) => RestartGood(w, AccountLeft(w, committed), ns);
  }

  lemma RenameGoodStep(w: World, src: Place, dst: Place, nameOk: bool, r: Reach)
    requires Good(w) && CanReach(w.account, src, dst, r) && Guard(w, Rename(src, dst, nameOk, r))
    ensures Good(HandleRename(w, src, dst, nameOk, r).0)
  {
    if Carried(w, src, nameOk, r) {
      CarriedWorld(w, src, dst, nameOk, r);
      RenamedWorld(w, src, dst);
      RenameGood(w, src, dst);
    } else {
      RefusedGood(w, src, dst, nameOk, r);
    }
  }

  lemma CommitGood(w: World)
    requires Good(w) && w.q.current.Some?
    ensures Good(Commit(w, Through))
  {
    var a := Commit(w, Through).account;
    forall p | p in a ensures p in w.account || (p == InFlight(w.q).at && !InFlight(w.q).trashed) {
      CommitAccount(w, p);
    }
    EndGood(w, a);
  }

  // ----- such runs show a plain file system -----

  lemma GuardedRenameIsRight(w: World, src: Place, dst: Place)
    requires Good(w) && RenameOk(w, src, dst)
    ensures RenameShowsRight(w, src, dst)
  {
    var s, d := Newest(w.q.items, src), Newest(w.q.items, dst);
    NewestSpec(w.q.items, src);
    NewestSpec(w.q.items, dst);
    HitNewest(w.q.items, src);
    if src != dst && d.Some? {
      if s.Some? {
        Ordered(w.q.items, src, dst, s.value, d.value);
      }
    }
  }

  lemma GoodCommitKeeps(w: World)
    requires Good(w) && w.q.current.Some?
    ensures CommitKeeps(w, Through)
  {
    var it := InFlight(w.q);
    NewestSpec(w.q.items, it.at);
    NewestNotN(w.q.items, it.n, it.at);
  }

  lemma GuardedStepIsRight(w: World, e: Event)
    requires Good(w) && Enabled(w, e) && Guard(w, e)
    ensures StepRight(w, e)
  {
    match e
    case Rename(src, dst, nameOk, r) =>
      HitNewest(w.q.items, src);
      if Carried(w, src, nameOk, r) { GuardedRenameIsRight(w, src, dst); }
    case Remove(p, _) => HitNewest(w.q.items, p);
    case Uploaded(_) => GoodCommitKeeps(w);
    case _ =>
  }

  // ----- runs -----

  ghost predicate Allowed(w: World, es: seq<Event>)
    decreases |es|
  {
    |es| > 0 ==> Enabled(w, es[0]) && Guard(w, es[0]) && Allowed(Step(w, es[0]), es[1..])
  }

  lemma {:induction false} AllowedRuns(w: World, es: seq<Event>)
    requires Good(w) && Allowed(w, es)
    ensures Possible(w, es) && StepsRight(w, es) && Good(Run(w, es))
    decreases |es|
  {
    if |es| > 0 {
      StepGood(w, es[0]);
      GuardedStepIsRight(w, es[0]);
      AllowedRuns(Step(w, es[0]), es[1..]);
    }
  }

  /** The queue over the account is a plain file system, after every allowed run. */
  lemma RunsShowAPlainFileSystem(w: World, es: seq<Event>)
    requires Good(w) && Allowed(w, es)
    ensures Possible(w, es) && Good(Run(w, es))
    ensures ShowsPlain(w, View(w), es)
    ensures View(Run(w, es)) == PlainRun(w, View(w), es)
  {
    AllowedRuns(w, es);
    ShowsPlainIff(w, es);
    ShowsPlainAtEnd(w, View(w), es);
  }

  /** A disk with nothing queued is where every run may begin. */
  lemma EmptyIsGood(account: Files, dir: Dir)
    requires dir.targets == map[]
    ensures Good(World(Queue([], None, 0, 0, dir), account))
    ensures View(World(Queue([], None, 0, 0, dir), account)) == account
  {
    ViewIs(World(Queue([], None, 0, 0, dir), account), account);
  }

  // ----- without the conditions -----

  /** An upload begun and ended. */
  function Sent(w: World, it: Item): World {
    Commit(w.(q := Begin(w.q, it)), Through)
  }

  lemma SentIs(w: World, k: nat, it: Item)
    requires Valid(w.q) && w.q.current.None? && Find(w.q.items, k) == Some(it) && Uploadable(it)
    ensures Enabled(w, Start(k)) && Enabled(Step(w, Start(k)), Uploaded(Through))
    ensures Step(Step(w, Start(k)), Uploaded(Through)) == Sent(w, it)
  {
  }

  /** An upload that begins past an older copy of its name ends with that older copy showing again. */
  lemma UploadPastOlderShowsOlder(w: World, it: Item, older: Item)
    requires Valid(w.q) && w.q.current.None?
    requires Find(w.q.items, it.n) == Some(it) && Uploadable(it)
    requires Newest(w.q.items, it.at) == Some(it) && Newest(WithoutCopy(w.q.items, it.n), it.at) == Some(older)
    ensures Shown(w, it.at) == Some(BytesOf(w.q, it)) && Shown(Sent(w, it), it.at) == Some(BytesOf(w.q, older))
  {
    FindSpec(w.q.items, it.n);
    BeginValid(w.q, it);
    EndFacts(w.(q := Begin(w.q, it)), it.at);
  }

  /** So does a copy that failed for now while a younger one of its name was queued, once that one is uploaded. */
  lemma FailedUnderYoungerComesBack(w: World, younger: Item, now: int)
    requires Valid(w.q) && w.q.current.Some? && !InFlight(w.q).trashed
    requires younger in w.q.items && younger.n != InFlight(w.q).n && Uploadable(younger)
    requires Newest(w.q.items, InFlight(w.q).at) == Some(younger)
    requires Newest(WithoutCopy(w.q.items, younger.n), younger.at) == Some(InFlight(w.q))
    ensures var w1 := w.(q := Fail(w.q, now));
            && Find(w1.q.items, younger.n) == Some(younger)
            && Shown(w1, younger.at) == Some(BytesOf(w.q, younger))
            && Shown(Sent(w1, younger), younger.at) == Some(BytesOf(w.q, InFlight(w.q)))
  {
    var it := InFlight(w.q);
    var w1 := w.(q := Fail(w.q, now));
    FailValid(w.q, now);
    FailedYounger(w.q, younger, now);
    UploadPastOlderShowsOlder(w1, younger, FailedItem(it, it.n, now));
  }

  /** After the failure the younger copy is still the newest of its name, the failed one the next. */
  lemma FailedYounger(q: Queue, younger: Item, now: int)
    requires Valid(q) && q.current.Some? && younger in q.items && younger.n != InFlight(q).n
    requires Newest(q.items, InFlight(q).at) == Some(younger)
    requires Newest(WithoutCopy(q.items, younger.n), younger.at) == Some(InFlight(q))
    ensures var r := Fail(q, now).items;
            && Find(r, younger.n) == Some(younger) && Newest(r, younger.at) == Some(younger)
            && younger.at == InFlight(q).at
            && Newest(WithoutCopy(r, younger.n), younger.at) == Some(FailedItem(InFlight(q), InFlight(q).n, now))
  {
    var it := InFlight(q);
    FailedFind(q.items, it.n, now, younger);
    NewestSpec(q.items, it.at);
    NewestFailed(q.items, it.n, now, younger.at);
    FailedWithout(q.items, it.n, now, younger.n);
    NewestFailed(WithoutCopy(q.items, younger.n), it.n, now, younger.at);
  }

  lemma FailedFind(items: seq<Item>, n: nat, now: int, x: Item)
    requires Sorted(items) && x in items && x.n != n
    ensures Find(FailedItems(items, n, now), x.n) == Some(x)
  {
    var r := FailedItems(items, n, now);
    FailedItemsMembers(items, n, now);
    FindSpec(r, x.n);
    SortedUnique(r, x, Find(r, x.n).value);
  }

  lemma {:induction false} FailedWithout(items: seq<Item>, n: nat, now: int, gone: nat)
    ensures WithoutCopy(FailedItems(items, n, now), gone) == FailedItems(WithoutCopy(items, gone), n, now)
  {
    if |items| > 0 {
      var init, last := items[..|items| - 1], items[|items| - 1];
      assert FailedItems(items, n, now)[..|init|] == FailedItems(init, n, now);
      FailedWithout(init, n, now, gone);
    }
  }

  /** A removed copy whose upload failed takes a younger file of its name with it, once that one went first. */
  lemma TrashedRetryTakesYounger(w: World, t: Item, m: Item)
    requires Valid(w.q) && w.q.current.None?
    requires Find(w.q.items, t.n) == Some(t) && t.trashed && Uploadable(t)
    requires Find(w.q.items, m.n) == Some(m) && Newest(w.q.items, t.at) == Some(m) && m.n != t.n
    requires Newest(WithoutCopy(w.q.items, m.n), t.at).None?
    ensures Uploadable(m) && Shown(w, t.at) == Some(BytesOf(w.q, m))
    ensures Find(Sent(w, m).q.items, t.n) == Some(t) && Shown(Sent(Sent(w, m), t), t.at).None?
  {
    FindSpec(w.q.items, m.n);
    FindSpec(w.q.items, t.n);
    NewestIsThere(w.q.items, m, t.at);
    BeginValid(w.q, m);
    EndValid(Begin(w.q, m));
    TrashedLeft(w.q, t, m);
    TrashedTakes(Sent(w, m), t);
  }

  lemma TrashedLeft(q: Queue, t: Item, m: Item)
    requires Valid(q) && t in q.items && m in q.items && m.n != t.n
    ensures Find(WithoutCopy(q.items, m.n), t.n) == Some(t)
  {
    var r := WithoutCopy(q.items, m.n);
    WithoutCopyMembers(q.items, m.n);
    FindSpec(r, t.n);
    SortedUnique(r, t, Find(r, t.n).value);
  }

  /** The upload of a removed copy leaves nothing at its name that is not queued. */
  lemma TrashedTakes(w: World, t: Item)
    requires Valid(w.q) && w.q.current.None? && Find(w.q.items, t.n) == Some(t) && t.trashed
    requires Newest(w.q.items, t.at).None?
    ensures Shown(Sent(w, t), t.at).None?
  {
    FindSpec(w.q.items, t.n);
    BeginValid(w.q, t);
    EndFacts(w.(q := Begin(w.q, t)), t.at);
    NewestWithoutCopy(w.q.items, t.n, t.at);
  }

  /** A follow-up rename that fails: the name the disk showed goes, the one the upload was aimed at is back. */
  lemma FailedFollowUpShowsOldName(w: World)
    requires Valid(w.q) && w.q.current.Some?
    requires var f, it := w.q.current.value, InFlight(w.q);
             && it.at != f.at && Newest(w.q.items, it.at) == Some(it)
             && Newest(WithoutCopy(w.q.items, it.n), it.at).None? && it.at !in w.account
             && Newest(w.q.items, f.at).None? && f.at !in w.account
    ensures var f, it, w' := w.q.current.value, InFlight(w.q), Commit(w, Nowhere);
            && Shown(w, it.at) == Some(BytesOf(w.q, it)) && Shown(w, f.at).None?
            && Shown(w', it.at).None? && Shown(w', f.at) == Some(BytesOf(w.q, it))
  {
    var f, it := w.q.current.value, InFlight(w.q);
    NewestIsThere(w.q.items, it, it.at);
    EndFacts(w, it.at);
    EndFacts(w, f.at);
    NotNewest(w.q.items, it, f.at);
  }
}
