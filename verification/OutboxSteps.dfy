/**
 What the disk does and what a plain file system would do, event by event and over runs without any condition on
 them: when the two agree, exactly.
 */
module OutboxSteps {
  import opened Basics
  import opened OutboxState
  import opened OutboxFacts
  import opened OutboxValid
  import opened OutboxOverlay
  import opened OutboxCommit
  import opened OutboxRestart
  import Crash = OutboxCrash

  /**
   What can happen to the disk. `r` and `ok`: how far the account gets. `Uploaded`: an upload ended, with what follows
   in the account. `Restart`: the agent ends and starts again, perhaps between an upload's commit and the end of it.
   */
  datatype Event =
    | Upload(n: nat, p: Place, bytes: Bytes, mtimeMs: real, nameOk: bool)
    | Rename(src: Place, dst: Place, nameOk: bool, r: Reach)
    | Remove(gone: Place, ok: bool)
    | Start(k: nat)
    | Uploaded(r: Reach)
    | FailedFor(now: int)
    | RefusedForGood
    | Restart(ns: seq<nat>, committed: bool)

  /**
   Numbers are new, one upload at a time, only of names that are uploaded; a restart reads the directory by number.
   */
  ghost predicate Enabled(w: World, e: Event) {
    match e
    case Upload(n, _, _, _, _) => FreshNumber(w.q, n)
    case Rename(src, dst, _, r) => CanReach(w.account, src, dst, r)
    case Remove(_, _) => true
    case Start(k) => w.q.current.None? && Find(w.q.items, k).Some? && Uploadable(Find(w.q.items, k).value)
    case Uploaded(r) => w.q.current.Some? && CanFollow(w, r)
    case FailedFor(_) => w.q.current.Some?
    case RefusedForGood => w.q.current.Some?
    case Restart(ns, committed) =>
      Crash.Listing(w.q.dir, ns) && Crash.Ascending(ns) && (committed ==> w.q.current.Some?)
  }

  ghost function Step(w: World, e: Event): World
    requires Enabled(w, e)
  {
    match e
    case Upload(n, p, bytes, mtimeMs, nameOk) => HandleUpload(w, n, p, bytes, mtimeMs, nameOk).0
    case Rename(src, dst, nameOk, r) => HandleRename(w, src, dst, nameOk, r).0
    case Remove(p, ok) => HandleRemove(w, p, ok).0
    case Start(k) => w.(q := Begin(w.q, Find(w.q.items, k).value))
    case Uploaded(r) => Commit(w, r)
    case FailedFor(now) => w.(q := Fail(w.q, now))
    case RefusedForGood => w.(q := End(w.q))
    case Restart(ns, committed) => Restarted(w, AccountLeft(w, committed), ns)
  }

  /** What renames do to the queue, whatever the account answers. */
  lemma StepQueue(w: World, src: Place, dst: Place, nameOk: bool, r: Reach)
    requires CanReach(w.account, src, dst, r)
    ensures Step(w, Rename(src, dst, nameOk, r)).q == RenamePending(w.q, src, dst)
  {
  }

  lemma RemoveQueue(w: World, p: Place, ok: bool)
    ensures Step(w, Remove(p, ok)).q == RemovePending(w.q, p)
  {
  }

  lemma RenameValidStep(w: World, src: Place, dst: Place, nameOk: bool, r: Reach)
    requires Valid(w.q) && CanReach(w.account, src, dst, r)
    ensures Valid(Step(w, Rename(src, dst, nameOk, r)).q)
  {
    StepQueue(w, src, dst, nameOk, r);
    RenameValid(w.q, src, dst);
  }

  lemma RemoveValidStep(w: World, p: Place, ok: bool)
    requires Valid(w.q)
    ensures Valid(Step(w, Remove(p, ok)).q)
  {
    RemoveQueue(w, p, ok);
    RemoveValid(w.q, p);
  }

  lemma StepValid(w: World, e: Event)
    requires Valid(w.q) && Enabled(w, e)
    ensures Valid(Step(w, e).q)
  {
    match e
    case Upload(n, p, bytes, mtimeMs, nameOk) => if nameOk { AddValid(w.q, n, p, bytes, mtimeMs); }
    case Rename(src, dst, nameOk, r) => RenameValidStep(w, src, dst, nameOk, r);
    case Remove(p, ok) => RemoveValidStep(w, p, ok);
    case Start(k) => StartValid(w.q, k);
    case Uploaded(_) => EndValid(w.q);
    case FailedFor(now) => FailValid(w.q, now);
    case RefusedForGood => EndValid(w.q);
    case Restart(ns, _) => Crash.RestoredValid(w.q.dir, ns);
  }

  lemma StartValid(q: Queue, k: nat)
    requires Valid(q) && Find(q.items, k).Some?
    ensures Valid(Begin(q, Find(q.items, k).value))
  {
    FindSpec(q.items, k);
    BeginValid(q, Find(q.items, k).value);
  }

  // ----- the plain file system of the same operations -----

  /** What the disk shows at a place once the copy in flight is gone: an older copy, or the account's file. */
  function Under(w: World, p: Place): Option<Bytes>
    requires w.q.current.Some?
  {
    match Newest(WithoutCopy(w.q.items, w.q.current.value.n), p)
    case Some(it) => Some(BytesOf(w.q, it))
    case None => Lookup(w.account, p)
  }

  function WithFile(m: Files, p: Place, b: Option<Bytes>): Files {
    if b.Some? then m[p := b.value] else m - {p}
  }

  /**
   Uploads and restarts do not show, requests not carried out change nothing, and a file refused for good falls back to
   the next older one. (`w` tells which file was refused.)
   */
  ghost function Plain(w: World, m: Files, e: Event): Files
    requires Valid(w.q) && Enabled(w, e)
  {
    match e
    case Upload(_, p, bytes, _, nameOk) => if nameOk then m[p := bytes] else m
    case Rename(src, dst, nameOk, r) => if Carried(w, src, nameOk, r) then Move(m, src, dst) else m
    case Remove(p, ok) => if ok || p !in w.account then m - {p} else m
    case RefusedForGood =>
      var it := InFlight(w.q);
      if it.trashed || Newest(w.q.items, it.at) != Some(it) then m else WithFile(m, it.at, Under(w, it.at))
    case _ => m
  }

  /** When a step shows as that of the plain file system. */
  ghost predicate StepRight(w: World, e: Event)
    requires Enabled(w, e)
  {
    match e
    case Rename(src, dst, nameOk, r) =>
      if Carried(w, src, nameOk, r) then RenameShowsRight(w, src, dst)
      else RefusedKeepsShown(w, src, dst, FailedAt(nameOk, r))
    case Remove(p, ok) => ok || p !in w.account || RemoveFailKeeps(w, p)
    case Uploaded(r) => CommitKeeps(w, r)
    case Restart(_, committed) => RestartKeeps(w, committed)
    case _ => true
  }

  /** A rename the account is not asked for is one it would carry out. */
  lemma CarriedWorld(w: World, src: Place, dst: Place, nameOk: bool, r: Reach)
    requires Valid(w.q) && Carried(w, src, nameOk, r)
    ensures HandleRename(w, src, dst, nameOk, r).0 == HandleRename(w, src, dst, true, Through).0
  {
    HitNewest(w.q.items, src);
  }

  lemma RenameExact(w: World, src: Place, dst: Place, nameOk: bool, r: Reach)
    requires Valid(w.q) && CanReach(w.account, src, dst, r)
    ensures var e := Rename(src, dst, nameOk, r);
            View(Step(w, e)) == Plain(w, View(w), e) <==> StepRight(w, e)
  {
    if Carried(w, src, nameOk, r) {
      CarriedWorld(w, src, dst, nameOk, r);
      RenameShows(w, src, dst);
    } else {
      RefusedRenameShows(w, src, dst, nameOk, r);
    }
  }

  lemma RemoveExact(w: World, p: Place, ok: bool)
    requires Valid(w.q)
    ensures View(Step(w, Remove(p, ok))) == Plain(w, View(w), Remove(p, ok)) <==> StepRight(w, Remove(p, ok))
  {
    if ok || p !in w.account {
      assert HandleRemove(w, p, ok).0 == HandleRemove(w, p, true).0;
      RemoveShows(w, p);
    } else {
      RemoveFailShows(w, p);
    }
  }

  lemma StartShows(w: World, k: nat)
    requires Valid(w.q) && Enabled(w, Start(k))
    ensures View(Step(w, Start(k))) == View(w)
  {
    var w' := Step(w, Start(k));
    ViewShowsAs(w);
    assert forall x :: Shown(w', x) == Shown(w, x);
    ViewIs(w', View(w));
  }

  lemma FailShows(w: World, now: int)
    requires w.q.current.Some?
    ensures View(w.(q := Fail(w.q, now))) == View(w)
  {
    var w' := w.(q := Fail(w.q, now));
    ViewShowsAs(w);
    forall x ensures Shown(w', x) == Lookup(View(w), x) {
      assert Shown(w, x) == Lookup(View(w), x);
      FailShowsAt(w, now, x);
    }
    ViewIs(w', View(w));
  }

  lemma FailShowsAt(w: World, now: int, x: Place)
    requires w.q.current.Some?
    ensures Shown(w.(q := Fail(w.q, now)), x) == Shown(w, x)
  {
    NewestFailed(w.q.items, w.q.current.value.n, now, x);
  }

  /** A copy refused for good: its place falls back, every other place stays. */
  lemma ForGoodShowsAt(w: World, x: Place)
    requires Valid(w.q) && w.q.current.Some?
    ensures var it := InFlight(w.q);
            Shown(w.(q := End(w.q)), x) ==
            if x == it.at && !it.trashed && Newest(w.q.items, it.at) == Some(it) then Under(w, x) else Shown(w, x)
  {
    var it := InFlight(w.q);
    EndFacts(w, x);
    if Newest(w.q.items, x) == Some(it) {
      NewestIsThere(w.q.items, it, x);
    } else {
      NotNewest(w.q.items, it, x);
    }
  }

  lemma RefusedShows(w: World)
    requires Valid(w.q) && w.q.current.Some?
    ensures View(w.(q := End(w.q))) == Plain(w, View(w), RefusedForGood)
  {
    var w', m := w.(q := End(w.q)), Plain(w, View(w), RefusedForGood);
    forall x ensures Shown(w', x) == Lookup(m, x) {
      ForGoodShowsLike(w, x);
    }
    ViewIs(w', m);
  }

  lemma ForGoodShowsLike(w: World, x: Place)
    requires Valid(w.q) && w.q.current.Some?
    ensures Shown(w.(q := End(w.q)), x) == Lookup(Plain(w, View(w), RefusedForGood), x)
  {
    ViewShows(w, x);
    ForGoodShowsAt(w, x);
  }

  /** One event shows as the plain file system's exactly when it is right. */
  lemma StepExact(w: World, e: Event)
    requires Valid(w.q) && Enabled(w, e)
    ensures View(Step(w, e)) == Plain(w, View(w), e) <==> StepRight(w, e)
  {
    match e
    case Upload(n, p, bytes, mtimeMs, nameOk) => UploadShows(w, n, p, bytes, mtimeMs, nameOk);
    case Rename(src, dst, nameOk, r) => RenameExact(w, src, dst, nameOk, r);
    case Remove(p, ok) => RemoveExact(w, p, ok);
    case Start(k) => StartShows(w, k);
    case Uploaded(r) => CommitShows(w, r);
    case FailedFor(now) => FailShows(w, now);
    case RefusedForGood => RefusedShows(w);
    case Restart(ns, committed) => KilledShowsIff(w, committed, ns);
  }

  // ----- runs -----

  ghost predicate Possible(w: World, es: seq<Event>)
    decreases |es|
  {
    |es| > 0 ==> Enabled(w, es[0]) && Possible(Step(w, es[0]), es[1..])
  }

  ghost function Run(w: World, es: seq<Event>): World
    requires Possible(w, es)
    decreases |es|
  {
    if |es| == 0 then w else Run(Step(w, es[0]), es[1..])
  }

  /** The plain file system after the same run. */
  ghost function PlainRun(w: World, m: Files, es: seq<Event>): Files
    requires Valid(w.q) && Possible(w, es)
    decreases |es|
  {
    if |es| == 0 then m
    else
      StepValid(w, es[0]);
      PlainRun(Step(w, es[0]), Plain(w, m, es[0]), es[1..])
  }

  /** The disk shows the plain file system now and after each event. */
  ghost predicate ShowsPlain(w: World, m: Files, es: seq<Event>)
    requires Valid(w.q) && Possible(w, es)
    decreases |es|
  {
    && View(w) == m
    && (|es| > 0 ==>
          (StepValid(w, es[0]);
           ShowsPlain(Step(w, es[0]), Plain(w, m, es[0]), es[1..])))
  }

  ghost predicate StepsRight(w: World, es: seq<Event>)
    requires Possible(w, es)
    decreases |es|
  {
    |es| > 0 ==> StepRight(w, es[0]) && StepsRight(Step(w, es[0]), es[1..])
  }

  lemma ShowsNow(w: World, m: Files, es: seq<Event>)
    requires Valid(w.q) && Possible(w, es) && ShowsPlain(w, m, es)
    ensures View(w) == m
  {
  }

  /**
   In every run, with no condition on it, the disk shows the plain file system after each event exactly when every
   rename, every removal the account fails, every end of an upload and every restart is right.
   */
  lemma {:induction false} ShowsPlainIff(w: World, es: seq<Event>)
    requires Valid(w.q) && Possible(w, es)
    ensures ShowsPlain(w, View(w), es) <==> StepsRight(w, es)
    decreases |es|
  {
    if |es| > 0 {
      var w', m' := Step(w, es[0]), Plain(w, View(w), es[0]);
      StepValid(w, es[0]);
      StepExact(w, es[0]);
      ShowsPlainIff(w', es[1..]);
      if ShowsPlain(w', m', es[1..]) { ShowsNow(w', m', es[1..]); }
    }
  }

  lemma {:induction false} ShowsPlainAtEnd(w: World, m: Files, es: seq<Event>)
    requires Valid(w.q) && Possible(w, es) && ShowsPlain(w, m, es)
    ensures View(Run(w, es)) == PlainRun(w, m, es)
    decreases |es|
  {
    if |es| > 0 {
      StepValid(w, es[0]);
      ShowsPlainAtEnd(Step(w, es[0]), Plain(w, m, es[0]), es[1..]);
    }
  }

  /** Once the queue is empty after such a run, the account itself holds what the plain file system does. */
  lemma EmptyQueueMeansAllUploaded(w: World, es: seq<Event>)
    requires Valid(w.q) && Possible(w, es) && StepsRight(w, es) && |Run(w, es).q.items| == 0
    ensures Run(w, es).account == PlainRun(w, View(w), es)
  {
    ShowsPlainIff(w, es);
    ShowsPlainAtEnd(w, View(w), es);
    ViewIs(Run(w, es), Run(w, es).account);
  }
}
