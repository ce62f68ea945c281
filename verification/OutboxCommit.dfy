/**
 The end of an upload: the account has the bytes where the upload was aimed at, then follows what happened to the copy
 meanwhile (removed: removed, renamed: renamed). The follow-up may fail, at any point; its error is only logged. What
 shows changes exactly when something under the copy comes to light or something of the upload stays in sight.
 */
module OutboxCommit {
  import opened Basics
  import opened OutboxState
  import opened OutboxFacts
  import opened OutboxValid
  import opened OutboxOverlay

  /** The copy in flight left the place its upload was aimed at. */
  predicate Strayed(it: Item, f: Flight) {
    it.trashed || it.at != f.at
  }

  /** The account with the file uploaded, before the follow-up. */
  function Committed(w: World): Files
    requires w.q.current.Some?
  {
    var f := w.q.current.value;
    w.account[f.at := if f.n in w.q.dir.copies then w.q.dir.copies[f.n] else []]
  }

  /** How far a follow-up can get: nothing to do, a removal done or not, or a rename. */
  predicate CanFollow(w: World, r: Reach)
    requires w.q.current.Some?
  {
    var f := w.q.current.value;
    match Find(w.q.items, f.n)
    case None => r.Through?
    case Some(it) =>
      if it.trashed then r.Through? || r.Nowhere?
      else if it.at != f.at then CanReach(Committed(w), f.at, it.at, r)
      else r.Through?
  }

  function Followed(w: World, r: Reach): Files
    requires w.q.current.Some?
  {
    var f, a := w.q.current.value, Committed(w);
    match Find(w.q.items, f.n)
    case None => a
    case Some(it) =>
      if it.trashed then if r.Through? then a - {f.at} else a
      else MoveReaching(a, f.at, it.at, r)
  }

  /** The upload ended well. The queue's step, the account's and the follow-up are one here. */
  function Commit(w: World, r: Reach): World
    requires w.q.current.Some?
  {
    World(End(w.q), Followed(w, r))
  }

  // ----- place by place, whatever the account is afterwards -----

  lemma EndFacts(w: World, x: Place)
    requires Valid(w.q) && w.q.current.Some?
    ensures End(w.q).items == WithoutCopy(w.q.items, w.q.current.value.n)
    ensures var r := Newest(WithoutCopy(w.q.items, w.q.current.value.n), x);
            r.Some? ==> BytesOf(End(w.q), r.value) == BytesOf(w.q, r.value)
  {
    var n := w.q.current.value.n;
    DropCallsEffect(w.q.dir, n);
    NewestNotN(w.q.items, n, x);
  }

  lemma NewestNotN(items: seq<Item>, n: nat, x: Place)
    requires Sorted(items)
    ensures var r := Newest(WithoutCopy(items, n), x);
            r.Some? ==> r.value in items && r.value.n != n && Hit(r.value, x)
  {
    WithoutCopyMembers(items, n);
    NewestSpec(WithoutCopy(items, n), x);
  }

  /** A copy that is not the newest of a place goes unseen there. */
  lemma NotNewest(items: seq<Item>, it: Item, x: Place)
    requires Sorted(items) && it in items && Newest(items, x) != Some(it)
    ensures Newest(WithoutCopy(items, it.n), x) == Newest(items, x)
  {
    NewestSpec(items, x);
    if Newest(items, x).Some? && Newest(items, x).value.n == it.n {
      SortedUnique(items, Newest(items, x).value, it);
    }
    NewestWithoutCopy(items, it.n, x);
  }

  /**
   Where the copy shows, what lies under it has its bytes; elsewhere a queued copy covers the account, or it is as it
   was.
   */
  ghost predicate KeepsAt(w: World, account: Files, x: Place)
    requires Valid(w.q) && w.q.current.Some?
  {
    var it := InFlight(w.q);
    if Newest(w.q.items, x) == Some(it) then
      match Newest(WithoutCopy(w.q.items, it.n), x)
      case Some(o) => BytesOf(w.q, o) == BytesOf(w.q, it)
      case None => Lookup(account, x) == Some(BytesOf(w.q, it))
    else Newest(w.q.items, x).Some? || Lookup(account, x) == Lookup(w.account, x)
  }

  lemma EndKeepsAt(w: World, account: Files, x: Place)
    requires Valid(w.q) && w.q.current.Some?
    ensures Shown(World(End(w.q), account), x) == Shown(w, x) <==> KeepsAt(w, account, x)
  {
    var it := InFlight(w.q);
    EndFacts(w, x);
    if Newest(w.q.items, x) != Some(it) {
      NotNewest(w.q.items, it, x);
    }
  }

  lemma EndKeeps(w: World, account: Files)
    requires Valid(w.q) && w.q.current.Some?
    ensures View(World(End(w.q), account)) == View(w) <==> forall x :: KeepsAt(w, account, x)
  {
    var w' := World(End(w.q), account);
    forall x ensures KeepsAt(w, account, x) <==> Lookup(View(w'), x) == Lookup(View(w), x) {
      ViewShows(w, x);
      ViewShows(w', x);
      EndKeepsAt(w, account, x);
    }
    if forall x :: KeepsAt(w, account, x) {
      SameFiles(View(w'), View(w));
    }
  }

  // ----- the exact condition -----

  /**
   At the place the upload was aimed at, once the copy strayed: the account's file there, if in sight, is as it was.
   */
  predicate TargetKept(w: World, it: Item, r: Reach)
    requires w.q.current.Some?
  {
    var f := w.q.current.value;
    Strayed(it, f) && Newest(WithoutCopy(w.q.items, f.n), f.at).None? ==>
      Lookup(w.account, f.at) == if r.Nowhere? || r.Cleared? then Some(BytesOf(w.q, it)) else None
  }

  /** At the place of the copy, if it shows: what lies under it has its bytes, in the queue or else in the account. */
  predicate CopyKept(w: World, it: Item, r: Reach)
    requires w.q.current.Some?
  {
    !it.trashed && Newest(w.q.items, it.at) == Some(it) ==>
      match Newest(WithoutCopy(w.q.items, it.n), it.at)
      case Some(older) => BytesOf(w.q, older) == BytesOf(w.q, it)
      case None =>
        || it.at == w.q.current.value.at
        || r.Through?
        || (r.Nowhere? && Lookup(w.account, it.at) == Some(BytesOf(w.q, it)))
        || (r.MovedAs? && r.name == it.at.name)
  }

  /** At the name a rename left the file under half way: a queued copy covers it. */
  predicate HalfwayKept(w: World, it: Item, r: Reach)
    requires w.q.current.Some?
  {
    !it.trashed && it.at != w.q.current.value.at && r.MovedAs? ==> Newest(w.q.items, Place(it.at.dir, r.name)).Some?
  }

  /** When the end of an upload shows nothing new. */
  predicate CommitKeeps(w: World, r: Reach)
    requires w.q.current.Some?
  {
    match Find(w.q.items, w.q.current.value.n)
    case None => false
    case Some(it) => TargetKept(w, it, r) && CopyKept(w, it, r) && HalfwayKept(w, it, r)
  }

  lemma NewestIsThere(items: seq<Item>, it: Item, x: Place)
    requires Sorted(items) && Newest(items, x) == Some(it)
    ensures it.at == x && !it.trashed
  {
    NewestSpec(items, x);
  }

  lemma ShowsSomething(items: seq<Item>, it: Item)
    requires Sorted(items) && it in items && !it.trashed
    ensures Newest(items, it.at).Some?
  {
    NewestSpec(items, it.at);
  }

  lemma KeepsAtTarget(w: World, r: Reach)
    requires Valid(w.q) && w.q.current.Some? && CanFollow(w, r) && Strayed(InFlight(w.q), w.q.current.value)
    ensures KeepsAt(w, Followed(w, r), w.q.current.value.at) <==> TargetKept(w, InFlight(w.q), r)
  {
    var f, it := w.q.current.value, InFlight(w.q);
    if Newest(w.q.items, f.at) == Some(it) { NewestIsThere(w.q.items, it, f.at); }
    NotNewest(w.q.items, it, f.at);
  }

  lemma KeepsAtCopy(w: World, r: Reach)
    requires Valid(w.q) && w.q.current.Some? && CanFollow(w, r) && !InFlight(w.q).trashed
    ensures KeepsAt(w, Followed(w, r), InFlight(w.q).at) <==> CopyKept(w, InFlight(w.q), r)
  {
    ShowsSomething(w.q.items, InFlight(w.q));
  }

  lemma KeepsAtHalfway(w: World, r: Reach)
    requires Valid(w.q) && w.q.current.Some? && CanFollow(w, r)
    requires !InFlight(w.q).trashed && InFlight(w.q).at != w.q.current.value.at
    requires r.MovedAs? && r.name != InFlight(w.q).at.name
    ensures KeepsAt(w, Followed(w, r), Place(InFlight(w.q).at.dir, r.name)) <==> HalfwayKept(w, InFlight(w.q), r)
  {
    var it := InFlight(w.q);
    var x := Place(it.at.dir, r.name);
    if Newest(w.q.items, x) == Some(it) { NewestIsThere(w.q.items, it, x); }
  }

  lemma KeepsElsewhere(w: World, r: Reach, x: Place)
    requires Valid(w.q) && w.q.current.Some? && CanFollow(w, r)
    requires Strayed(InFlight(w.q), w.q.current.value) ==> x != w.q.current.value.at
    requires !InFlight(w.q).trashed ==> x != InFlight(w.q).at
    requires !InFlight(w.q).trashed && r.MovedAs? ==> x != Place(InFlight(w.q).at.dir, r.name)
    ensures KeepsAt(w, Followed(w, r), x)
  {
    var it := InFlight(w.q);
    if Newest(w.q.items, x) == Some(it) { NewestIsThere(w.q.items, it, x); }
  }

  /** The end of an upload, with a follow-up that gets as far as it may, shows nothing new exactly then. */
  lemma CommitShows(w: World, r: Reach)
    requires Valid(w.q) && w.q.current.Some? && CanFollow(w, r)
    ensures View(Commit(w, r)) == View(w) <==> CommitKeeps(w, r)
  {
    EndKeeps(w, Followed(w, r));
    if CommitKeeps(w, r) {
      forall x ensures KeepsAt(w, Followed(w, r), x) {
        KeptThen(w, r, x);
      }
    } else {
      LostThen(w, r);
    }
  }

  lemma KeptThen(w: World, r: Reach, x: Place)
    requires Valid(w.q) && w.q.current.Some? && CanFollow(w, r) && CommitKeeps(w, r)
    ensures KeepsAt(w, Followed(w, r), x)
  {
    var f, it := w.q.current.value, InFlight(w.q);
    if Strayed(it, f) && x == f.at {
      KeepsAtTarget(w, r);
    } else if !it.trashed && x == it.at {
      KeepsAtCopy(w, r);
    } else if !it.trashed && it.at != f.at && r.MovedAs? && x == Place(it.at.dir, r.name) {
      KeepsAtHalfway(w, r);
    } else {
      KeepsElsewhere(w, r, x);
    }
  }

  lemma LostThen(w: World, r: Reach)
    requires Valid(w.q) && w.q.current.Some? && CanFollow(w, r) && !CommitKeeps(w, r)
    ensures exists x :: !KeepsAt(w, Followed(w, r), x)
  {
    var f, it := w.q.current.value, InFlight(w.q);
    if !TargetKept(w, it, r) {
      KeepsAtTarget(w, r);
    } else if !CopyKept(w, it, r) {
      KeepsAtCopy(w, r);
    } else {
      if r.name == it.at.name { ShowsSomething(w.q.items, it); }
      KeepsAtHalfway(w, r);
    }
  }
}
