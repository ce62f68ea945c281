/**
 The queue laid over the account's listing behaves like one plain file system. A file written, renamed or
 removed on the disk changes what the disk shows at once, although the account follows only with the uploads.
 */
module OutboxOverlay {
  import opened Basics
  import opened OutboxState
  import opened OutboxFacts
  import opened OutboxValid

  type Files = map<Place, Bytes>

  /** The queue and the account under it. */
  datatype World = World(q: Queue, account: Files)

  // ----- the plain file system -----

  function Lookup(m: Files, p: Place): Option<Bytes> {
    if p in m then Some(m[p]) else None
  }

  /** A file moved, replacing what was there (`vdiskRename` trashes the target first). */
  function Move(m: Files, src: Place, dst: Place): Files {
    if src in m then (m - {src})[dst := m[src]] else m
  }

  // ----- what the disk shows -----

  function BytesOf(q: Queue, it: Item): Bytes {
    if it.n in q.dir.copies then q.dir.copies[it.n] else []
  }

  /** The newest queued copy of a place, over the account's file. */
  function Shown(w: World, p: Place): Option<Bytes> {
    match Newest(w.q.items, p)
    case Some(it) => Some(BytesOf(w.q, it))
    case None => Lookup(w.account, p)
  }

  function Places(items: seq<Item>): set<Place> {
    set i | 0 <= i < |items| :: items[i].at
  }

  function View(w: World): Files {
    map p | p in w.account.Keys + Places(w.q.items) && Shown(w, p).Some? :: Shown(w, p).value
  }

  lemma {:induction false} NewestInPlaces(items: seq<Item>, p: Place)
    requires Newest(items, p).Some?
    ensures p in Places(items)
  {
    var init, last := items[..|items| - 1], items[|items| - 1];
    if !(last.at == p && !last.trashed) {
      NewestInPlaces(init, p);
      var i :| 0 <= i < |init| && init[i].at == p;
      assert items[i].at == p;
    }
  }

  lemma ViewShows(w: World, p: Place)
    ensures Lookup(View(w), p) == Shown(w, p)
  {
    if Newest(w.q.items, p).Some? {
      NewestInPlaces(w.q.items, p);
    }
  }

  /** Two maps with the same lookups are the same. */
  lemma SameFiles(a: Files, b: Files)
    requires forall p :: Lookup(a, p) == Lookup(b, p)
    ensures a == b
  {
    forall p ensures (p in a <==> p in b) && (p in a ==> a[p] == b[p]) {
      assert Lookup(a, p) == Lookup(b, p);
    }
  }

  // ----- the requests of the disk (vdisk.ts `handle`) -----

  datatype Answer = Done | Refused(code: string)

  /**
   How far a rename in the account gets: it fails at once, after the file of the new name was trashed, after the file
   was moved too (under a name free in the new folder), or not at all.
   */
  datatype Reach = Nowhere | Cleared | MovedAs(name: string) | Through

  function MoveReaching(m: Files, src: Place, dst: Place, r: Reach): Files {
    if src !in m || src == dst then m
    else
      match r
      case Nowhere => m
      case Cleared => m - {dst}
      case MovedAs(name) => (m - {dst} - {src})[Place(dst.dir, name) := m[src]]
      case Through => Move(m, src, dst)
  }

  /** A file is moved only to another folder, and there to no name taken. */
  predicate CanReach(m: Files, src: Place, dst: Place, r: Reach) {
    r.MovedAs? ==> src.dir != dst.dir && (r.name == dst.name || Place(dst.dir, r.name) !in m)
  }

  function AccountRename(w: World, src: Place, dst: Place, nameOk: bool, r: Reach): (World, Answer) {
    if src !in w.account then (w, Refused("ENOENT"))
    else if !nameOk then (w, Refused("EINVAL"))
    else
      var answer := if r.Through? || src == dst then Done else Refused("EIO");
      (w.(account := MoveReaching(w.account, src, dst, r)), answer)
  }

  /** `nameOk`: the account takes the new name. */
  function HandleRename(w: World, src: Place, dst: Place, nameOk: bool, r: Reach): (World, Answer) {
    var hit := AnyHit(w.q.items, src);
    var w1 := w.(q := RenamePending(w.q, src, dst));
    if hit && !nameOk then (w1, Refused("EINVAL"))
    else if hit && src !in w.account then (w1, Done)
    else AccountRename(w1, src, dst, nameOk, r)
  }

  /** `ok`: the account could trash the file. */
  function HandleRemove(w: World, p: Place, ok: bool): (World, Answer) {
    var hit := AnyHit(w.q.items, p);
    var w1 := w.(q := RemovePending(w.q, p));
    if p in w.account then
      if ok then (w1.(account := w.account - {p}), Done) else (w1, Refused("EIO"))
    else if hit then (w1, Done)
    else (w1, Refused("ENOENT"))
  }

  function HandleUpload(w: World, n: nat, p: Place, bytes: Bytes, mtimeMs: real, nameOk: bool): (World, Answer) {
    if nameOk then (w.(q := Add(w.q, n, p, bytes, mtimeMs)), Done) else (w, Refused("EINVAL"))
  }

  // ----- the newest copy of a place after each operation -----

  lemma {:induction false} NewestWithoutReplaced(items: seq<Item>, p: Place, cur: Option<nat>, x: Place)
    requires x != p
    ensures Newest(WithoutReplaced(items, p, cur), x) == Newest(items, x)
  {
    if |items| > 0 {
      var init, last := items[..|items| - 1], items[|items| - 1];
      NewestWithoutReplaced(init, p, cur, x);
      var kept := WithoutReplaced(init, p, cur);
      assert (kept + [last])[..|kept|] == kept;
      assert kept + [] == kept;
    }
  }

  lemma {:induction false} NewestRemoved(items: seq<Item>, p: Place, cur: Option<nat>, x: Place)
    ensures Newest(RemovedItems(items, p, cur), x) == if x == p then None else Newest(items, x)
  {
    if |items| > 0 {
      var init, last := items[..|items| - 1], items[|items| - 1];
      NewestRemoved(init, p, cur, x);
      var left := RemovedItems(init, p, cur);
      assert (left + [last])[..|left|] == left;
      assert (left + [last.(trashed := true)])[..|left|] == left;
      assert left + [] == left;
    }
  }

  /** The later of two copies. */
  function Later(a: Option<Item>, b: Option<Item>): Option<Item> {
    if a.None? then b else if b.None? then a else if a.value.n > b.value.n then a else b
  }

  function MovedNewest(it: Option<Item>, dst: Place): Option<Item> {
    if it.Some? then Some(it.value.(at := dst)) else None
  }

  lemma {:induction false} NewestMoved(items: seq<Item>, src: Place, dst: Place, x: Place)
    requires Sorted(items) && src != dst
    ensures Newest(MovedItems(items, src, dst), x) ==
            if x == src then None
            else if x == dst then Later(MovedNewest(Newest(items, src), dst), Newest(items, dst))
            else Newest(items, x)
  {
    if |items| > 0 {
      var init, last := items[..|items| - 1], items[|items| - 1];
      SortedInit(items);
      NewestMoved(init, src, dst, x);
      NewestSpec(init, src);
      NewestSpec(init, dst);
      assert MovedItems(items, src, dst)[..|init|] == MovedItems(init, src, dst);
    }
  }

  lemma {:induction false} NewestWithoutCopy(items: seq<Item>, n: nat, x: Place)
    requires Newest(items, x).Some? ==> Newest(items, x).value.n != n
    ensures Newest(WithoutCopy(items, n), x) == Newest(items, x)
  {
    if |items| > 0 {
      var init, last := items[..|items| - 1], items[|items| - 1];
      var left := WithoutCopy(init, n);
      assert (left + [last])[..|left|] == left;
      assert left + [] == left;
      if !(last.at == x && !last.trashed) {
        NewestWithoutCopy(init, n, x);
      }
    }
  }

  lemma {:induction false} NewestFailed(items: seq<Item>, n: nat, now: int, x: Place)
    ensures var m := Newest(items, x);
            Newest(FailedItems(items, n, now), x) == if m.Some? then Some(FailedItem(m.value, n, now)) else None
  {
    if |items| > 0 {
      var init, last := items[..|items| - 1], items[|items| - 1];
      NewestFailed(init, n, now, x);
      assert FailedItems(items, n, now)[..|init|] == FailedItems(init, n, now);
    }
  }

  lemma HitNewest(items: seq<Item>, p: Place)
    requires Sorted(items)
    ensures AnyHit(items, p) <==> Newest(items, p).Some?
  {
    NewestSpec(items, p);
    if AnyHit(items, p) {
      var i :| 0 <= i < |items| && Hit(items[i], p);
      assert items[i] in items;
    }
  }

  // ----- what one request does to what is shown -----

  /** The disk shows the files of `m`. */
  ghost predicate ShowsAs(w: World, m: Files) {
    forall p :: Shown(w, p) == Lookup(m, p)
  }

  lemma ViewShowsAs(w: World)
    ensures ShowsAs(w, View(w))
  {
    forall p ensures Shown(w, p) == Lookup(View(w), p) {
      ViewShows(w, p);
    }
  }

  lemma ViewIs(w: World, m: Files)
    requires ShowsAs(w, m)
    ensures View(w) == m
  {
    forall p ensures Lookup(View(w), p) == Lookup(m, p) {
      ViewShows(w, p);
    }
    SameFiles(View(w), m);
  }

  lemma UploadShowsAt(w: World, n: nat, p: Place, bytes: Bytes, mtimeMs: real, x: Place)
    requires Valid(w.q) && FreshNumber(w.q, n)
    ensures Shown(w.(q := Add(w.q, n, p, bytes, mtimeMs)), x) == if x == p then Some(bytes) else Shown(w, x)
  {
    AddCallsEffect(w.q, n, p, bytes, mtimeMs);
    var q' := Add(w.q, n, p, bytes, mtimeMs);
    var kept := WithoutReplaced(w.q.items, p, Sending(w.q));
    assert q'.items[..|kept|] == kept;
    if x != p {
      NewestWithoutReplaced(w.q.items, p, Sending(w.q), x);
      NewestSpec(w.q.items, x);
      if Newest(w.q.items, x).Some? {
        KeptIsNotReplaced(w.q, Newest(w.q.items, x).value, p);
      }
    }
  }

  /** A file written and closed shows at once; a refused name changes nothing. */
  lemma UploadShows(w: World, n: nat, p: Place, bytes: Bytes, mtimeMs: real, nameOk: bool)
    requires Valid(w.q) && FreshNumber(w.q, n)
    ensures View(HandleUpload(w, n, p, bytes, mtimeMs, nameOk).0) == if nameOk then View(w)[p := bytes] else View(w)
  {
    if nameOk {
      var w' := w.(q := Add(w.q, n, p, bytes, mtimeMs));
      forall x ensures Shown(w', x) == Lookup(View(w)[p := bytes], x) {
        ViewShows(w, x);
        UploadShowsAt(w, n, p, bytes, mtimeMs, x);
      }
      ViewIs(w', View(w)[p := bytes]);
    }
  }

  /** What shows at a place after the queue's part of a removal, over whatever account. */
  lemma RemovePendingShowsAt(w: World, p: Place, account: Files, x: Place)
    requires Valid(w.q)
    ensures Shown(World(RemovePending(w.q, p), account), x) ==
            if x != p && Newest(w.q.items, x).Some? then Shown(w, x) else Lookup(account, x)
  {
    NewestRemoved(w.q.items, p, Sending(w.q), x);
    if x != p && Newest(w.q.items, x).Some? {
      NewestStays(w.q, p, x);
    }
  }

  lemma NewestStays(q: Queue, p: Place, x: Place)
    requires Valid(q) && x != p && Newest(q.items, x).Some?
    ensures var it := Newest(q.items, x).value; BytesOf(RemovePending(q, p), it) == BytesOf(q, it)
  {
    NewestSpec(q.items, x);
    RemoveCallsEffect(q.dir, q.items, p, Sending(q));
    StaysStored(q, p, Newest(q.items, x).value);
  }

  /** A file removed is gone at once, whether it is queued, being uploaded or in the account only. */
  lemma RemoveShows(w: World, p: Place)
    requires Valid(w.q)
    ensures View(HandleRemove(w, p, true).0) == View(w) - {p}
    ensures HandleRemove(w, p, true).1.Done? <==> p in View(w)
  {
    RemovedWorld(w, p);
    var m, w' := View(w), World(RemovePending(w.q, p), w.account - {p});
    forall x ensures Shown(w', x) == Lookup(m - {p}, x) {
      ViewShows(w, x);
      RemovePendingShowsAt(w, p, w.account - {p}, x);
    }
    ViewIs(w', m - {p});
  }

  lemma RemovedWorld(w: World, p: Place)
    requires Valid(w.q)
    ensures HandleRemove(w, p, true).0 == World(RemovePending(w.q, p), w.account - {p})
    ensures HandleRemove(w, p, true).1.Done? <==> p in View(w)
  {
    HitNewest(w.q.items, p);
    ViewShows(w, p);
    assert p !in w.account ==> w.account - {p} == w.account;
  }

  /** Nothing queued has the name, or the account shows there what the queue did. */
  predicate RemoveFailKeeps(w: World, p: Place) {
    Newest(w.q.items, p).None? || Lookup(w.account, p) == Shown(w, p)
  }

  /**
   A removal the account fails leaves what shows alone exactly then: the queued copies are dropped before it is asked.
   */
  lemma RemoveFailShows(w: World, p: Place)
    requires Valid(w.q) && p in w.account
    ensures View(HandleRemove(w, p, false).0) == View(w) <==> RemoveFailKeeps(w, p)
    ensures HandleRemove(w, p, false).1.Refused?
  {
    var w' := w.(q := RemovePending(w.q, p));
    ViewShowsAs(w);
    ViewShowsAs(w');
    RemovePendingShowsAt(w, p, w.account, p);
    assert Shown(w, p) == Lookup(View(w), p) && Shown(w', p) == Lookup(View(w'), p);
    if RemoveFailKeeps(w, p) {
      forall x ensures Shown(w', x) == Lookup(View(w), x) {
        assert Shown(w, x) == Lookup(View(w), x);
        RemovePendingShowsAt(w, p, w.account, x);
      }
      ViewIs(w', View(w));
    }
  }

  /** No queued copy of the new name is younger than what is renamed onto it, unless it has the same bytes. */
  predicate RenameShowsRight(w: World, src: Place, dst: Place) {
    var s, d := Newest(w.q.items, src), Newest(w.q.items, dst);
    || src == dst
    || Shown(w, src).None?
    || d.None?
    || (s.Some? && s.value.n > d.value.n)
    || Shown(w, src) == Shown(w, dst)
  }

  /** What shows at a place after the queue's part of a rename, over whatever account. */
  lemma RenamePendingShowsAt(w: World, src: Place, dst: Place, account: Files, x: Place)
    requires Valid(w.q) && src != dst
    ensures var s, d := Newest(w.q.items, src), Newest(w.q.items, dst);
            Shown(World(RenamePending(w.q, src, dst), account), x) ==
            if x == src then Lookup(account, src)
            else if x == dst && s.Some? && (d.None? || s.value.n > d.value.n) then Shown(w, src)
            else if Newest(w.q.items, x).Some? then Shown(w, x)
            else Lookup(account, x)
  {
    NewestMoved(w.q.items, src, dst, x);
    RenameKeepsBytes(w.q, src, dst);
    if x == dst {
      NewestPlace(w.q.items, src);
      NewestPlace(w.q.items, dst);
      if Newest(w.q.items, src).Some? && Newest(w.q.items, dst).Some? {
        NewestDiffer(w.q.items, src, dst);
      }
    }
  }

  /** ... and the account's part. */
  lemma RenameShowsAt(w: World, src: Place, dst: Place, x: Place)
    requires Valid(w.q) && src != dst
    ensures var s, d := Newest(w.q.items, src), Newest(w.q.items, dst);
            Shown(World(RenamePending(w.q, src, dst), Move(w.account, src, dst)), x) ==
            if x == src then None
            else if x == dst then
              if d.Some? && (s.None? || s.value.n < d.value.n) then Shown(w, dst)
              else if Shown(w, src).Some? then Shown(w, src)
              else Shown(w, dst)
            else Shown(w, x)
  {
    RenamePendingShowsAt(w, src, dst, Move(w.account, src, dst), x);
    MoveAt(w.account, src, dst, x);
    if Newest(w.q.items, src).Some? && Newest(w.q.items, dst).Some? {
      NewestDiffer(w.q.items, src, dst);
    }
  }

  lemma NewestPlace(items: seq<Item>, p: Place)
    requires Sorted(items)
    ensures Newest(items, p).Some? ==> Hit(Newest(items, p).value, p)
  {
    NewestSpec(items, p);
  }

  /** Two places do not show the same copy. */
  lemma NewestDiffer(items: seq<Item>, a: Place, b: Place)
    requires Sorted(items) && a != b && Newest(items, a).Some? && Newest(items, b).Some?
    ensures Newest(items, a).value.n != Newest(items, b).value.n
  {
    NewestSpec(items, a);
    NewestSpec(items, b);
    if Newest(items, a).value.n == Newest(items, b).value.n {
      SortedUnique(items, Newest(items, a).value, Newest(items, b).value);
    }
  }

  lemma RenameKeepsBytes(q: Queue, src: Place, dst: Place)
    ensures RenamePending(q, src, dst).dir.copies == q.dir.copies
  {
    MoveCallsCopies(q.dir, q.items, src, dst);
  }

  lemma RenamedWorld(w: World, src: Place, dst: Place)
    requires Valid(w.q)
    ensures HandleRename(w, src, dst, true, Through).0 == World(RenamePending(w.q, src, dst), Move(w.account, src, dst))
    ensures HandleRename(w, src, dst, true, Through).1.Done? <==> Shown(w, src).Some?
  {
    HitNewest(w.q.items, src);
    if src == dst && src in w.account { RenameSame(w, src); }
  }

  /** A rename the account's names allow shows as a plain rename exactly when no younger copy covers the new name. */
  lemma RenameShows(w: World, src: Place, dst: Place)
    requires Valid(w.q)
    ensures View(HandleRename(w, src, dst, true, Through).0) == Move(View(w), src, dst) <==>
            RenameShowsRight(w, src, dst)
    ensures HandleRename(w, src, dst, true, Through).1.Done? <==> src in View(w)
  {
    RenamedWorld(w, src, dst);
    var w' := World(RenamePending(w.q, src, dst), Move(w.account, src, dst));
    ViewShowsAs(w);
    ViewShowsAs(w');
    RenameShowsAs(w, View(w), src, dst);
    if ShowsAs(w', Move(View(w), src, dst)) {
      ViewIs(w', Move(View(w), src, dst));
    }
    assert src in View(w) <==> Shown(w, src).Some? by { ViewShows(w, src); }
  }

  lemma RenameShowsAs(w: World, m: Files, src: Place, dst: Place)
    requires Valid(w.q) && ShowsAs(w, m)
    ensures ShowsAs(World(RenamePending(w.q, src, dst), Move(w.account, src, dst)), Move(m, src, dst)) <==>
            RenameShowsRight(w, src, dst)
  {
    var w' := World(RenamePending(w.q, src, dst), Move(w.account, src, dst));
    if src == dst {
      SameNameShowsAs(w, m, src);
    } else {
      forall x ensures x != dst || RenameShowsRight(w, src, dst) ==> Shown(w', x) == Lookup(Move(m, src, dst), x) {
        RenameShowsLike(w, m, src, dst, x);
      }
      if !RenameShowsRight(w, src, dst) {
        RenameShowsLike(w, m, src, dst, dst);
        assert Shown(w', dst) != Lookup(Move(m, src, dst), dst);
      }
    }
  }

  lemma SameNameShowsAs(w: World, m: Files, p: Place)
    requires Valid(w.q) && ShowsAs(w, m)
    ensures ShowsAs(World(RenamePending(w.q, p, p), Move(w.account, p, p)), Move(m, p, p))
    ensures ShowsAs(w.(q := RenamePending(w.q, p, p)), m)
  {
    RenameSame(w, p);
    assert Move(m, p, p) == m;
  }

  /** At one place: as the plain rename, except that a younger copy with other bytes may cover the new name. */
  lemma RenameShowsLike(w: World, m: Files, src: Place, dst: Place, x: Place)
    requires Valid(w.q) && ShowsAs(w, m) && src != dst
    ensures Shown(World(RenamePending(w.q, src, dst), Move(w.account, src, dst)), x) ==
            Lookup(Move(m, src, dst), x) <==>
            x != dst || RenameShowsRight(w, src, dst)
  {
    var s0, x0 := Shown(w, src), Shown(w, x);
    assert x0 == Lookup(m, x) && s0 == Lookup(m, src);
    MoveAt(m, src, dst, x);
    RenameShowsAt(w, src, dst, x);
  }

  lemma MoveAt(m: Files, src: Place, dst: Place, x: Place)
    requires src != dst
    ensures Lookup(Move(m, src, dst), x) ==
            if Lookup(m, src).None? then Lookup(m, x)
            else if x == dst then Lookup(m, src)
            else if x == src then None
            else Lookup(m, x)
  {
  }

  lemma RenameSame(w: World, p: Place)
    requires Valid(w.q)
    ensures RenamePending(w.q, p, p).items == w.q.items
    ensures RenamePending(w.q, p, p).dir.copies == w.q.dir.copies
    ensures Move(w.account, p, p) == w.account
  {
    MoveCallsCopies(w.q.dir, w.q.items, p, p);
  }

  /**
   A rename refused for its new name leaves the queue as it was exactly when nothing queued has the old name: the
   queued copies are renamed before the name is checked.
   */
  lemma RefusedRenameKeepsQueue(w: World, src: Place, dst: Place, r: Reach)
    requires Valid(w.q)
    ensures HandleRename(w, src, dst, false, r).1.Refused?
    ensures HandleRename(w, src, dst, false, r).0.account == w.account
    ensures HandleRename(w, src, dst, false, r).0.q.items == w.q.items <==> src == dst || Newest(w.q.items, src).None?
  {
    HitNewest(w.q.items, src);
    var items' := MovedItems(w.q.items, src, dst);
    if src != dst && Newest(w.q.items, src).Some? {
      NewestMoved(w.q.items, src, dst, src);
    } else {
      forall i | 0 <= i < |w.q.items| ensures items'[i] == w.q.items[i] {
        NewestSpec(w.q.items, src);
        assert w.q.items[i] in w.q.items;
      }
      assert items' == w.q.items;
    }
  }

  /** How far the account got with a rename that was not carried out. */
  function FailedAt(nameOk: bool, r: Reach): Reach { if nameOk then r else Nowhere }

  /** The account carries the rename out, or is not asked. */
  predicate Carried(w: World, src: Place, nameOk: bool, r: Reach) {
    nameOk && (src !in w.account || r.Through?)
  }

  /**
   What shows stays exactly when the account did not move its file, and: where something queued had the old name, the
   account shows there what the queue did, and what went onto the new name is covered by a younger copy or has the
   bytes shown there; where nothing had, the account trashed no file in sight at the new name.
   */
  predicate RefusedKeepsShown(w: World, src: Place, dst: Place, r: Reach) {
    var s, d := Newest(w.q.items, src), Newest(w.q.items, dst);
    || src == dst
    || (&& !r.MovedAs?
        && if s.Some? then
             && Lookup(w.account, src) == Shown(w, src)
             && ((d.Some? && s.value.n < d.value.n) || Shown(w, dst) == Shown(w, src))
           else
             r.Cleared? ==> d.Some? || dst !in w.account)
  }

  lemma RefusedWorld(w: World, src: Place, dst: Place, nameOk: bool, r: Reach)
    requires Valid(w.q) && !Carried(w, src, nameOk, r)
    ensures HandleRename(w, src, dst, nameOk, r).0 ==
            World(RenamePending(w.q, src, dst), MoveReaching(w.account, src, dst, FailedAt(nameOk, r)))
    ensures src != dst ==> HandleRename(w, src, dst, nameOk, r).1.Refused?
  {
    HitNewest(w.q.items, src);
  }

  /** At one place. */
  lemma RefusedShowsAt(w: World, src: Place, dst: Place, r: Reach, x: Place)
    requires Valid(w.q) && src != dst && !r.Through? && (r.Nowhere? || src in w.account) &&
             RefusedKeepsShown(w, src, dst, r)
    ensures Shown(World(RenamePending(w.q, src, dst), MoveReaching(w.account, src, dst, r)), x) == Shown(w, x)
  {
    var a := MoveReaching(w.account, src, dst, r);
    RenamePendingShowsAt(w, src, dst, a, x);
    assert a == w.account || (r.Cleared? && a == w.account - {dst});
    if Newest(w.q.items, src).Some? && Newest(w.q.items, dst).Some? {
      NewestDiffer(w.q.items, src, dst);
    }
  }

  /** Otherwise the old name or the new one shows something else. */
  lemma RefusedShowsOther(w: World, src: Place, dst: Place, r: Reach)
    requires Valid(w.q) && src != dst && !r.Through? && (r.Nowhere? || src in w.account) &&
             CanReach(w.account, src, dst, r)
    requires !RefusedKeepsShown(w, src, dst, r)
    ensures var w' := World(RenamePending(w.q, src, dst), MoveReaching(w.account, src, dst, r));
            Shown(w', src) != Shown(w, src) || Shown(w', dst) != Shown(w, dst)
  {
    RenamePendingShowsAt(w, src, dst, MoveReaching(w.account, src, dst, r), src);
    RenamePendingShowsAt(w, src, dst, MoveReaching(w.account, src, dst, r), dst);
    if Newest(w.q.items, src).Some? && Newest(w.q.items, dst).Some? {
      NewestDiffer(w.q.items, src, dst);
    }
  }

  lemma RefusedShowsAs(w: World, m: Files, src: Place, dst: Place, r: Reach)
    requires Valid(w.q) && ShowsAs(w, m)
    requires src != dst && !r.Through? && (r.Nowhere? || src in w.account) && CanReach(w.account, src, dst, r)
    ensures ShowsAs(World(RenamePending(w.q, src, dst), MoveReaching(w.account, src, dst, r)), m) <==>
            RefusedKeepsShown(w, src, dst, r)
  {
    var w' := World(RenamePending(w.q, src, dst), MoveReaching(w.account, src, dst, r));
    if RefusedKeepsShown(w, src, dst, r) {
      forall x ensures Shown(w', x) == Lookup(m, x) {
        assert Shown(w, x) == Lookup(m, x);
        RefusedShowsAt(w, src, dst, r, x);
      }
    } else {
      RefusedShowsOther(w, src, dst, r);
      assert Shown(w, src) == Lookup(m, src) && Shown(w, dst) == Lookup(m, dst);
      assert Shown(w', src) != Lookup(m, src) || Shown(w', dst) != Lookup(m, dst);
    }
  }

  /** A rename refused, or one the account fails at any point, shows as nothing done exactly under that condition. */
  lemma RefusedRenameShows(w: World, src: Place, dst: Place, nameOk: bool, r: Reach)
    requires Valid(w.q) && !Carried(w, src, nameOk, r) && CanReach(w.account, src, dst, r)
    ensures View(HandleRename(w, src, dst, nameOk, r).0) == View(w) <==>
            RefusedKeepsShown(w, src, dst, FailedAt(nameOk, r))
  {
    RefusedWorld(w, src, dst, nameOk, r);
    var f := FailedAt(nameOk, r);
    var w' := World(RenamePending(w.q, src, dst), MoveReaching(w.account, src, dst, f));
    ViewShowsAs(w);
    ViewShowsAs(w');
    if src == dst {
      SameNameShowsAs(w, View(w), src);
      ViewIs(w', View(w));
    } else {
      RefusedShowsAs(w, View(w), src, dst, f);
      if ShowsAs(w', View(w)) { ViewIs(w', View(w)); }
    }
  }
}
