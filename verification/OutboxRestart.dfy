/**
 What the disk shows after a restart of the agent: the queue is read back from its directory and laid over the
 account again. Files removed while they were uploaded come back, names kept on this computer only go.
 */
module OutboxRestart {
  import opened Basics
  import opened OutboxState
  import opened OutboxFacts
  import opened OutboxOverlay
  import opened OutboxCommit
  import Crash = OutboxCrash

  /** The disk after a restart that reads the targets in the order `ns` and finds that account. */
  function Restarted(w: World, account: Files, ns: seq<nat>): World {
    World(Crash.Restored(w.q.dir, ns), account)
  }

  /** The copy of a place read last. */
  function LastRead(items: seq<Item>, ns: seq<nat>, p: Place): Option<Item> {
    if |ns| == 0 then None
    else
      var it := Find(items, ns[|ns| - 1]);
      if it.Some? && it.value.at == p then it else LastRead(items, ns[..|ns| - 1], p)
  }

  /** The last copy of a place in the queue, removed or not. */
  function LastAt(items: seq<Item>, p: Place): Option<Item> {
    if |items| == 0 then None
    else if items[|items| - 1].at == p then Some(items[|items| - 1])
    else LastAt(items[..|items| - 1], p)
  }

  /** What a place shows after the restart: the copy read last, removed or not, but no local-only name. */
  function ShownAfter(w: World, account: Files, ns: seq<nat>, p: Place): Option<Bytes> {
    var last := LastRead(w.q.items, ns, p);
    if LocalOnlyName(p.name) || last.None? then Lookup(account, p) else Some(BytesOf(w.q, last.value))
  }

  // ----- place by place -----

  lemma {:induction false} NewestRestored(q: Queue, ns: seq<nat>, p: Place)
    requires Valid(q)
    ensures var last := LastRead(q.items, ns, p);
            Newest(Crash.RestoredItems(q.dir, ns), p) ==
            if LocalOnlyName(p.name) || last.None? then None else Some(Crash.Durable(last.value))
  {
    if |ns| > 0 {
      var init, n := ns[..|ns| - 1], ns[|ns| - 1];
      NewestRestored(q, init, p);
      Crash.ValidRestores(q, n);
      FindSpec(q.items, n);
      NewestNext(Crash.RestoredItems(q.dir, init), Crash.RestoredItem(q.dir, n), p);
    }
  }

  lemma NewestNext(r: seq<Item>, it: Option<Item>, p: Place)
    ensures Newest(r + (if it.Some? then [it.value] else []), p) ==
            if it.Some? && Hit(it.value, p) then it else Newest(r, p)
  {
    if it.Some? { AppendLast(r, it.value); } else { assert r + [] == r; }
  }

  lemma RestartShowsAt(w: World, account: Files, ns: seq<nat>, p: Place)
    requires Valid(w.q)
    ensures Shown(Restarted(w, account, ns), p) == ShownAfter(w, account, ns, p)
  {
    NewestRestored(w.q, ns, p);
  }

  lemma {:induction false} NothingRead(items: seq<Item>, ns: seq<nat>, p: Place)
    requires p !in Places(items)
    ensures LastRead(items, ns, p).None?
  {
    if |ns| > 0 {
      NothingRead(items, ns[..|ns| - 1], p);
      FindSpec(items, ns[|ns| - 1]);
    }
  }

  /** Where nothing is queued the account shows, before and after. */
  lemma ElsewhereAccount(w: World, account: Files, ns: seq<nat>, p: Place)
    requires p !in Places(w.q.items)
    ensures ShownAfter(w, account, ns, p) == Lookup(account, p) && Shown(w, p) == Lookup(w.account, p)
  {
    NothingRead(w.q.items, ns, p);
    if Newest(w.q.items, p).Some? { NewestInPlaces(w.q.items, p); }
  }

  ghost predicate SameAfter(w: World, account: Files, ns: seq<nat>) {
    forall p :: p in Places(w.q.items) ==> ShownAfter(w, account, ns, p) == Shown(w, p)
  }

  /** The account shows the same where nothing is queued. */
  ghost predicate SameElsewhere(w: World, account: Files) {
    forall p :: p !in Places(w.q.items) ==> Lookup(account, p) == Lookup(w.account, p)
  }

  /**
   In whatever order the directory is read, the disk shows what it did exactly when each place of the queue showed
   the copy read last, and each local-only name what the account has (and the account itself shows the same elsewhere).
   */
  lemma RestartShowsIff(w: World, account: Files, ns: seq<nat>)
    requires Valid(w.q)
    ensures View(Restarted(w, account, ns)) == View(w) <==> SameAfter(w, account, ns) && SameElsewhere(w, account)
  {
    var w' := Restarted(w, account, ns);
    ViewShowsAs(w);
    ViewShowsAs(w');
    if SameAfter(w, account, ns) && SameElsewhere(w, account) {
      forall p ensures Shown(w', p) == Lookup(View(w), p) {
        RestartShowsAt(w, account, ns, p);
        assert Shown(w, p) == Lookup(View(w), p);
        if p !in Places(w.q.items) { ElsewhereAccount(w, account, ns, p); }
      }
      ViewIs(w', View(w));
    }
    if View(w') == View(w) {
      forall p ensures ShownAfter(w, account, ns, p) == Shown(w, p) {
        RestartShowsAt(w, account, ns, p);
        assert Shown(w, p) == Lookup(View(w), p) && Shown(w', p) == Lookup(View(w'), p);
      }
      forall p | p !in Places(w.q.items) ensures Lookup(account, p) == Lookup(w.account, p) {
        ElsewhereAccount(w, account, ns, p);
      }
    }
  }

  // ----- read by number -----

  lemma {:induction false} LastReadSpec(items: seq<Item>, ns: seq<nat>, p: Place)
    requires Sorted(items) && Crash.Ascending(ns)
    ensures var last := LastRead(items, ns, p);
            && (last.Some? ==> last.value in items && last.value.at == p && last.value.n in ns)
            && forall x :: x in items && x.at == p && x.n in ns ==> last.Some? && x.n <= last.value.n
  {
    if |ns| > 0 {
      var init, n := ns[..|ns| - 1], ns[|ns| - 1];
      assert ns == init + [n];
      LastReadSpec(items, init, p);
      FindSpec(items, n);
      forall x | x in items && x.at == p && x.n in ns
        ensures LastRead(items, ns, p).Some? && x.n <= LastRead(items, ns, p).value.n
      {
        if x.n == n {
          SortedUnique(items, x, Find(items, n).value);
        }
      }
    }
  }

  lemma {:induction false} LastAtSpec(items: seq<Item>, p: Place)
    requires Sorted(items)
    ensures var last := LastAt(items, p);
            && (last.Some? ==> last.value in items && last.value.at == p)
            && forall x :: x in items && x.at == p ==> last.Some? && x.n <= last.value.n
  {
    if |items| > 0 {
      SortedInit(items);
      LastAtSpec(items[..|items| - 1], p);
    }
  }

  lemma LastReadIsLast(q: Queue, ns: seq<nat>, p: Place)
    requires Valid(q) && Crash.Listing(q.dir, ns) && Crash.Ascending(ns)
    ensures LastRead(q.items, ns, p) == LastAt(q.items, p)
  {
    var a, b := LastRead(q.items, ns, p), LastAt(q.items, p);
    LastReadSpec(q.items, ns, p);
    LastAtSpec(q.items, p);
    if b.Some? {
      InListing(q, ns, b.value);
      SortedUnique(q.items, a.value, b.value);
    }
  }

  lemma InListing(q: Queue, ns: seq<nat>, it: Item)
    requires Valid(q) && Crash.Listing(q.dir, ns) && it in q.items
    ensures it.n in ns
  {
    var i :| 0 <= i < |q.items| && q.items[i] == it;
    assert q.items[i].n in Numbers(q.items);
  }

  /** No removed copy comes back with other bytes than the place shows, no local-only file goes. */
  ghost predicate NothingToLose(w: World, account: Files) {
    forall p :: p in Places(w.q.items) ==> KeptAt(w, account, p)
  }

  predicate KeptAt(w: World, account: Files, p: Place) {
    var last := LastAt(w.q.items, p);
    if LocalOnlyName(p.name) then Lookup(account, p) == Shown(w, p)
    else last.Some? && last.value.trashed ==> Shown(w, p) == Some(BytesOf(w.q, last.value))
  }

  lemma {:induction false} LastNotTrashed(items: seq<Item>, p: Place)
    requires LastAt(items, p).Some? && !LastAt(items, p).value.trashed
    ensures Newest(items, p) == LastAt(items, p)
  {
    if items[|items| - 1].at != p {
      LastNotTrashed(items[..|items| - 1], p);
    }
  }

  lemma KeptAtIff(w: World, account: Files, ns: seq<nat>, p: Place)
    requires Valid(w.q) && Crash.Listing(w.q.dir, ns) && Crash.Ascending(ns) && p in Places(w.q.items)
    ensures ShownAfter(w, account, ns, p) == Shown(w, p) <==> KeptAt(w, account, p)
  {
    var last := LastAt(w.q.items, p);
    LastReadIsLast(w.q, ns, p);
    LastAtSpec(w.q.items, p);
    var i :| 0 <= i < |w.q.items| && w.q.items[i].at == p;
    assert w.q.items[i] in w.q.items;
    if !last.value.trashed { LastNotTrashed(w.q.items, p); }
  }

  /**
   Read by number, the disk shows after the restart what it showed before exactly when no place's youngest copy is
   one removed while it was uploaded (but with the bytes shown there), and no local-only name is queued (but with
   the account's bytes).
   */
  lemma OrderedRestartShowsIff(w: World, account: Files, ns: seq<nat>)
    requires Valid(w.q) && Crash.Listing(w.q.dir, ns) && Crash.Ascending(ns)
    ensures View(Restarted(w, account, ns)) == View(w) <==> NothingToLose(w, account) && SameElsewhere(w, account)
  {
    RestartShowsIff(w, account, ns);
    forall p | p in Places(w.q.items) ensures ShownAfter(w, account, ns, p) == Shown(w, p) <==> KeptAt(w, account, p) {
      KeptAtIff(w, account, ns, p);
    }
  }

  // ----- killed, perhaps between the account's commit and the drop of the copy -----

  /** The account a restart finds. */
  function AccountLeft(w: World, committed: bool): Files
    requires committed ==> w.q.current.Some?
  {
    if committed then Committed(w) else w.account
  }

  /** A file committed whose copy was not dropped yet is covered at the place it went to, or was there already. */
  ghost predicate RestartKeeps(w: World, committed: bool)
    requires committed ==> w.q.current.Some?
  {
    && NothingToLose(w, AccountLeft(w, committed))
    && (committed ==>
          var p := w.q.current.value.at;
          p in Places(w.q.items) || Lookup(w.account, p) == Lookup(Committed(w), p))
  }

  lemma KilledShowsIff(w: World, committed: bool, ns: seq<nat>)
    requires Valid(w.q) && Crash.Listing(w.q.dir, ns) && Crash.Ascending(ns) && (committed ==> w.q.current.Some?)
    ensures View(Restarted(w, AccountLeft(w, committed), ns)) == View(w) <==> RestartKeeps(w, committed)
  {
    var c := AccountLeft(w, committed);
    OrderedRestartShowsIff(w, c, ns);
    if committed {
      var f := w.q.current.value.at;
      assert forall p :: p != f ==> Lookup(c, p) == Lookup(w.account, p);
      assert SameElsewhere(w, c) <==> f in Places(w.q.items) || Lookup(w.account, f) == Lookup(c, f);
    }
  }
}
