/** The answer to `list`: the folder's files in the account, with what the queue shows laid over them. */
module OutboxListing {
  import opened Basics
  import opened OutboxState
  import opened OutboxFacts
  import opened OutboxOverlay
  import opened OutboxQueue

  /** A name listed, from the account or (by its number) from the queue. */
  datatype Row = Row(name: string, copy: Option<nat>)

  function AccountRows(names: seq<string>, es: seq<Entry>): seq<Row> {
    if |names| == 0 then []
    else
      var last := names[|names| - 1];
      AccountRows(names[..|names| - 1], es) + if Named(es, last) then [] else [Row(last, None)]
  }

  function QueueRows(es: seq<Entry>): (r: seq<Row>)
    ensures |r| == |es|
  {
    seq(|es|, i requires 0 <= i < |es| => Row(es[i].name, Some(es[i].n)))
  }

  function ListAnswer(names: seq<string>, es: seq<Entry>): seq<Row> {
    AccountRows(names, es) + QueueRows(es)
  }

  ghost predicate Distinct(names: seq<string>) {
    forall i, j :: 0 <= i < j < |names| ==> names[i] != names[j]
  }

  ghost predicate DistinctRows(rows: seq<Row>) {
    forall i, j :: 0 <= i < j < |rows| ==> rows[i].name != rows[j].name
  }

  /** The bytes a listed row opens. */
  function Opens(w: World, folder: string, r: Row): Option<Bytes> {
    match r.copy
    case Some(n) => if n in w.q.dir.copies then Some(w.q.dir.copies[n]) else None
    case None => Lookup(w.account, Place(folder, r.name))
  }

  lemma {:induction false} AccountRowsSpec(names: seq<string>, es: seq<Entry>)
    requires Distinct(names)
    ensures DistinctRows(AccountRows(names, es))
    ensures forall r :: r in AccountRows(names, es) <==> r.copy.None? && r.name in names && !Named(es, r.name)
  {
    if |names| > 0 {
      var init, last := names[..|names| - 1], names[|names| - 1];
      AccountRowsSpec(init, es);
      assert last !in init;
      assert names == init + [last];
      if !Named(es, last) {
        forall r | r in AccountRows(init, es) ensures r.name != last {
          assert r.name in init;
        }
      }
    }
  }

  lemma RowsDistinct(names: seq<string>, es: seq<Entry>)
    requires Distinct(names) && DistinctNames(es)
    ensures DistinctRows(ListAnswer(names, es))
  {
    AccountRowsSpec(names, es);
    var a, b := AccountRows(names, es), QueueRows(es);
    var rows := a + b;
    forall i, j | 0 <= i < j < |rows| ensures rows[i].name != rows[j].name {
      if i < |a| && |a| <= j {
        assert a[i] in a;
        assert Named(es, es[j - |a|].name);
      }
    }
  }

  /**
   A folder's listing has every name the disk shows in it, each once, and every row opens the bytes shown.
   */
  lemma ListingIsView(w: World, folder: string, names: seq<string>)
    requires OutboxState.Valid(w.q) && Distinct(names)
    requires forall name :: name in names <==> Place(folder, name) in w.account
    ensures var rows := ListAnswer(names, EntriesOf(w.q.items, folder));
            && DistinctRows(rows)
            && (forall r :: r in rows ==>
                  Place(folder, r.name) in View(w) && Opens(w, folder, r) == Some(View(w)[Place(folder, r.name)]))
            && (forall name :: Place(folder, name) in View(w) ==> exists r :: r in rows && r.name == name)
  {
    var es := EntriesOf(w.q.items, folder);
    var rows := ListAnswer(names, es);
    EntriesShowNewest(w.q.items, folder);
    AccountRowsSpec(names, es);
    RowsDistinct(names, es);
    forall r | r in rows
      ensures Place(folder, r.name) in View(w) && Opens(w, folder, r) == Some(View(w)[Place(folder, r.name)])
    {
      RowOpensView(w, folder, names, r);
    }
    forall name | Place(folder, name) in View(w) ensures exists r :: r in rows && r.name == name {
      NameIsListed(w, folder, names, name);
    }
  }

  lemma QueuedIsNewest(w: World, folder: string, name: string)
    requires Sorted(w.q.items)
    ensures Named(EntriesOf(w.q.items, folder), name) <==> Newest(w.q.items, Place(folder, name)).Some?
  {
    var es := EntriesOf(w.q.items, folder);
    EntriesShowNewest(w.q.items, folder);
    if Named(es, name) {
      var i :| 0 <= i < |es| && es[i].name == name;
      assert es[i] in es;
    }
    if Newest(w.q.items, Place(folder, name)).Some? {
      var it := Newest(w.q.items, Place(folder, name)).value;
      NewestSpec(w.q.items, Place(folder, name));
      assert EntryOf(it) in es;
    }
  }

  lemma RowOpensView(w: World, folder: string, names: seq<string>, r: Row)
    requires OutboxState.Valid(w.q) && Distinct(names)
    requires forall name :: name in names <==> Place(folder, name) in w.account
    requires r in ListAnswer(names, EntriesOf(w.q.items, folder))
    ensures Place(folder, r.name) in View(w) && Opens(w, folder, r) == Some(View(w)[Place(folder, r.name)])
  {
    var es, p := EntriesOf(w.q.items, folder), Place(folder, r.name);
    EntriesShowNewest(w.q.items, folder);
    AccountRowsSpec(names, es);
    ViewShows(w, p);
    QueuedIsNewest(w, folder, r.name);
    NewestSpec(w.q.items, p);
    if r !in AccountRows(names, es) {
      var i :| 0 <= i < |es| && QueueRows(es)[i] == r;
      assert es[i] in es;
      var it := Newest(w.q.items, p).value;
      var k :| 0 <= k < |w.q.items| && w.q.items[k] == it;
      assert Stored(w.q.items[k], w.q.dir);
    }
  }

  lemma NameIsListed(w: World, folder: string, names: seq<string>, name: string)
    requires OutboxState.Valid(w.q) && Distinct(names)
    requires forall name :: name in names <==> Place(folder, name) in w.account
    requires Place(folder, name) in View(w)
    ensures exists r :: r in ListAnswer(names, EntriesOf(w.q.items, folder)) && r.name == name
  {
    var es, p := EntriesOf(w.q.items, folder), Place(folder, name);
    ViewShows(w, p);
    QueuedIsNewest(w, folder, name);
    AccountRowsSpec(names, es);
    if Named(es, name) {
      var i :| 0 <= i < |es| && es[i].name == name;
      assert QueueRows(es)[i] in ListAnswer(names, es);
    } else {
      assert Row(name, None) in ListAnswer(names, es);
    }
  }
}
