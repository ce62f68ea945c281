/** The files of one folder for the preview, loaded page by page as they are asked for (class FolderFiles). */
module FolderFiles {
  import opened Basics
  import opened Keyset

  /** Where the files come from: a folder that may change between requests, or a list given once. */
  datatype Source =
    | Folder(at: nat -> seq<Key>, size: nat, desc: bool, numbered: bool)
    | Given(rows: seq<Key>)

  predicate IsFile(k: Key) { k.fo == 1 }

  function Files(rows: seq<Key>): seq<Key> {
    if |rows| == 0 then []
    else Files(rows[..|rows| - 1]) + if IsFile(rows[|rows| - 1]) then [rows[|rows| - 1]] else []
  }

  lemma {:induction false} FilesConcat(a: seq<Key>, b: seq<Key>)
    ensures Files(a + b) == Files(a) + Files(b)
    decreases |b|
  {
    if |b| == 0 {
      assert a + b == a;
    } else {
      assert (a + b)[..|a + b| - 1] == a + b[..|b| - 1];
      FilesConcat(a, b[..|b| - 1]);
    }
  }

  lemma {:induction false} FilesMembers(rows: seq<Key>)
    ensures forall k :: k in Files(rows) <==> k in rows && IsFile(k)
  {
    if |rows| > 0 {
      assert rows == rows[..|rows| - 1] + [rows[|rows| - 1]];
      FilesMembers(rows[..|rows| - 1]);
    }
  }

  /** The walk after `asked` requests. */
  function WalkOf(s: Source, asked: nat): Walk {
    match s
    case Folder(at, size, desc, _) => Walked(at, size, desc, asked)
    case Given(rows) => Walk(rows, None, true)
  }

  /** Keys that may still come: each page moves the cursor past at least one. */
  ghost function Left(universe: set<Key>, w: Walk, desc: bool): set<Key> {
    if w.done then {} else set k | k in universe && (w.cursor.Some? ==> Less(w.cursor.value, k, desc))
  }

  lemma PageAdvances(universe: set<Key>, w: Walk, ks: seq<Key>, size: nat, desc: bool, numbered: bool)
    requires WalkOk(w, desc, numbered) && Distinct(ks) && OneKind(ks, numbered)
    requires forall k :: k in ks ==> k in universe
    requires forall k :: k in universe ==> k.key.Some? == numbered
    requires !w.done
    ensures NextPage(w, ks, size, desc).done ||
            Left(universe, NextPage(w, ks, size, desc), desc) < Left(universe, w, desc)
  {
    var w', p := NextPage(w, ks, size, desc), Page(ks, w.cursor, size, desc);
    PageSpec(ks, w.cursor, size, desc, numbered);
    if !w'.done {
      var last := p[|p| - 1];
      assert last in p;
      forall k | k in Left(universe, w', desc) ensures k in Left(universe, w, desc) {
        if w.cursor.Some? { OrderIsTransitive(w.cursor.value, last, k, desc); }
      }
      OrderIsTotal(last, last, desc);
      assert last in Left(universe, w, desc) && last !in Left(universe, w', desc);
    }
  }

  /** A folder's keys are of one sort and come from finitely many. */
  ghost predicate SourceOk(s: Source, universe: set<Key>) {
    s.Folder? ==>
      && s.size > 0 && Folders(s.at, s.numbered)
      && (forall t: nat, k :: k in s.at(t) ==> k in universe)
      && (forall k :: k in universe ==> k.key.Some? == s.numbered)
  }

  lemma NextRequest(s: Source, universe: set<Key>, t: nat)
    requires SourceOk(s, universe) && s.Folder? && !WalkOf(s, t).done
    ensures var w, w' := WalkOf(s, t), WalkOf(s, t + 1);
            var p := Page(s.at(t), w.cursor, s.size, s.desc);
            && Files(w'.rows) == Files(w.rows) + Files(p)
            && w'.cursor == (if |p| > 0 then Some(p[|p| - 1]) else None)
            && w'.done == (|p| < s.size || |p| == 0)
            && (w'.done || Left(universe, w', s.desc) < Left(universe, w, s.desc))
  {
    var w := WalkOf(s, t);
    WalkStaysOk(s.at, s.size, s.desc, s.numbered, t);
    FolderAt(s.at, s.numbered, t);
    PageAdvances(universe, w, s.at(t), s.size, s.desc, s.numbered);
    FilesConcat(w.rows, Page(s.at(t), w.cursor, s.size, s.desc));
    assert Files(w.rows) + [] == Files(w.rows);
  }

  class FolderFiles {
    const source: Source
    /** All keys that can ever be in the folder; finitely many. */
    ghost const universe: set<Key>
    var files: seq<Key>
    var cursor: Option<Key>
    var done: bool
    /** Requests made. */
    var asked: nat

    ghost predicate Valid()
      reads this
    {
      && SourceOk(source, universe)
      && files == Files(WalkOf(source, asked).rows)
      && cursor == WalkOf(source, asked).cursor
      && done == WalkOf(source, asked).done
    }

    constructor OfFolder(at: nat -> seq<Key>, size: nat, desc: bool, numbered: bool, ghost universe: set<Key>)
      requires size > 0 && Folders(at, numbered)
      requires forall t: nat, k :: k in at(t) ==> k in universe
      requires forall k :: k in universe ==> k.key.Some? == numbered
      ensures Valid() && source == Folder(at, size, desc, numbered) && asked == 0 && files == []
    {
      this.source, this.universe := Folder(at, size, desc, numbered), universe;
      files, cursor, done, asked := [], None, false, 0;
    }

    constructor OfRows(rows: seq<Key>)
      ensures Valid() && source == Given(rows) && files == Files(rows) && done
    {
      source, universe := Given(rows), {};
      files, cursor, done, asked := Files(rows), None, true, 0;
    }

    /** The next page. */
    method More()
      requires Valid() && !done
      modifies this
      ensures Valid() && asked == old(asked) + 1
      ensures old(files) <= files
      ensures done || Left(universe, WalkOf(source, asked), source.desc) <
                      Left(universe, old(WalkOf(source, asked)), source.desc)
    {
      ghost var t := asked;
      Load();
      NextRequest(source, universe, t);
    }

    method Load()
      requires source.Folder?
      modifies this
      ensures var p := Page(source.at(old(asked)), old(cursor), source.size, source.desc);
              && files == old(files) + Files(p)
              && cursor == (if |p| > 0 then Some(p[|p| - 1]) else None)
              && done == (|p| < source.size || |p| == 0)
              && asked == old(asked) + 1
    {
      var rows := Page(source.at(asked), cursor, source.size, source.desc);
      files := files + Files(rows);
      cursor := if |rows| > 0 then Some(rows[|rows| - 1]) else None;
      done := |rows| < source.size || |rows| == 0;
      asked := asked + 1;
    }

    /** The i-th file, loading pages until there is one. */
    method At(i: int) returns (r: Option<Key>)
      requires Valid()
      modifies this
      ensures Valid() && asked >= old(asked)
      ensures 0 <= i < |files| ==> r == Some(files[i])
      ensures r.None? ==> i < 0 || (done && i >= |files|)
      ensures i < 0 ==> r.None?
    {
      while i >= |files| && !done
        invariant Valid() && asked >= old(asked)
        decreases !done, Left(universe, WalkOf(source, asked), if source.Folder? then source.desc else false)
      {
        More();
      }
      r := if 0 <= i < |files| then Some(files[i]) else None;
    }

    /** Where a file is, loading pages until it is found; -1 when the whole folder has no such file. */
    method IndexOf(id: Units) returns (r: int)
      requires Valid()
      modifies this
      ensures Valid() && asked >= old(asked)
      ensures r >= 0 ==> r < |files| && files[r].id == id && forall k :: 0 <= k < r ==> files[k].id != id
      ensures r < 0 ==> done && forall k :: 0 <= k < |files| ==> files[k].id != id
    {
      var from := 0;
      while true
        invariant Valid() && asked >= old(asked)
        invariant 0 <= from <= |files| && forall k :: 0 <= k < from ==> files[k].id != id
        decreases !done, Left(universe, WalkOf(source, asked), if source.Folder? then source.desc else false),
                  |files| - from
      {
        while from < |files|
          invariant 0 <= from <= |files| && forall k :: 0 <= k < from ==> files[k].id != id
        {
          if files[from].id == id { return from; }
          from := from + 1;
        }
        if done { return -1; }
        More();
      }
    }
  }

  lemma {:induction false} FilesAscending(rows: seq<Key>, desc: bool)
    requires Ascending(rows, desc)
    ensures Ascending(Files(rows), desc)
  {
    if |rows| > 0 {
      var x, rest := rows[0], rows[1..];
      assert rows == [x] + rest;
      FilesConcat([x], rest);
      FilesMembers(rest);
      FilesAscending(rest, desc);
      assert [x][..0] == [];
      assert Files([x]) == if IsFile(x) then [x] else [];
      if IsFile(x) {
        assert ([x] + Files(rest))[1..] == Files(rest);
      } else {
        assert [] + Files(rest) == Files(rest);
      }
    }
  }

  /** A folder read to its end holds every file that was there unchanged all along, exactly once, in order. */
  lemma CompleteFolderHasFile(s: Source, universe: set<Key>, t: nat, k: Key)
    requires s.Folder? && SourceOk(s, universe) && WalkOf(s, t).done
    requires IsFile(k) && forall i: nat :: i < t ==> k in s.at(i)
    ensures var fs := Files(WalkOf(s, t).rows);
            && k in fs
            && (forall i, j :: 0 <= i < j < |fs| ==> Less(fs[i], fs[j], s.desc) && fs[i] != fs[j])
            && (forall f :: f in fs ==> exists i: nat :: i < t && f in s.at(i))
  {
    var rows := WalkOf(s, t).rows;
    var fs := Files(rows);
    StayingIsListed(s.at, s.size, s.desc, s.numbered, t, k);
    WalkStaysOk(s.at, s.size, s.desc, s.numbered, t);
    FilesMembers(rows);
    FilesAscending(rows, s.desc);
    forall i, j | 0 <= i < j < |fs| ensures Less(fs[i], fs[j], s.desc) && fs[i] != fs[j] {
      AscendingOnce(fs, s.desc, i, j);
      OrderIsTotal(fs[i], fs[j], s.desc);
    }
    forall f | f in fs ensures exists i: nat :: i < t && f in s.at(i) {
      assert f in rows;
      ListedWasThere(s.at, s.size, s.desc, s.numbered, t, f);
    }
  }
}
