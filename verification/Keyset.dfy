/**
 One page of a folder at a time (the in-memory branch of `list` in the application core): folders first, then by
 name, size or date in either direction, each page from the key of the last row. Texts are compared by UTF-16
 code units, as JavaScript does.
 */
module Keyset {
  import opened Basics

  type Units = seq<nat>

  /** [folders first, size or date (none when by name), name key, id] */
  datatype Key = Key(fo: int, key: Option<int>, name: Units, id: Units)

  // ----- the order -----

  predicate UnitsLess(a: Units, b: Units) {
    |b| > 0 && (|a| == 0 || a[0] < b[0] || (a[0] == b[0] && UnitsLess(a[1..], b[1..])))
  }

  /** A missing number counts as 0. */
  function Number(k: Option<int>): int { if k.Some? then k.value else 0 }

  function CompareNumbers(a: Option<int>, b: Option<int>): int {
    if a == b then 0 else if Number(a) < Number(b) then -1 else 1
  }

  function CompareTexts(a: Units, b: Units): int {
    if a == b then 0 else if UnitsLess(a, b) then -1 else 1
  }

  function Or(a: int, b: int): int { if a != 0 then a else b }

  /** Folders first in either direction; the rest of the key follows the direction. */
  function Compare(x: Key, y: Key, desc: bool): int {
    if x.fo != y.fo then x.fo - y.fo
    else
      var c := Or(CompareNumbers(x.key, y.key), Or(CompareTexts(x.name, y.name), CompareTexts(x.id, y.id)));
      if desc then -c else c
  }

  predicate Less(x: Key, y: Key, desc: bool) { Compare(x, y, desc) < 0 }

  lemma {:induction false} UnitsOrder(a: Units, b: Units)
    ensures a == b ==> !UnitsLess(a, b)
    ensures a != b ==> (UnitsLess(a, b) <==> !UnitsLess(b, a))
  {
    if |a| > 0 && |b| > 0 {
      UnitsOrder(a[1..], b[1..]);
      assert a == [a[0]] + a[1..] && b == [b[0]] + b[1..];
    }
  }

  lemma {:induction false} UnitsTransitive(a: Units, b: Units, c: Units)
    requires UnitsLess(a, b) && UnitsLess(b, c)
    ensures UnitsLess(a, c)
  {
    if |a| > 0 && |b| > 0 && a[0] == b[0] == c[0] {
      UnitsTransitive(a[1..], b[1..], c[1..]);
    }
  }

  lemma TextsOrder(a: Units, b: Units)
    ensures CompareTexts(a, b) == 0 <==> a == b
    ensures CompareTexts(a, b) == -CompareTexts(b, a)
  {
    UnitsOrder(a, b);
  }

  /** Keys of one sort: all with a number, or all without. */
  predicate SameKind(x: Key, y: Key) { x.key.Some? == y.key.Some? }

  /** The comparison is antisymmetric exactly when no key without a number meets one with the number 0. */
  lemma CompareFlipsIff(x: Key, y: Key, desc: bool)
    ensures Compare(x, y, desc) == -Compare(y, x, desc) <==>
            x.fo != y.fo || x.key == y.key || Number(x.key) != Number(y.key)
  {
    TextsOrder(x.name, y.name);
    TextsOrder(x.id, y.id);
  }

  /** In keys of one sort it is a strict total order, in both directions: */
  lemma OrderIsTotal(x: Key, y: Key, desc: bool)
    requires SameKind(x, y)
    ensures Compare(x, y, desc) == 0 <==> x == y
    ensures Less(x, y, desc) || x == y || Less(y, x, desc)
    ensures !(Less(x, y, desc) && Less(y, x, desc))
    ensures Compare(x, y, desc) > 0 <==> Less(y, x, desc)
  {
    CompareFlipsIff(x, y, desc);
    TextsOrder(x.name, y.name);
    TextsOrder(x.id, y.id);
  }

  lemma TextsTransitive(a: Units, b: Units, c: Units)
    ensures CompareTexts(a, b) < 0 && CompareTexts(b, c) < 0 ==> CompareTexts(a, c) < 0
  {
    if UnitsLess(a, b) && UnitsLess(b, c) {
      UnitsTransitive(a, b, c);
      UnitsOrder(a, c);
    }
  }

  lemma OrderIsTransitive(x: Key, y: Key, z: Key, desc: bool)
    requires SameKind(x, y) && SameKind(y, z)
    requires Less(x, y, desc) && Less(y, z, desc)
    ensures Less(x, z, desc)
  {
    TextsTransitive(x.name, y.name, z.name);
    TextsTransitive(z.name, y.name, x.name);
    TextsTransitive(x.id, y.id, z.id);
    TextsTransitive(z.id, y.id, x.id);
    TextsOrder(x.name, y.name);
    TextsOrder(y.name, z.name);
    TextsOrder(x.name, z.name);
    TextsOrder(x.id, y.id);
    TextsOrder(y.id, z.id);
    TextsOrder(x.id, z.id);
  }

  // ----- one page -----

  datatype Node = Node(id: Units, nameKey: Units, folder: bool, size: Option<int>, created: Option<int>, trashed: bool)

  datatype By = Name | Size | Date

  function OrZero(n: Option<int>): int { if n.Some? then n.value else 0 }

  function KeyOf(n: Node, order: By): Key {
    Key(if n.folder then 0 else 1,
        match order { case Name => None case Size => Some(OrZero(n.size)) case Date => Some(OrZero(n.created)) },
        n.nameKey, n.id)
  }

  function KeysOf(nodes: seq<Node>, order: By): seq<Key> {
    if |nodes| == 0 then []
    else
      var last := nodes[|nodes| - 1];
      KeysOf(nodes[..|nodes| - 1], order) + if last.trashed then [] else [KeyOf(last, order)]
  }

  function Insert(ks: seq<Key>, k: Key, desc: bool): seq<Key> {
    if |ks| == 0 then [k]
    else if Less(k, ks[0], desc) then [k] + ks
    else [ks[0]] + Insert(ks[1..], k, desc)
  }

  function Sort(ks: seq<Key>, desc: bool): seq<Key> {
    if |ks| == 0 then [] else Insert(Sort(ks[..|ks| - 1], desc), ks[|ks| - 1], desc)
  }

  /** What comes after the cursor. */
  function Past(ks: seq<Key>, from: Option<Key>, desc: bool): seq<Key> {
    if |ks| == 0 then []
    else (if from.None? || Compare(ks[0], from.value, desc) > 0 then [ks[0]] else []) + Past(ks[1..], from, desc)
  }

  function Take<T>(s: seq<T>, n: nat): seq<T> { if |s| <= n then s else s[..n] }

  function Page(ks: seq<Key>, from: Option<Key>, limit: nat, desc: bool): seq<Key> {
    Take(Past(Sort(ks, desc), from, desc), limit)
  }

  /** The rows of a page and how many there are in all. */
  method List(children: seq<Node>, order: By, desc: bool, after: Option<Key>, limit: nat)
    returns (rows: seq<Key>, total: nat)
    ensures rows == Page(KeysOf(children, order), after, limit, desc)
    ensures total == |KeysOf(children, order)|
  {
    var all, i := [], 0;
    while i < |children|
      invariant 0 <= i <= |children| && all == KeysOf(children[..i], order)
    {
      assert children[..i + 1][..i] == children[..i];
      if !children[i].trashed {
        all := all + [KeyOf(children[i], order)];
      }
      i := i + 1;
    }
    assert children[..|children|] == children;
    total := |all|;
    rows := Take(Past(Sort(all, desc), after, desc), limit);
  }

  // ----- what a page is -----

  /** All keys of one sort. */
  ghost predicate OneKind(ks: seq<Key>, numbered: bool) {
    forall k :: k in ks ==> k.key.Some? == numbered
  }

  ghost predicate Ascending(ks: seq<Key>, desc: bool) {
    |ks| == 0 || (Ascending(ks[1..], desc) && forall k :: k in ks[1..] ==> Less(ks[0], k, desc))
  }

  ghost predicate Distinct(ks: seq<Key>) {
    |ks| == 0 || (Distinct(ks[..|ks| - 1]) && ks[|ks| - 1] !in ks[..|ks| - 1])
  }

  lemma {:induction false} InsertSpec(ks: seq<Key>, k: Key, desc: bool, numbered: bool)
    requires Ascending(ks, desc) && OneKind(ks, numbered) && k.key.Some? == numbered && k !in ks
    ensures Ascending(Insert(ks, k, desc), desc)
    ensures forall x :: x in Insert(ks, k, desc) <==> x in ks || x == k
  {
    if |ks| > 0 {
      assert ks == [ks[0]] + ks[1..];
      OrderIsTotal(k, ks[0], desc);
      if Less(k, ks[0], desc) {
        forall x | x in ks ensures Less(k, x, desc) {
          if x != ks[0] { OrderIsTransitive(k, ks[0], x, desc); }
        }
        assert ([k] + ks)[1..] == ks;
      } else {
        InsertSpec(ks[1..], k, desc, numbered);
        var r := Insert(ks[1..], k, desc);
        assert ([ks[0]] + r)[1..] == r;
      }
    }
  }

  lemma {:induction false} SortSpec(ks: seq<Key>, desc: bool, numbered: bool)
    requires Distinct(ks) && OneKind(ks, numbered)
    ensures Ascending(Sort(ks, desc), desc)
    ensures forall x :: x in Sort(ks, desc) <==> x in ks
  {
    if |ks| > 0 {
      var init, last := ks[..|ks| - 1], ks[|ks| - 1];
      assert ks == init + [last];
      SortSpec(init, desc, numbered);
      InsertSpec(Sort(init, desc), last, desc, numbered);
    }
  }

  lemma {:induction false} PastSpec(ks: seq<Key>, from: Option<Key>, desc: bool)
    requires Ascending(ks, desc)
    ensures Ascending(Past(ks, from, desc), desc)
    ensures forall x :: x in Past(ks, from, desc) <==> x in ks && (from.None? || Compare(x, from.value, desc) > 0)
  {
    if |ks| > 0 {
      assert ks == [ks[0]] + ks[1..];
      PastSpec(ks[1..], from, desc);
      var r := Past(ks[1..], from, desc);
      assert ([ks[0]] + r)[1..] == r;
      assert [] + r == r;
    }
  }

  lemma {:induction false} TakeSpec(ks: seq<Key>, n: nat, desc: bool)
    requires Ascending(ks, desc)
    ensures Ascending(Take(ks, n), desc)
    ensures forall x :: x in Take(ks, n) ==> x in ks
    ensures forall x, y :: x in Take(ks, n) && y in ks && y !in Take(ks, n) ==> Less(x, y, desc)
  {
    if n > 0 && |ks| > n {
      assert ks == [ks[0]] + ks[1..];
      TakeSpec(ks[1..], n - 1, desc);
      assert ks[..n] == [ks[0]] + ks[1..][..n - 1];
      assert ks[..n][1..] == ks[1..][..n - 1];
    }
  }

  /**
   A page is the next `limit` keys after the cursor, in order: nothing before one of its rows is left out, and a
   short page leaves nothing out at all.
   */
  lemma PageSpec(ks: seq<Key>, from: Option<Key>, limit: nat, desc: bool, numbered: bool)
    requires Distinct(ks) && OneKind(ks, numbered) && (from.Some? ==> from.value.key.Some? == numbered)
    ensures var p := Page(ks, from, limit, desc);
            && |p| <= limit && Ascending(p, desc)
            && (forall x :: x in p ==> x in ks && (from.Some? ==> Less(from.value, x, desc)))
            && (forall x, y :: x in p && y in ks && y !in p && (from.Some? ==> Less(from.value, y, desc)) ==>
                  Less(x, y, desc))
            && (|p| < limit ==> forall y :: y in ks && (from.Some? ==> Less(from.value, y, desc)) ==> y in p)
  {
    SortSpec(ks, desc, numbered);
    PastSpec(Sort(ks, desc), from, desc);
    TakeSpec(Past(Sort(ks, desc), from, desc), limit, desc);
    if from.Some? {
      forall x | x in ks ensures Compare(x, from.value, desc) > 0 <==> Less(from.value, x, desc) {
        OrderIsTotal(x, from.value, desc);
      }
    }
  }

  // ----- a walk, page by page, while the folder changes -----

  /** Rows so far, the cursor for the next page, and whether the last page was reached. */
  datatype Walk = Walk(rows: seq<Key>, cursor: Option<Key>, done: bool)

  function NextPage(w: Walk, ks: seq<Key>, size: nat, desc: bool): Walk {
    if w.done then w
    else
      var p := Page(ks, w.cursor, size, desc);
      if |p| == 0 then Walk(w.rows, None, true) else Walk(w.rows + p, Some(p[|p| - 1]), |p| < size)
  }

  /** `folder(t)`: the keys of the folder when page `t` is asked for. */
  function Walked(folder: nat -> seq<Key>, size: nat, desc: bool, t: nat): Walk {
    if t == 0 then Walk([], None, false)
    else NextPage(Walked(folder, size, desc, t - 1), folder(t - 1), size, desc)
  }

  ghost predicate Folders(folder: nat -> seq<Key>, numbered: bool) {
    forall t: nat :: Distinct(folder(t)) && OneKind(folder(t), numbered)
  }

  lemma {:induction false} LastIsGreatest(ks: seq<Key>, desc: bool)
    requires Ascending(ks, desc) && |ks| > 0
    ensures forall k :: k in ks && k != ks[|ks| - 1] ==> Less(k, ks[|ks| - 1], desc)
  {
    if |ks| > 1 {
      assert ks == [ks[0]] + ks[1..];
      LastIsGreatest(ks[1..], desc);
      assert ks[|ks| - 1] in ks[1..];
    }
  }

  lemma {:induction false} AscendingConcat(a: seq<Key>, b: seq<Key>, desc: bool)
    requires Ascending(a, desc) && Ascending(b, desc)
    requires forall x, y :: x in a && y in b ==> Less(x, y, desc)
    ensures Ascending(a + b, desc)
  {
    if |a| == 0 {
      assert a + b == b;
    } else {
      assert a == [a[0]] + a[1..];
      assert (a + b)[1..] == a[1..] + b;
      AscendingConcat(a[1..], b, desc);
    }
  }

  /** What holds of a walk after any number of pages. */
  ghost predicate WalkOk(w: Walk, desc: bool, numbered: bool) {
    && Ascending(w.rows, desc) && OneKind(w.rows, numbered)
    && (!w.done && |w.rows| > 0 ==> w.cursor.Some?)
    && (w.cursor.Some? ==>
          && w.cursor.value.key.Some? == numbered && w.cursor.value in w.rows
          && forall k :: k in w.rows ==> k == w.cursor.value || Less(k, w.cursor.value, desc))
  }

  lemma NextStaysOk(w: Walk, ks: seq<Key>, size: nat, desc: bool, numbered: bool)
    requires WalkOk(w, desc, numbered) && Distinct(ks) && OneKind(ks, numbered)
    ensures WalkOk(NextPage(w, ks, size, desc), desc, numbered)
  {
    if !w.done {
      var p := Page(ks, w.cursor, size, desc);
      PageSpec(ks, w.cursor, size, desc, numbered);
      if |p| > 0 { PageExtends(w, p, desc, numbered); }
    }
  }

  lemma {:induction false} WalkStaysOk(folder: nat -> seq<Key>, size: nat, desc: bool, numbered: bool, t: nat)
    requires Folders(folder, numbered)
    ensures WalkOk(Walked(folder, size, desc, t), desc, numbered)
  {
    if t > 0 {
      WalkStaysOk(folder, size, desc, numbered, t - 1);
      FolderAt(folder, numbered, t - 1);
      NextStaysOk(Walked(folder, size, desc, t - 1), folder(t - 1), size, desc, numbered);
    }
  }

  lemma FolderAt(folder: nat -> seq<Key>, numbered: bool, t: nat)
    requires Folders(folder, numbered)
    ensures Distinct(folder(t)) && OneKind(folder(t), numbered)
  {
  }

  lemma PageExtends(w: Walk, p: seq<Key>, desc: bool, numbered: bool)
    requires WalkOk(w, desc, numbered) && !w.done && Ascending(p, desc) && OneKind(p, numbered) && |p| > 0
    requires forall x :: x in p ==> (w.cursor.Some? ==> Less(w.cursor.value, x, desc))
    ensures WalkOk(Walk(w.rows + p, Some(p[|p| - 1]), false), desc, numbered)
  {
    forall x, y | x in w.rows && y in p ensures Less(x, y, desc) {
      if x != w.cursor.value { OrderIsTransitive(x, w.cursor.value, y, desc); }
    }
    AscendingConcat(w.rows, p, desc);
    LastIsGreatest(p, desc);
  }

  /** Listed already, or still ahead. */
  ghost predicate Accounted(w: Walk, k: Key, desc: bool) {
    k in w.rows || (!w.done && (w.cursor.Some? ==> Less(w.cursor.value, k, desc)))
  }

  /** A key is on the next page, or that page is full and ends before it. */
  lemma NextAccounts(w: Walk, ks: seq<Key>, size: nat, desc: bool, numbered: bool, k: Key)
    requires WalkOk(w, desc, numbered) && Distinct(ks) && OneKind(ks, numbered) && size > 0
    requires k in ks && Accounted(w, k, desc)
    ensures Accounted(NextPage(w, ks, size, desc), k, desc)
  {
    if k !in w.rows {
      var p := Page(ks, w.cursor, size, desc);
      PageSpec(ks, w.cursor, size, desc, numbered);
      if k !in p {
        assert p[|p| - 1] in p;
      }
    }
  }

  /**
   A node with the same key in the folder all along is listed by the time the walk has passed its key, or has
   ended.
   */
  lemma {:induction false} StayingIsListed(folder: nat -> seq<Key>, size: nat, desc: bool, numbered: bool, t: nat,
      k: Key)
    requires Folders(folder, numbered) && size > 0
    requires forall i: nat :: i < t ==> k in folder(i)
    ensures Accounted(Walked(folder, size, desc, t), k, desc)
  {
    if t > 0 {
      StayingIsListed(folder, size, desc, numbered, t - 1, k);
      WalkStaysOk(folder, size, desc, numbered, t - 1);
      FolderAt(folder, numbered, t - 1);
      NextAccounts(Walked(folder, size, desc, t - 1), folder(t - 1), size, desc, numbered, k);
    }
  }

  lemma {:induction false} AscendingOnce(ks: seq<Key>, desc: bool, i: nat, j: nat)
    requires Ascending(ks, desc) && i < j < |ks|
    ensures Less(ks[i], ks[j], desc)
  {
    if i == 0 {
      assert ks[j] == ks[1..][j - 1];
    } else {
      AscendingOnce(ks[1..], desc, i - 1, j - 1);
    }
  }

  /**
   A walk that reached its end lists every node that was there unchanged all along exactly once, and all its rows
   in order, whatever else came and went meanwhile.
   */
  lemma WalkIsExact(folder: nat -> seq<Key>, size: nat, desc: bool, numbered: bool, t: nat, k: Key)
    requires Folders(folder, numbered) && size > 0
    requires Walked(folder, size, desc, t).done
    requires forall i: nat :: i < t ==> k in folder(i)
    ensures var rows := Walked(folder, size, desc, t).rows;
            && (exists i :: 0 <= i < |rows| && rows[i] == k && forall j :: 0 <= j < |rows| && rows[j] == k ==> j == i)
            && (forall i, j :: 0 <= i < j < |rows| ==> Less(rows[i], rows[j], desc))
  {
    StayingIsListed(folder, size, desc, numbered, t, k);
    WalkStaysOk(folder, size, desc, numbered, t);
    var rows := Walked(folder, size, desc, t).rows;
    forall i, j | 0 <= i < j < |rows| ensures Less(rows[i], rows[j], desc) && rows[i] != rows[j] {
      AscendingOnce(rows, desc, i, j);
      OrderIsTotal(rows[i], rows[j], desc);
    }
    var i :| 0 <= i < |rows| && rows[i] == k;
  }

  /** Every row listed was in the folder when its page was asked for. */
  lemma {:induction false} ListedWasThere(folder: nat -> seq<Key>, size: nat, desc: bool, numbered: bool, t: nat,
      k: Key)
    requires Folders(folder, numbered) && k in Walked(folder, size, desc, t).rows
    ensures exists i: nat :: i < t && k in folder(i)
  {
    var w := Walked(folder, size, desc, t - 1);
    if k in w.rows {
      ListedWasThere(folder, size, desc, numbered, t - 1, k);
    } else {
      WalkStaysOk(folder, size, desc, numbered, t - 1);
      FolderAt(folder, numbered, t - 1);
      PageSpec(folder(t - 1), w.cursor, size, desc, numbered);
      assert k in folder(t - 1);
    }
  }

  /** With one key without a number and one with the number 0, each would come after the other. */
  lemma MixedKeysDoNotOrder()
    ensures var x, y := Key(1, None, [97], [1]), Key(1, Some(0), [97], [1]);
            Compare(x, y, false) > 0 && Compare(y, x, false) > 0
  {
  }
}
