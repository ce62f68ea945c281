/**
 The records of the cache of decrypted fragments on disk (class FragDiskCache of the desktop agent): which of them a
 trim leaves, and which pinning keeps. A fragment's key is "<version>:<index>"; the names of the files, hashes of the
 keys, stand for the keys here. The clock is a parameter.
 */
module FragCache {
  import opened Basics

  /** What the cache records of a file: its size and when it was last read or written. */
  datatype Meta = Meta(name: string, size: nat, at: int)

  // ----- the records, in the order of a JavaScript Map -----

  function Total(ms: seq<Meta>): nat {
    if |ms| == 0 then 0 else Total(ms[..|ms| - 1]) + ms[|ms| - 1].size
  }

  function Lookup(ms: seq<Meta>, k: string): Option<Meta> {
    if |ms| == 0 then None
    else if ms[|ms| - 1].name == k then Some(ms[|ms| - 1])
    else Lookup(ms[..|ms| - 1], k)
  }

  function Without(ms: seq<Meta>, k: string): seq<Meta> {
    if |ms| == 0 then []
    else Without(ms[..|ms| - 1], k) + if ms[|ms| - 1].name == k then [] else [ms[|ms| - 1]]
  }

  function Used(m: Meta, k: string, now: int): Meta { if m.name == k then m.(at := now) else m }

  function Touched(ms: seq<Meta>, k: string, now: int): (r: seq<Meta>)
    ensures |r| == |ms| && forall i :: 0 <= i < |ms| ==> r[i] == Used(ms[i], k, now)
  {
    seq(|ms|, i requires 0 <= i < |ms| => Used(ms[i], k, now))
  }

  ghost predicate Distinct(ms: seq<Meta>) {
    |ms| == 0 || (Distinct(ms[..|ms| - 1]) && forall m :: m in ms[..|ms| - 1] ==> m.name != ms[|ms| - 1].name)
  }

  // ----- oldest first -----

  /** Put behind every record as old (a stable sort keeps the order of equal times). */
  function Insert(ms: seq<Meta>, m: Meta): seq<Meta> {
    if |ms| == 0 || ms[|ms| - 1].at <= m.at then ms + [m] else Insert(ms[..|ms| - 1], m) + [ms[|ms| - 1]]
  }

  function ByUse(ms: seq<Meta>): seq<Meta> {
    if |ms| == 0 then [] else Insert(ByUse(ms[..|ms| - 1]), ms[|ms| - 1])
  }

  ghost predicate OldestFirst(ms: seq<Meta>) {
    |ms| == 0 || (OldestFirst(ms[1..]) && forall m :: m in ms[1..] ==> ms[0].at <= m.at)
  }

  // ----- which files go -----

  /** The records evicted, in the order they go: the oldest not kept until the rest fits. */
  function Victims(order: seq<Meta>, used: int, limit: int, keep: set<string>): seq<Meta> {
    if |order| == 0 || used <= limit then []
    else if order[0].name in keep then Victims(order[1..], used, limit, keep)
    else [order[0]] + Victims(order[1..], used - order[0].size, limit, keep)
  }

  function WithoutAll(ms: seq<Meta>, gone: seq<Meta>): seq<Meta>
  {
    if |gone| == 0 then ms else Without(WithoutAll(ms, gone[..|gone| - 1]), gone[|gone| - 1].name)
  }

  /** A map without the keys of the evicted files. */
  function Minus<V>(m: map<string, V>, gone: seq<Meta>): map<string, V> {
    if |gone| == 0 then m else Minus(m, gone[..|gone| - 1]) - {gone[|gone| - 1].name}
  }

  // ----- facts about the records -----

  lemma {:induction false} WithoutSpec(ms: seq<Meta>, k: string)
    ensures forall m :: m in Without(ms, k) <==> m in ms && m.name != k
    ensures Distinct(ms) ==> Distinct(Without(ms, k))
  {
    if |ms| > 0 {
      var init, last := ms[..|ms| - 1], ms[|ms| - 1];
      assert ms == init + [last];
      WithoutSpec(init, k);
      AppendLast(Without(init, k), last);
      assert Without(init, k) + [] == Without(init, k);
    }
  }

  lemma {:induction false} LookupSpec(ms: seq<Meta>, k: string)
    requires Distinct(ms)
    ensures Lookup(ms, k).Some? ==> Lookup(ms, k).value in ms && Lookup(ms, k).value.name == k
    ensures forall m :: m in ms && m.name == k ==> Lookup(ms, k) == Some(m)
  {
    if |ms| > 0 {
      var init, last := ms[..|ms| - 1], ms[|ms| - 1];
      assert ms == init + [last];
      LookupSpec(init, k);
    }
  }

  lemma {:induction false} TotalWithout(ms: seq<Meta>, m: Meta)
    requires Distinct(ms) && m in ms
    ensures Total(Without(ms, m.name)) == Total(ms) - m.size
  {
    var init, last := ms[..|ms| - 1], ms[|ms| - 1];
    assert ms == init + [last];
    var w := Without(init, m.name);
    if last == m {
      NothingWithout(init, m.name);
      assert w + [] == w;
    } else {
      TotalWithout(init, m);
      assert last.name != m.name;
      TotalAppend(w, last);
    }
  }

  lemma TotalAppend(ms: seq<Meta>, m: Meta)
    ensures Total(ms + [m]) == Total(ms) + m.size
  {
    AppendLast(ms, m);
  }

  lemma {:induction false} NothingWithout(ms: seq<Meta>, k: string)
    requires forall m :: m in ms ==> m.name != k
    ensures Without(ms, k) == ms
  {
    if |ms| > 0 {
      var init, last := ms[..|ms| - 1], ms[|ms| - 1];
      assert last in ms;
      forall m | m in init ensures m.name != k {
        assert m in ms;
      }
      NothingWithout(init, k);
      assert Without(ms, k) == Without(init, k) + [last];
      assert ms == init + [last];
    }
  }

  lemma {:induction false} TouchedSpec(ms: seq<Meta>, k: string, now: int)
    ensures Total(Touched(ms, k, now)) == Total(ms)
    ensures Distinct(ms) ==> Distinct(Touched(ms, k, now))
  {
    if |ms| > 0 {
      var init, last := ms[..|ms| - 1], ms[|ms| - 1];
      TouchedSpec(init, k, now);
      assert Touched(ms, k, now)[..|ms| - 1] == Touched(init, k, now);
      if Distinct(ms) {
        forall m | m in Touched(init, k, now) ensures m.name != last.name {
          var i :| 0 <= i < |init| && m == Used(init[i], k, now);
          assert init[i] in init;
        }
      }
    }
  }

  // ----- facts about the order -----

  lemma {:induction false} InsertMembers(ms: seq<Meta>, m: Meta)
    ensures multiset(Insert(ms, m)) == multiset(ms) + multiset{m}
  {
    if !(|ms| == 0 || ms[|ms| - 1].at <= m.at) {
      InsertMembers(ms[..|ms| - 1], m);
      assert ms == ms[..|ms| - 1] + [ms[|ms| - 1]];
    }
  }

  /** The same records, oldest first. */
  lemma {:induction false} ByUseMembers(ms: seq<Meta>)
    ensures multiset(ByUse(ms)) == multiset(ms)
  {
    if |ms| > 0 {
      ByUseMembers(ms[..|ms| - 1]);
      InsertMembers(ByUse(ms[..|ms| - 1]), ms[|ms| - 1]);
      assert ms == ms[..|ms| - 1] + [ms[|ms| - 1]];
    }
  }

  lemma SameMembers(a: seq<Meta>, b: seq<Meta>, m: Meta)
    requires multiset(a) == multiset(b)
    ensures m in a <==> m in b
  {
    assert m in a <==> m in multiset(a);
    assert m in b <==> m in multiset(b);
  }

  lemma {:induction false} OldestFirstAppend(ms: seq<Meta>, m: Meta)
    requires OldestFirst(ms) && forall x :: x in ms ==> x.at <= m.at
    ensures OldestFirst(ms + [m])
  {
    if |ms| > 0 {
      OldestFirstAppend(ms[1..], m);
      assert (ms + [m])[1..] == ms[1..] + [m];
    }
  }

  lemma {:induction false} OldestFirstInit(ms: seq<Meta>)
    requires OldestFirst(ms) && |ms| > 0
    ensures OldestFirst(ms[..|ms| - 1])
    ensures forall x :: x in ms[..|ms| - 1] ==> x.at <= ms[|ms| - 1].at
  {
    if |ms| > 1 {
      OldestFirstInit(ms[1..]);
      assert ms[1..][..|ms| - 2] == ms[..|ms| - 1][1..];
      assert ms[..|ms| - 1] == [ms[0]] + ms[1..][..|ms| - 2];
      assert ms[|ms| - 1] in ms[1..];
    }
  }

  lemma {:induction false} InsertOrder(ms: seq<Meta>, m: Meta)
    requires OldestFirst(ms)
    ensures OldestFirst(Insert(ms, m))
  {
    if |ms| > 0 {
      OldestFirstInit(ms);
      var init, last := ms[..|ms| - 1], ms[|ms| - 1];
      assert ms == init + [last];
      if last.at <= m.at {
        OldestFirstAppend(ms, m);
      } else {
        InsertOrder(init, m);
        InsertMembers(init, m);
        forall x | x in Insert(init, m) ensures x.at <= last.at {
          assert x in multiset(Insert(init, m));
          assert x in multiset(init) || x == m;
        }
        OldestFirstAppend(Insert(init, m), last);
      }
    }
  }

  lemma {:induction false} ByUseOrder(ms: seq<Meta>)
    ensures OldestFirst(ByUse(ms))
  {
    if |ms| > 0 {
      ByUseOrder(ms[..|ms| - 1]);
      InsertOrder(ByUse(ms[..|ms| - 1]), ms[|ms| - 1]);
    }
  }

  // ----- what a trim does -----

  lemma {:induction false} VictimsFrom(order: seq<Meta>, used: int, limit: int, keep: set<string>, m: Meta)
    requires m in Victims(order, used, limit, keep)
    ensures m in order && m.name !in keep
  {
    if order[0].name !in keep && m != order[0] {
      VictimsFrom(order[1..], used - order[0].size, limit, keep, m);
    } else if order[0].name in keep {
      VictimsFrom(order[1..], used, limit, keep, m);
    }
  }

  /** Either it fits afterwards or every record left is kept. */
  lemma {:induction false} VictimsEnough(order: seq<Meta>, used: int, limit: int, keep: set<string>, m: Meta)
    requires m in order && m !in Victims(order, used, limit, keep)
    requires used - Total(Victims(order, used, limit, keep)) > limit
    ensures m.name in keep
  {
    if |order| > 0 && used > limit {
      if order[0].name in keep {
        if m != order[0] { VictimsEnough(order[1..], used, limit, keep, m); }
      } else {
        TotalFirst(order[0], Victims(order[1..], used - order[0].size, limit, keep));
        VictimsEnough(order[1..], used - order[0].size, limit, keep, m);
      }
    }
  }

  lemma {:induction false} TotalFirst(m: Meta, ms: seq<Meta>)
    ensures Total([m] + ms) == m.size + Total(ms)
  {
    if |ms| == 0 {
      assert [m] + ms == [m];
      assert [m][..0] == [];
      assert Total([m]) == Total([m][..0]) + m.size;
    } else {
      assert ([m] + ms)[..|ms|] == [m] + ms[..|ms| - 1];
      TotalFirst(m, ms[..|ms| - 1]);
    }
  }

  /** No record left that is not kept was used before an evicted one. */
  lemma {:induction false} VictimsOldest(order: seq<Meta>, used: int, limit: int, keep: set<string>, gone: Meta,
      left: Meta)
    requires OldestFirst(order)
    requires gone in Victims(order, used, limit, keep)
    requires left in order && left !in Victims(order, used, limit, keep) && left.name !in keep
    ensures gone.at <= left.at
  {
    var first := order[0];
    if first.name in keep {
      VictimsOldest(order[1..], used, limit, keep, gone, left);
    } else if gone != first {
      VictimsOldest(order[1..], used - first.size, limit, keep, gone, left);
    } else {
      assert left in order[1..];
    }
  }

  /** One eviction fewer would not have been enough. */
  lemma {:induction false} VictimsMinimal(order: seq<Meta>, used: int, limit: int, keep: set<string>)
    ensures var v := Victims(order, used, limit, keep);
            |v| > 0 ==> used - Total(v[..|v| - 1]) > limit
  {
    if |order| > 0 && used > limit {
      if order[0].name in keep {
        VictimsMinimal(order[1..], used, limit, keep);
      } else {
        var rest := Victims(order[1..], used - order[0].size, limit, keep);
        VictimsMinimal(order[1..], used - order[0].size, limit, keep);
        var v := [order[0]] + rest;
        if |rest| > 0 {
          assert v[..|v| - 1] == [order[0]] + rest[..|rest| - 1];
          TotalFirst(order[0], rest[..|rest| - 1]);
        } else {
          assert v[..|v| - 1] == [];
        }
      }
    }
  }

  lemma {:induction false} WithoutAllMembers(ms: seq<Meta>, gone: seq<Meta>)
    requires Distinct(ms) && forall m :: m in gone ==> m in ms
    ensures Distinct(WithoutAll(ms, gone))
    ensures forall m :: m in WithoutAll(ms, gone) <==> m in ms && m !in gone
  {
    if |gone| > 0 {
      var init, g := gone[..|gone| - 1], gone[|gone| - 1];
      assert gone == init + [g];
      WithoutAllMembers(ms, init);
      WithoutSpec(WithoutAll(ms, init), g.name);
      forall m | m in ms && m.name == g.name ensures m == g {
        SameName(ms, m, g);
      }
    }
  }

  lemma {:induction false} WithoutAllTotal(ms: seq<Meta>, gone: seq<Meta>)
    requires Distinct(ms) && Distinct(gone) && forall m :: m in gone ==> m in ms
    ensures Total(WithoutAll(ms, gone)) == Total(ms) - Total(gone)
  {
    if |gone| > 0 {
      var init, g := gone[..|gone| - 1], gone[|gone| - 1];
      assert gone == init + [g];
      WithoutAllTotal(ms, init);
      WithoutAllMembers(ms, init);
      assert g !in init;
      TotalWithout(WithoutAll(ms, init), g);
      TotalAppend(init, g);
    }
  }

  lemma {:induction false} SameName(ms: seq<Meta>, a: Meta, b: Meta)
    requires Distinct(ms) && a in ms && b in ms && a.name == b.name
    ensures a == b
  {
    var init, last := ms[..|ms| - 1], ms[|ms| - 1];
    assert ms == init + [last];
    if a != last && b != last {
      SameName(init, a, b);
    }
  }

  lemma {:induction false} DistinctTail(ms: seq<Meta>)
    requires Distinct(ms) && |ms| > 0
    ensures Distinct(ms[1..]) && forall m :: m in ms[1..] ==> m.name != ms[0].name
  {
    if |ms| > 1 {
      var init, last := ms[..|ms| - 1], ms[|ms| - 1];
      DistinctTail(init);
      assert ms[1..][..|ms| - 2] == init[1..];
      assert ms[1..] == init[1..] + [last];
      assert init[0] in init;
    }
  }

  lemma {:induction false} InsertDistinct(ms: seq<Meta>, m: Meta)
    requires Distinct(ms) && forall x :: x in ms ==> x.name != m.name
    ensures Distinct(Insert(ms, m))
  {
    if |ms| == 0 || ms[|ms| - 1].at <= m.at {
      AppendLast(ms, m);
    } else {
      var init, last := ms[..|ms| - 1], ms[|ms| - 1];
      assert ms == init + [last];
      InsertDistinct(init, m);
      InsertMembers(init, m);
      forall x | x in Insert(init, m) ensures x.name != last.name {
        assert x in multiset(Insert(init, m));
        assert x in multiset(init) || x == m;
        assert last in ms;
      }
      AppendLast(Insert(init, m), last);
    }
  }

  lemma {:induction false} ByUseDistinct(ms: seq<Meta>)
    requires Distinct(ms)
    ensures Distinct(ByUse(ms))
  {
    if |ms| > 0 {
      var init, last := ms[..|ms| - 1], ms[|ms| - 1];
      ByUseDistinct(init);
      ByUseMembers(init);
      forall x | x in ByUse(init) ensures x.name != last.name {
        SameMembers(ByUse(init), init, x);
      }
      InsertDistinct(ByUse(init), last);
    }
  }

  lemma {:induction false} DistinctCons(m: Meta, ms: seq<Meta>)
    requires Distinct(ms) && forall x :: x in ms ==> x.name != m.name
    ensures Distinct([m] + ms)
  {
    if |ms| == 0 {
      assert [m] + ms == [m];
      assert [m][..0] == [];
      assert Distinct([m][..0]);
    } else {
      var init, last := ms[..|ms| - 1], ms[|ms| - 1];
      assert ([m] + ms)[..|ms|] == [m] + init;
      assert ms == init + [last];
      DistinctCons(m, init);
    }
  }

  lemma {:induction false} VictimsDistinct(order: seq<Meta>, used: int, limit: int, keep: set<string>)
    requires Distinct(order)
    ensures Distinct(Victims(order, used, limit, keep))
  {
    if |order| > 0 && used > limit {
      DistinctTail(order);
      if order[0].name in keep {
        VictimsDistinct(order[1..], used, limit, keep);
      } else {
        var rest := Victims(order[1..], used - order[0].size, limit, keep);
        VictimsDistinct(order[1..], used - order[0].size, limit, keep);
        forall x | x in rest ensures x.name != order[0].name {
          VictimsFrom(order[1..], used - order[0].size, limit, keep, x);
        }
        DistinctCons(order[0], rest);
      }
    }
  }

  /** What is still to be looked at is kept by the records of now exactly when it was at the start. */
  ghost predicate SamePins(rest: seq<Meta>, owner: map<string, string>, pinned: set<string>, keep: set<string>) {
    |rest| == 0 ||
    ((rest[0].name in keep <==> IsPinned(rest[0].name, owner, pinned)) && SamePins(rest[1..], owner, pinned, keep))
  }

  lemma {:induction false} SamePinsAtStart(rest: seq<Meta>, owner: map<string, string>, pinned: set<string>)
    ensures SamePins(rest, owner, pinned, Pinned(owner, pinned))
  {
    if |rest| > 0 {
      SamePinsAtStart(rest[1..], owner, pinned);
    }
  }

  /** Forgetting the owner of a name that is not ahead changes nothing ahead. */
  lemma {:induction false} SamePinsWithout(rest: seq<Meta>, owner: map<string, string>, pinned: set<string>,
      keep: set<string>, n: string)
    requires SamePins(rest, owner, pinned, keep) && !Ahead(rest, n)
    ensures SamePins(rest, owner - {n}, pinned, keep)
  {
    if |rest| > 0 {
      SamePinsWithout(rest[1..], owner, pinned, keep, n);
    }
  }

  predicate Ahead(rest: seq<Meta>, n: string) {
    |rest| > 0 && (rest[0].name == n || Ahead(rest[1..], n))
  }

  ghost predicate DistinctAhead(rest: seq<Meta>) {
    |rest| == 0 || (DistinctAhead(rest[1..]) && !Ahead(rest[1..], rest[0].name))
  }

  lemma {:induction false} NotAhead(rest: seq<Meta>, n: string)
    requires forall m :: m in rest ==> m.name != n
    ensures !Ahead(rest, n)
  {
    if |rest| > 0 {
      assert rest[0] in rest;
      NotAhead(rest[1..], n);
    }
  }

  lemma {:induction false} DistinctIsAhead(ms: seq<Meta>)
    requires Distinct(ms)
    ensures DistinctAhead(ms)
  {
    if |ms| > 0 {
      DistinctTail(ms);
      DistinctIsAhead(ms[1..]);
      NotAhead(ms[1..], ms[0].name);
    }
  }

  /** What a trim changes. */
  datatype Shelf = Shelf(meta: seq<Meta>, used: int, owner: map<string, string>, files: map<string, Bytes>)

  function EvictFrom(s: Shelf, order: seq<Meta>, limit: int, pinned: set<string>): Shelf
    decreases |order|
  {
    if |order| == 0 || s.used <= limit then s
    else
      var m := order[0];
      if IsPinned(m.name, s.owner, pinned) then EvictFrom(s, order[1..], limit, pinned)
      else
        EvictFrom(Shelf(Without(s.meta, m.name), s.used - m.size, s.owner - {m.name}, s.files - {m.name}),
          order[1..], limit, pinned)
  }

  lemma ConsLast<T>(x: T, s: seq<T>)
    requires |s| > 0
    ensures var r := [x] + s; r[..|r| - 1] == [x] + s[..|s| - 1] && r[|r| - 1] == s[|s| - 1] && |r| > 0
  {
  }

  lemma {:induction false} WithoutAllFirst(ms: seq<Meta>, g: Meta, gone: seq<Meta>)
    ensures WithoutAll(ms, [g] + gone) == WithoutAll(Without(ms, g.name), gone)
  {
    if |gone| == 0 {
      assert [g] + gone == [] + [g];
      AppendLast([], g);
    } else {
      var init, last := gone[..|gone| - 1], gone[|gone| - 1];
      ConsLast(g, gone);
      WithoutAllFirst(ms, g, init);
      assert WithoutAll(ms, [g] + gone) == Without(WithoutAll(ms, [g] + init), last.name);
    }
  }

  lemma {:induction false} MinusFirst<V>(m: map<string, V>, g: Meta, gone: seq<Meta>)
    ensures Minus(m, [g] + gone) == Minus(m - {g.name}, gone)
  {
    if |gone| == 0 {
      assert [g] + gone == [] + [g];
      AppendLast([], g);
    } else {
      var init, last := gone[..|gone| - 1], gone[|gone| - 1];
      ConsLast(g, gone);
      MinusFirst(m, g, init);
      assert Minus(m, [g] + gone) == Minus(m, [g] + init) - {last.name};
      assert Minus(m - {g.name}, gone) == Minus(m - {g.name}, init) - {last.name};
    }
  }

  lemma {:induction false} EvictFromSpec(s: Shelf, order: seq<Meta>, limit: int, pinned: set<string>, keep: set<string>)
    requires DistinctAhead(order) && SamePins(order, s.owner, pinned, keep)
    ensures EvictFrom(s, order, limit, pinned) == Evicted(s, Victims(order, s.used, limit, keep))
    decreases |order|
  {
    if |order| > 0 && s.used > limit {
      var m := order[0];
      if IsPinned(m.name, s.owner, pinned) {
        EvictFromSpec(s, order[1..], limit, pinned, keep);
      } else {
        var s' := Shelf(Without(s.meta, m.name), s.used - m.size, s.owner - {m.name}, s.files - {m.name});
        var gone := Victims(order[1..], s'.used, limit, keep);
        SamePinsWithout(order[1..], s.owner, pinned, keep, m.name);
        EvictFromSpec(s', order[1..], limit, pinned, keep);
        EvictOne(s, m, gone);
      }
    }
  }

  /** What a trim that evicts `gone` leaves. */
  function Evicted(s: Shelf, gone: seq<Meta>): Shelf {
    Shelf(WithoutAll(s.meta, gone), s.used - Total(gone), Minus(s.owner, gone), Minus(s.files, gone))
  }

  lemma EvictOne(s: Shelf, m: Meta, gone: seq<Meta>)
    ensures Evicted(s, [m] + gone) ==
            Evicted(Shelf(Without(s.meta, m.name), s.used - m.size, s.owner - {m.name}, s.files - {m.name}), gone)
  {
    WithoutAllFirst(s.meta, m, gone);
    MinusFirst(s.owner, m, gone);
    MinusFirst(s.files, m, gone);
    TotalFirst(m, gone);
  }

  lemma OrderOfMeta(ms: seq<Meta>)
    requires Distinct(ms)
    ensures DistinctAhead(ByUse(ms)) && forall m :: m in ByUse(ms) ==> m in ms
  {
    ByUseMembers(ms);
    ByUseDistinct(ms);
    DistinctIsAhead(ByUse(ms));
    forall m | m in ByUse(ms) ensures m in ms {
      SameMembers(ByUse(ms), ms, m);
    }
  }

  // ----- what a trim promises -----

  /** The records a trim leaves of `ms`. */
  function Trimmed(ms: seq<Meta>, limit: int, keep: set<string>): seq<Meta> {
    WithoutAll(ms, Victims(ByUse(ms), Total(ms), limit, keep))
  }

  lemma TrimmedMembers(ms: seq<Meta>, limit: int, keep: set<string>)
    requires Distinct(ms)
    ensures var gone := Victims(ByUse(ms), Total(ms), limit, keep);
            && Distinct(Trimmed(ms, limit, keep))
            && (forall m :: m in gone ==> m in ms && m.name !in keep)
            && (forall m :: m in Trimmed(ms, limit, keep) <==> m in ms && m !in gone)
            && Total(Trimmed(ms, limit, keep)) == Total(ms) - Total(gone)
  {
    var order := ByUse(ms);
    var gone := Victims(order, Total(ms), limit, keep);
    ByUseMembers(ms);
    ByUseDistinct(ms);
    VictimsDistinct(order, Total(ms), limit, keep);
    forall m | m in gone ensures m in ms && m.name !in keep {
      VictimsFrom(order, Total(ms), limit, keep, m);
      SameMembers(order, ms, m);
    }
    WithoutAllMembers(ms, gone);
    WithoutAllTotal(ms, gone);
  }

  /**
   After a trim the rest fits or is all kept; nothing kept was evicted; no record left that could have gone was
   used before an evicted one.
   */
  lemma TrimKeepsRecent(ms: seq<Meta>, limit: int, keep: set<string>)
    requires Distinct(ms)
    ensures var left := Trimmed(ms, limit, keep);
            && (Total(left) <= limit || forall m :: m in left ==> m.name in keep)
            && (forall m :: m in ms && m.name in keep ==> m in left)
            && (forall m :: m in left ==> m in ms)
            && (forall g, m :: g in ms && g !in left && m in left && m.name !in keep ==> g.at <= m.at)
  {
    var order, left := ByUse(ms), Trimmed(ms, limit, keep);
    var gone := Victims(order, Total(ms), limit, keep);
    TrimmedMembers(ms, limit, keep);
    ByUseMembers(ms);
    ByUseOrder(ms);
    if Total(left) > limit {
      forall m | m in left ensures m.name in keep {
        SameMembers(order, ms, m);
        VictimsEnough(order, Total(ms), limit, keep, m);
      }
    }
    forall g, m | g in ms && g !in left && m in left && m.name !in keep ensures g.at <= m.at {
      SameMembers(order, ms, m);
      VictimsOldest(order, Total(ms), limit, keep, g, m);
    }
  }

  /** Evicting one record fewer would have left it over the limit. */
  lemma TrimIsMinimal(ms: seq<Meta>, limit: int, keep: set<string>)
    requires Distinct(ms)
    ensures var gone := Victims(ByUse(ms), Total(ms), limit, keep);
            && (|gone| > 0 ==> Total(ms) - Total(gone[..|gone| - 1]) > limit)
            && (Total(ms) <= limit <==> Trimmed(ms, limit, keep) == ms && Total(Trimmed(ms, limit, keep)) <= limit)
  {
    var gone := Victims(ByUse(ms), Total(ms), limit, keep);
    VictimsMinimal(ByUse(ms), Total(ms), limit, keep);
  }

  // ----- one record -----

  /** The bytes of the records before `m` that may go. */
  function OlderFree(order: seq<Meta>, keep: set<string>, m: Meta): nat {
    if |order| == 0 || order[0] == m then 0
    else (if order[0].name in keep then 0 else order[0].size) + OlderFree(order[1..], keep, m)
  }

  lemma {:induction false} VictimIff(order: seq<Meta>, used: int, limit: int, keep: set<string>, m: Meta)
    requires m in order && m.name !in keep
    ensures m in Victims(order, used, limit, keep) <==> used - OlderFree(order, keep, m) > limit
    decreases |order|
  {
    if used > limit && order[0] != m {
      VictimIff(order[1..], if order[0].name in keep then used else used - order[0].size, limit, keep, m);
    }
  }

  /** A record stays exactly when it is kept, or what is left fits once all older ones that may go are gone. */
  lemma TrimStaysIff(ms: seq<Meta>, limit: int, keep: set<string>, m: Meta)
    requires Distinct(ms) && m in ms
    ensures m in Trimmed(ms, limit, keep) <==> m.name in keep || Total(ms) - OlderFree(ByUse(ms), keep, m) <= limit
  {
    TrimmedMembers(ms, limit, keep);
    if m.name !in keep {
      ByUseMembers(ms);
      SameMembers(ms, ByUse(ms), m);
      VictimIff(ByUse(ms), Total(ms), limit, keep, m);
    }
  }

  // ----- pinning -----

  /** The version of a fragment's key: what stands before the first colon. */
  function VersionOf(k: string): string {
    if |k| == 0 || k[0] == ':' then "" else [k[0]] + VersionOf(k[1..])
  }

  /** Kept by a trim: recorded for a version (an empty one does not count) that is open. */
  function Pinned(owner: map<string, string>, pinned: set<string>): set<string> {
    set n | n in owner && IsPinned(n, owner, pinned)
  }

  predicate IsPinned(n: string, owner: map<string, string>, pinned: set<string>) {
    n in owner && owner[n] != "" && owner[n] in pinned
  }

  /** A fragment an earlier run left is not kept by a trim, whatever is open: its version is not recorded. */
  lemma LeftoverIsNotKept(found: seq<Meta>, limit: nat, open: set<string>)
    requires Distinct(found)
    ensures Total(Trimmed(found, limit, Pinned(map[], open))) <= limit
  {
    assert Pinned(map[], open) == {};
    TrimKeepsRecent(found, limit, {});
    if Total(Trimmed(found, limit, {})) > limit {
      HasMember(Trimmed(found, limit, {}));
    }
  }

  lemma HasMember(ms: seq<Meta>)
    requires Total(ms) > 0
    ensures exists m :: m in ms
  {
    assert ms[0] in ms;
  }

  lemma {:induction false} LookupWithout(ms: seq<Meta>, k: string, x: string)
    ensures Lookup(Without(ms, k), x) == if x == k then None else Lookup(ms, x)
  {
    if |ms| > 0 {
      var init, last := ms[..|ms| - 1], ms[|ms| - 1];
      LookupWithout(init, k, x);
      AppendLast(Without(init, k), last);
      assert Without(init, k) + [] == Without(init, k);
    }
  }

  lemma {:induction false} LookupTouched(ms: seq<Meta>, k: string, now: int, x: string)
    ensures var m := Lookup(ms, x);
            Lookup(Touched(ms, k, now), x) == if m.Some? then Some(Used(m.value, k, now)) else None
  {
    if |ms| > 0 {
      LookupTouched(ms[..|ms| - 1], k, now, x);
      assert Touched(ms, k, now)[..|ms| - 1] == Touched(ms[..|ms| - 1], k, now);
    }
  }
}
