/**
 A bounded map that keeps its most recently used entries (class LruMap of the application core). A JavaScript
 Map iterates in insertion order, so the entries are a list, the least recently used first.
 */
module Lru {
  import opened Basics

  datatype Entry<+K, +V> = Entry(key: K, value: V)

  // ----- the list of entries -----

  function Without<K(==), V>(es: seq<Entry<K, V>>, k: K): seq<Entry<K, V>> {
    if |es| == 0 then []
    else if es[|es| - 1].key == k then Without(es[..|es| - 1], k)
    else Without(es[..|es| - 1], k) + [es[|es| - 1]]
  }

  function Find<K(==), V>(es: seq<Entry<K, V>>, k: K): Option<V> {
    if |es| == 0 then None
    else if es[|es| - 1].key == k then Some(es[|es| - 1].value)
    else Find(es[..|es| - 1], k)
  }

  /** The last `max` elements. */
  function Last<T>(s: seq<T>, max: nat): seq<T> {
    if |s| <= max then s else s[|s| - max..]
  }

  function Put<K(==), V>(es: seq<Entry<K, V>>, k: K, v: V, max: nat): seq<Entry<K, V>> {
    Last(Without(es, k) + [Entry(k, v)], max)
  }

  function Touch<K(==), V>(es: seq<Entry<K, V>>, k: K): seq<Entry<K, V>> {
    match Find(es, k)
    case None => es
    case Some(v) => Without(es, k) + [Entry(k, v)]
  }

  class LruMap<K(==), V> {
    const max: nat
    var entries: seq<Entry<K, V>>

    constructor (max: nat)
      ensures this.max == max && entries == []
    {
      this.max := max;
      entries := [];
    }

    method Get(k: K) returns (v: Option<V>)
      modifies this
      ensures v == old(Find(entries, k))
      ensures entries == Touch(old(entries), k)
    {
      v := Find(entries, k);
      if v.Some? {
        entries := Without(entries, k);
        entries := entries + [Entry(k, v.value)];
      }
    }

    method Set(k: K, v: V)
      modifies this
      ensures entries == Put(old(entries), k, v, max)
    {
      entries := Without(entries, k);
      entries := entries + [Entry(k, v)];
      ghost var all := entries;
      while |entries| > max
        invariant |entries| <= |all| && entries == all[|all| - |entries|..]
        invariant |all| <= max ==> entries == all
        invariant |all| > max ==> |entries| >= max
      {
        entries := entries[1..];
      }
    }
  }

  // ----- what a trace of uses leaves -----

  datatype Use<K, V> = Got(k: K) | Stored(k: K, v: V)

  function Step<K(==), V>(es: seq<Entry<K, V>>, u: Use<K, V>, max: nat): seq<Entry<K, V>> {
    match u
    case Got(k) => Touch(es, k)
    case Stored(k, v) => Put(es, k, v, max)
  }

  function Run<K(==), V>(us: seq<Use<K, V>>, max: nat): seq<Entry<K, V>> {
    if |us| == 0 then [] else Step(Run(us[..|us| - 1], max), us[|us| - 1], max)
  }

  function Keys<K, V>(es: seq<Entry<K, V>>): (r: seq<K>)
    ensures |r| == |es| && forall i :: 0 <= i < |es| ==> r[i] == es[i].key
  {
    seq(|es|, i requires 0 <= i < |es| => es[i].key)
  }

  /** The keys touched: stored, or looked up and found. */
  function Touches<K(==), V>(us: seq<Use<K, V>>, max: nat): seq<K> {
    if |us| == 0 then []
    else
      var ts, u := Touches(us[..|us| - 1], max), us[|us| - 1];
      if u.Stored? || Find(Run(us[..|us| - 1], max), u.k).Some? then ts + [u.k] else ts
  }

  // ----- the reference: stack distance -----

  /** What was touched after the last touch of `k`. */
  function After<K(==)>(ts: seq<K>, k: K): seq<K>
    requires k in ts
  {
    if ts[|ts| - 1] == k then [] else After(ts[..|ts| - 1], k) + [ts[|ts| - 1]]
  }

  ghost function Elements<K>(ts: seq<K>): set<K> {
    set x | x in ts
  }

  /** Touched, and fewer than `max` other keys were touched since. */
  ghost predicate Recent<K>(ts: seq<K>, k: K, max: nat) {
    k in ts && |Elements(After(ts, k))| < max
  }

  // ----- distinct keys, by last touch -----

  function Drop<K(==)>(ks: seq<K>, k: K): seq<K> {
    if |ks| == 0 then []
    else if ks[|ks| - 1] == k then Drop(ks[..|ks| - 1], k)
    else Drop(ks[..|ks| - 1], k) + [ks[|ks| - 1]]
  }

  function ByLastTouch<K(==)>(ts: seq<K>): seq<K> {
    if |ts| == 0 then [] else Drop(ByLastTouch(ts[..|ts| - 1]), ts[|ts| - 1]) + [ts[|ts| - 1]]
  }

  ghost predicate Distinct<K>(ks: seq<K>) {
    |ks| == 0 || (Distinct(ks[..|ks| - 1]) && ks[|ks| - 1] !in ks[..|ks| - 1])
  }

  lemma ElementsAppend<K>(a: seq<K>, x: K)
    ensures Elements(a + [x]) == Elements(a) + {x}
  {
  }

  lemma {:induction false} DropSpec<K>(ks: seq<K>, k: K)
    ensures forall x :: x in Drop(ks, k) <==> x in ks && x != k
    ensures k !in ks ==> Drop(ks, k) == ks
    ensures Distinct(ks) ==> Distinct(Drop(ks, k))
    ensures |Drop(ks, k)| <= |ks|
  {
    if |ks| > 0 {
      var init, last := ks[..|ks| - 1], ks[|ks| - 1];
      assert ks == init + [last];
      DropSpec(init, k);
      AppendLast(Drop(init, k), last);
    }
  }

  lemma {:induction false} ByLastTouchSpec<K>(ts: seq<K>)
    ensures Distinct(ByLastTouch(ts))
    ensures forall x :: x in ByLastTouch(ts) <==> x in ts
  {
    if |ts| > 0 {
      var init, last := ts[..|ts| - 1], ts[|ts| - 1];
      assert ts == init + [last];
      ByLastTouchSpec(init);
      DropSpec(ByLastTouch(init), last);
      AppendLast(Drop(ByLastTouch(init), last), last);
    }
  }

  lemma {:induction false} AfterAppend<K>(ts: seq<K>, k: K, x: K)
    requires k in ts + [x]
    ensures After(ts + [x], k) == if x == k then [] else After(ts, k) + [x]
    ensures x != k ==> k in ts
  {
    AppendLast(ts, x);
  }

  lemma {:induction false} AfterDrop<K>(ks: seq<K>, k: K, x: K)
    requires k in ks && k != x
    ensures k in Drop(ks, x)
    ensures Elements(After(Drop(ks, x), k)) == Elements(After(ks, k)) - {x}
  {
    var init, last := ks[..|ks| - 1], ks[|ks| - 1];
    assert ks == init + [last];
    DropSpec(ks, x);
    if last == k {
      AppendLast(Drop(init, x), last);
    } else {
      AfterDrop(init, k, x);
      ElementsAppend(After(init, k), last);
      if last != x {
        AfterAppend(Drop(init, x), k, last);
        ElementsAppend(After(Drop(init, x), k), last);
      }
    }
  }

  /** After a key, the list by last touch has exactly the keys touched since. */
  lemma {:induction false} AfterByLastTouch<K>(ts: seq<K>, k: K)
    requires k in ts
    ensures k in ByLastTouch(ts)
    ensures Elements(After(ByLastTouch(ts), k)) == Elements(After(ts, k))
  {
    var init, last := ts[..|ts| - 1], ts[|ts| - 1];
    assert ts == init + [last];
    ByLastTouchSpec(ts);
    AppendLast(Drop(ByLastTouch(init), last), last);
    if last != k {
      AfterByLastTouch(init, k);
      AfterOneMore(ByLastTouch(init), k, last);
      ElementsAppend(After(init, k), last);
    }
  }

  lemma AfterOneMore<K>(ks: seq<K>, k: K, x: K)
    requires k in ks && k != x
    ensures k in Drop(ks, x) + [x]
    ensures Elements(After(Drop(ks, x) + [x], k)) == Elements(After(ks, k)) + {x}
  {
    AfterDrop(ks, k, x);
    AfterAppend(Drop(ks, x), k, x);
    ElementsAppend(After(Drop(ks, x), k), x);
  }

  lemma {:induction false} DistinctCount<K>(ks: seq<K>)
    requires Distinct(ks)
    ensures |Elements(ks)| == |ks|
  {
    if |ks| > 0 {
      var init, last := ks[..|ks| - 1], ks[|ks| - 1];
      DistinctCount(init);
      assert Elements(ks) == Elements(init) + {last};
    }
  }

  lemma {:induction false} AfterDistinct<K>(ks: seq<K>, k: K)
    requires k in ks && Distinct(ks)
    ensures Distinct(After(ks, k))
    ensures forall x :: x in After(ks, k) ==> x in ks
    ensures |After(ks, k)| < |ks|
  {
    var init, last := ks[..|ks| - 1], ks[|ks| - 1];
    assert ks == init + [last];
    if last != k {
      AfterDistinct(init, k);
      AppendLast(After(init, k), last);
    }
  }

  /** A key is among the last `max` exactly when fewer than `max` come after it. */
  lemma {:induction false} AmongLast<K>(ks: seq<K>, k: K, max: nat)
    requires Distinct(ks) && k in ks
    ensures k in Last(ks, max) <==> |After(ks, k)| < max
  {
    var init, last := ks[..|ks| - 1], ks[|ks| - 1];
    assert ks == init + [last];
    if max > 0 {
      LastSplit(ks, max);
      if last != k {
        AmongLast(init, k, max - 1);
      }
    }
  }

  lemma LastSplit<K>(ks: seq<K>, max: nat)
    requires |ks| > 0 && max > 0
    ensures Last(ks, max) == Last(ks[..|ks| - 1], max - 1) + [ks[|ks| - 1]]
  {
  }

  // ----- the cache against the reference -----

  lemma {:induction false} KeysWithout<K, V>(es: seq<Entry<K, V>>, k: K)
    ensures Keys(Without(es, k)) == Drop(Keys(es), k)
  {
    if |es| > 0 {
      var init := es[..|es| - 1];
      KeysWithout(init, k);
      assert Keys(es)[..|es| - 1] == Keys(init);
    }
  }

  lemma {:induction false} FindKey<K, V>(es: seq<Entry<K, V>>, k: K)
    ensures Find(es, k).Some? <==> k in Keys(es)
  {
    if |es| > 0 {
      var init := es[..|es| - 1];
      FindKey(init, k);
      assert Keys(es) == Keys(init) + [es[|es| - 1].key];
    }
  }

  /** Cutting to capacity before the next touch or only after it is the same. */
  lemma {:induction false} CutLater<K>(ks: seq<K>, k: K, max: nat)
    requires Distinct(ks)
    ensures Last(Drop(Last(ks, max), k) + [k], max) == Last(Drop(ks, k) + [k], max)
    ensures k in Last(ks, max) ==> Drop(Last(ks, max), k) + [k] == Last(Drop(ks, k) + [k], max)
  {
    if |ks| > max {
      var a, b := ks[..|ks| - max], ks[|ks| - max..];
      assert ks == a + b;
      CutLaterAt(a, b, k, max);
    } else {
      DropSpec(ks, k);
      if k in ks { DropShrinks(ks, k); }
    }
  }

  lemma CutLaterAt<K>(a: seq<K>, b: seq<K>, k: K, max: nat)
    requires Distinct(a + b) && |b| == max
    ensures Last(Drop(b, k) + [k], max) == Last(Drop(a + b, k) + [k], max)
    ensures k in b ==> Drop(b, k) + [k] == Last(Drop(a + b, k) + [k], max)
  {
    DropConcat(a, b, k);
    DropSpec(a, k);
    DropSpec(b, k);
    DistinctSplit(a, b, k);
    assert Drop(a, k) + Drop(b, k) + [k] == Drop(a, k) + (Drop(b, k) + [k]);
    LastConcat(Drop(a, k), Drop(b, k) + [k], max);
  }

  lemma LastConcat<K>(a: seq<K>, b: seq<K>, max: nat)
    requires |b| >= max
    ensures Last(a + b, max) == Last(b, max)
  {
  }

  lemma {:induction false} DropConcat<K>(a: seq<K>, b: seq<K>, k: K)
    ensures Drop(a + b, k) == Drop(a, k) + Drop(b, k)
    decreases |b|
  {
    if |b| == 0 {
      assert a + b == a;
    } else {
      assert (a + b)[..|a + b| - 1] == a + b[..|b| - 1];
      DropConcat(a, b[..|b| - 1], k);
    }
  }

  lemma {:induction false} DistinctSplit<K>(a: seq<K>, b: seq<K>, k: K)
    requires Distinct(a + b)
    ensures k in b ==> k !in a && |Drop(b, k)| == |b| - 1
    decreases |b|
  {
    if |b| > 0 {
      var init, last := b[..|b| - 1], b[|b| - 1];
      assert b == init + [last];
      assert (a + b)[..|a + b| - 1] == a + init;
      DistinctSplit(a, init, k);
      if last == k {
        assert k !in a + init;
        DropSpec(init, k);
      }
    }
  }

  lemma DropShrinks<K>(ks: seq<K>, k: K)
    requires Distinct(ks) && k in ks
    ensures |Drop(ks, k)| == |ks| - 1
  {
    assert [] + ks == ks;
    DistinctSplit([], ks, k);
  }

  lemma KeysAppend<K, V>(es: seq<Entry<K, V>>, e: Entry<K, V>)
    ensures Keys(es + [e]) == Keys(es) + [e.key]
  {
  }

  lemma KeysLast<K, V>(es: seq<Entry<K, V>>, max: nat)
    ensures Keys(Last(es, max)) == Last(Keys(es), max)
  {
  }

  lemma KeysStep<K, V>(es: seq<Entry<K, V>>, u: Use<K, V>, max: nat)
    ensures u.Stored? ==> Keys(Step(es, u, max)) == Last(Drop(Keys(es), u.k) + [u.k], max)
    ensures u.Got? ==> Keys(Step(es, u, max)) == if u.k in Keys(es) then Drop(Keys(es), u.k) + [u.k] else Keys(es)
  {
    KeysWithout(es, u.k);
    FindKey(es, u.k);
    match u
    case Got(k) =>
      if Find(es, k).Some? { KeysAppend(Without(es, k), Entry(k, Find(es, k).value)); }
    case Stored(k, v) =>
      KeysAppend(Without(es, k), Entry(k, v));
      KeysLast(Without(es, k) + [Entry(k, v)], max);
  }

  /** After any trace the keys are those touched last, cut to the capacity, the least recent first. */
  lemma {:induction false} KeysAreMostRecent<K, V>(us: seq<Use<K, V>>, max: nat)
    ensures Keys(Run(us, max)) == Last(ByLastTouch(Touches(us, max)), max)
  {
    if |us| > 0 {
      var init, u := us[..|us| - 1], us[|us| - 1];
      KeysAreMostRecent(init, max);
      var ts := Touches(init, max);
      ByLastTouchSpec(ts);
      CutLater(ByLastTouch(ts), u.k, max);
      KeysStep(Run(init, max), u, max);
      FindKey(Run(init, max), u.k);
      AppendLast(ts, u.k);
    }
  }

  /** So a key is in the cache exactly when fewer than `max` other keys were touched since its last touch. */
  lemma ExactLru<K, V>(us: seq<Use<K, V>>, max: nat, k: K)
    ensures Find(Run(us, max), k).Some? <==> Recent(Touches(us, max), k, max)
  {
    var ts := Touches(us, max);
    KeysAreMostRecent(us, max);
    FindKey(Run(us, max), k);
    ByLastTouchSpec(ts);
    if k in ts {
      AfterByLastTouch(ts, k);
      AfterDistinct(ByLastTouch(ts), k);
      DistinctCount(After(ByLastTouch(ts), k));
      AmongLast(ByLastTouch(ts), k, max);
    }
  }

  /** Of two maps with the same touches the larger holds at least the same keys. */
  lemma SameTouchesHoldMore<K, V>(us: seq<Use<K, V>>, us': seq<Use<K, V>>, max: nat, max': nat, k: K)
    requires max <= max' && Touches(us, max) == Touches(us', max')
    requires Find(Run(us, max), k).Some?
    ensures Find(Run(us', max'), k).Some?
  {
    ExactLru(us, max, k);
    ExactLru(us', max', k);
  }

  // ----- two capacities, the same calls -----

  /** The elements of `a`, in their order, among those of `b`. */
  predicate Within<K(==)>(a: seq<K>, b: seq<K>) {
    || |a| == 0
    || (|b| > 0 && if a[|a| - 1] == b[|b| - 1] then Within(a[..|a| - 1], b[..|b| - 1]) else Within(a, b[..|b| - 1]))
  }

  /** Matching the last elements at once leaves no match out. */
  lemma {:induction false} WithinInit<K>(a: seq<K>, b: seq<K>)
    requires |a| > 0 && Within(a, b)
    ensures Within(a[..|a| - 1], b)
    ensures |b| > 0 && Within(a[..|a| - 1], b[..|b| - 1])
    decreases |b|
  {
    var a', b' := a[..|a| - 1], b[..|b| - 1];
    if a[|a| - 1] == b[|b| - 1] {
      if |a'| > 0 { WithinInit(a', b'); }
    } else {
      WithinInit(a, b');
      if |a'| > 0 { WithinInit(a', b'); }
    }
  }

  lemma {:induction false} WithinMember<K>(a: seq<K>, b: seq<K>, k: K)
    requires Within(a, b) && k in a
    ensures k in b
    decreases |b|
  {
    if a[|a| - 1] == b[|b| - 1] {
      if k != a[|a| - 1] { WithinMember(a[..|a| - 1], b[..|b| - 1], k); }
    } else {
      WithinMember(a, b[..|b| - 1], k);
    }
  }

  lemma WithinAppend<K>(a: seq<K>, b: seq<K>, k: K)
    requires Within(a, b)
    ensures Within(a + [k], b + [k])
  {
    AppendLast(a, k);
    AppendLast(b, k);
  }

  lemma WithinLonger<K>(a: seq<K>, b: seq<K>, k: K)
    requires Within(a, b)
    ensures Within(a, b + [k])
  {
    AppendLast(b, k);
    if |a| > 0 { WithinInit(a, b); }
  }

  lemma {:induction false} WithinDrop<K>(a: seq<K>, b: seq<K>, k: K)
    requires Within(a, b)
    ensures Within(Drop(a, k), Drop(b, k))
    decreases |b|
  {
    if |a| > 0 {
      var b' := b[..|b| - 1];
      if a[|a| - 1] == b[|b| - 1] {
        WithinDrop(a[..|a| - 1], b', k);
        if b[|b| - 1] != k { WithinAppend(Drop(a[..|a| - 1], k), Drop(b', k), b[|b| - 1]); }
      } else {
        WithinDrop(a, b', k);
        if b[|b| - 1] != k { WithinLonger(Drop(a, k), Drop(b', k), b[|b| - 1]); }
      }
    }
  }

  /** Without the first element of both. */
  lemma {:induction false} WithinTails<K>(a: seq<K>, b: seq<K>)
    requires |a| > 0 && Within(a, b)
    ensures |b| > 0 && Within(a[1..], b[1..])
    decreases |b|
  {
    var a', b' := a[..|a| - 1], b[..|b| - 1];
    if |a| > 1 {
      assert a[1..][..|a| - 2] == a'[1..] && a[1..][|a| - 2] == a[|a| - 1];
      if a[|a| - 1] == b[|b| - 1] {
        WithinTails(a', b');
        assert b[1..][..|b| - 2] == b'[1..] && b[1..][|b| - 2] == b[|b| - 1];
      } else {
        WithinTails(a, b');
        assert b[1..] == b'[1..] + [b[|b| - 1]];
        WithinLonger(a[1..], b'[1..], b[|b| - 1]);
      }
    }
  }

  /** The smaller map's keys among the larger one's, in the same order; all of them as long as it is not full. */
  ghost predicate Nested<K>(a: seq<K>, b: seq<K>, max: nat, max': nat) {
    && Distinct(a) && Distinct(b) && |a| <= max <= max' && |b| <= max'
    && Within(a, b) && (|a| < max ==> a == b)
  }

  lemma DropLength<K>(ks: seq<K>, k: K)
    requires Distinct(ks)
    ensures Distinct(Drop(ks, k) + [k])
    ensures |Drop(ks, k)| == if k in ks then |ks| - 1 else |ks|
  {
    DropSpec(ks, k);
    AppendLast(Drop(ks, k), k);
    if k in ks { DropShrinks(ks, k); }
  }

  lemma {:induction false} LastDistinct<K>(ks: seq<K>, max: nat)
    requires Distinct(ks)
    ensures Distinct(Last(ks, max))
  {
    if |ks| > max > 0 {
      var last := Last(ks, max);
      LastDistinct(ks[..|ks| - 1], max - 1);
      assert last[..|last| - 1] == Last(ks[..|ks| - 1], max - 1);
    }
  }

  lemma NestedGot<K>(a: seq<K>, b: seq<K>, k: K, max: nat, max': nat)
    requires Nested(a, b, max, max')
    ensures Nested(if k in a then Drop(a, k) + [k] else a, if k in b then Drop(b, k) + [k] else b, max, max')
  {
    DropLength(a, k);
    DropLength(b, k);
    DropSpec(a, k);
    WithinDrop(a, b, k);
    if k in a {
      WithinMember(a, b, k);
      WithinAppend(Drop(a, k), Drop(b, k), k);
    } else if k in b {
      WithinLonger(a, Drop(b, k), k);
    }
  }

  lemma NestedStored<K>(a: seq<K>, b: seq<K>, k: K, max: nat, max': nat)
    requires Nested(a, b, max, max')
    ensures Nested(Last(Drop(a, k) + [k], max), Last(Drop(b, k) + [k], max'), max, max')
  {
    DropLength(a, k);
    DropLength(b, k);
    LastDistinct(Drop(a, k) + [k], max);
    LastDistinct(Drop(b, k) + [k], max');
    WithinDrop(a, b, k);
    WithinAppend(Drop(a, k), Drop(b, k), k);
    if k in a { WithinMember(a, b, k); }
    StoredNested(Drop(a, k) + [k], Drop(b, k) + [k], max, max');
  }

  lemma StoredNested<K>(a: seq<K>, b: seq<K>, max: nat, max': nat)
    requires Within(a, b) && |a| <= max + 1 && |b| <= max' + 1 && max <= max'
    requires |b| > max' ==> |a| > max
    requires |a| < max ==> a == b
    requires Distinct(Last(a, max)) && Distinct(Last(b, max'))
    ensures Nested(Last(a, max), Last(b, max'), max, max')
  {
    StoredWithin(a, b, max, max');
  }

  /** Both cut to their capacities, of which each is passed by one element at most. */
  lemma StoredWithin<K>(a: seq<K>, b: seq<K>, max: nat, max': nat)
    requires Within(a, b) && |a| <= max + 1 && |b| <= max' + 1
    requires |b| > max' ==> |a| > max
    ensures Within(Last(a, max), Last(b, max'))
  {
    if |a| > max {
      assert Last(a, max) == a[1..];
      if |b| > max' {
        assert Last(b, max') == b[1..];
        WithinTails(a, b);
      } else {
        WithinCut(a, b);
      }
    }
  }

  lemma {:induction false} WithinCut<K>(a: seq<K>, b: seq<K>)
    requires |a| > 0 && Within(a, b)
    ensures Within(a[1..], b)
    decreases |b|
  {
    if |a| > 1 {
      var a', b' := a[..|a| - 1], b[..|b| - 1];
      assert a[1..][..|a| - 2] == a'[1..] && a[1..][|a| - 2] == a[|a| - 1];
      if a[|a| - 1] == b[|b| - 1] { WithinCut(a', b'); } else { WithinCut(a, b'); }
    }
  }

  /** Given the same calls, a larger map holds at least the same keys, although it answers more lookups. */
  lemma LargerHoldsMore<K, V>(us: seq<Use<K, V>>, max: nat, max': nat, k: K)
    requires max <= max'
    ensures Find(Run(us, max), k).Some? ==> Find(Run(us, max'), k).Some?
  {
    RunsNested(us, max, max');
    FindKey(Run(us, max), k);
    FindKey(Run(us, max'), k);
    if k in Keys(Run(us, max)) { WithinMember(Keys(Run(us, max)), Keys(Run(us, max')), k); }
  }

  lemma {:induction false} RunsNested<K, V>(us: seq<Use<K, V>>, max: nat, max': nat)
    requires max <= max'
    ensures Nested(Keys(Run(us, max)), Keys(Run(us, max')), max, max')
  {
    if |us| > 0 {
      var init, u := us[..|us| - 1], us[|us| - 1];
      var a, b := Run(init, max), Run(init, max');
      RunsNested(init, max, max');
      KeysStep(a, u, max);
      KeysStep(b, u, max');
      if u.Got? {
        NestedGot(Keys(a), Keys(b), u.k, max, max');
      } else {
        NestedStored(Keys(a), Keys(b), u.k, max, max');
      }
    }
  }

  /** The value stored last for a key. */
  function LastStored<K(==), V>(us: seq<Use<K, V>>, k: K): Option<V> {
    if |us| == 0 then None
    else if us[|us| - 1].Stored? && us[|us| - 1].k == k then Some(us[|us| - 1].v)
    else LastStored(us[..|us| - 1], k)
  }

  lemma {:induction false} FindWithout<K, V>(es: seq<Entry<K, V>>, k: K, x: K)
    ensures Find(Without(es, k), x) == if x == k then None else Find(es, x)
  {
    if |es| > 0 {
      var init, last := es[..|es| - 1], es[|es| - 1];
      FindWithout(init, k, x);
      if last.key != k {
        FindAppend(Without(init, k), last, x);
      }
    }
  }

  lemma FindAppend<K, V>(es: seq<Entry<K, V>>, e: Entry<K, V>, x: K)
    ensures Find(es + [e], x) == if e.key == x then Some(e.value) else Find(es, x)
  {
    AppendLast(es, e);
  }

  lemma {:induction false} FindLast<K, V>(es: seq<Entry<K, V>>, max: nat, x: K)
    ensures Find(Last(es, max), x).Some? ==> Find(Last(es, max), x) == Find(es, x)
  {
    if |es| > max {
      var b := es[|es| - max..];
      if max > 0 {
        var init := es[..|es| - 1];
        FindLast(init, max - 1, x);
        assert b[..|b| - 1] == init[|init| - (max - 1)..];
      }
    }
  }

  /** A lookup answers nothing or the value stored last. */
  lemma {:induction false} FindsLastStored<K, V>(us: seq<Use<K, V>>, max: nat, x: K)
    ensures Find(Run(us, max), x).Some? ==> Find(Run(us, max), x) == LastStored(us, x)
  {
    if |us| > 0 {
      var init, u := us[..|us| - 1], us[|us| - 1];
      FindsLastStored(init, max, x);
      var es := Run(init, max);
      FindWithout(es, u.k, x);
      match u
      case Got(k) =>
        if Find(es, k).Some? {
          AppendLast(Without(es, k), Entry(k, Find(es, k).value));
        }
      case Stored(k, v) =>
        AppendLast(Without(es, k), Entry(k, v));
        FindLast(Without(es, k) + [Entry(k, v)], max, x);
    }
  }
}
