/**
 The fragment cache on disk (class FragDiskCache of the desktop agent) over its directory, which outlives the
 process. A write may be cut short, by a full disk or because the process ends in the middle of it: then part of the
 bytes stay in the directory.
 */
module FragDisk {
  import opened Basics
  import opened FragCache

  /** What writing a file came to: nothing on the disk touched, its first bytes only, or all of it. */
  datatype Write = NotOpened | CutShort(bytes: nat) | Written

  /** The first bytes of a file. */
  function Head(v: Bytes, n: nat): Bytes { if n <= |v| then v[..n] else v }

  // ----- the operations as changes of the shelf -----

  function TrimShelf(s: Shelf, limit: int, pinned: set<string>): Shelf {
    if s.used <= limit then s else EvictFrom(s, ByUse(s.meta), limit, pinned)
  }

  function Answer(s: Shelf, k: string): Option<Bytes> {
    if Lookup(s.meta, k).Some? && k in s.files then Some(s.files[k]) else None
  }

  function GetShelf(s: Shelf, k: string, now: int): Shelf {
    match Lookup(s.meta, k)
    case None => s
    case Some(m) =>
      if k in s.files then s.(meta := Touched(s.meta, k, now))
      else s.(meta := Without(s.meta, k), used := s.used - m.size)
  }

  function Recorded(s: Shelf, k: string, v: Bytes, now: int): Shelf {
    Shelf(s.meta + [Meta(k, |v|, now)], s.used + |v|, s.owner[k := VersionOf(k)], s.files[k := v])
  }

  function SetShelf(s: Shelf, k: string, v: Bytes, now: int, limit: int, pinned: set<string>, write: Write): Shelf {
    if Lookup(s.meta, k).Some? || |v| > limit then s
    else
      match write
      case NotOpened => s
      case CutShort(n) => s.(files := s.files[k := Head(v, n)])
      case Written => TrimShelf(Recorded(s, k, v, now), limit, pinned)
  }

  /** A process starts: it records the files it finds, with the sizes they have, and trims. */
  function StartShelf(files: map<string, Bytes>, found: seq<Meta>, limit: int): Shelf {
    TrimShelf(Shelf(found, Total(found), map[], files), limit, {})
  }

  // ----- what every shelf keeps -----

  /** A recorded file has the size recorded. */
  predicate SizedAt(s: Shelf, k: string) {
    Lookup(s.meta, k).Some? && k in s.files ==> Lookup(s.meta, k).value.size == |s.files[k]|
  }

  /** A recorded file has the bytes its key stands for. */
  predicate TrueAt(s: Shelf, truth: string -> Bytes, k: string) {
    Lookup(s.meta, k).Some? && k in s.files ==> s.files[k] == truth(k)
  }

  ghost predicate Sound(s: Shelf) {
    Distinct(s.meta) && s.used == Total(s.meta) && forall k :: SizedAt(s, k)
  }

  ghost predicate Whole(s: Shelf, truth: string -> Bytes) {
    forall k :: TrueAt(s, truth, k)
  }

  /** The files of a directory in the order they are read, with their sizes. */
  ghost predicate Listed(found: seq<Meta>, files: map<string, Bytes>) {
    && Distinct(found)
    && forall k ::
         && (k in files <==> Lookup(found, k).Some?)
         && (k in files ==> Lookup(found, k).value.size == |files[k]|)
  }

  /** A name evicted is neither recorded nor there; the others are as before. */
  lemma {:induction false} EvictedAt(ms: seq<Meta>, files: map<string, Bytes>, gone: seq<Meta>, k: string)
    ensures Lookup(WithoutAll(ms, gone), k) == None || Lookup(WithoutAll(ms, gone), k) == Lookup(ms, k)
    ensures k in Minus(files, gone) ==> k in files && Minus(files, gone)[k] == files[k]
  {
    if |gone| > 0 {
      var init, g := gone[..|gone| - 1], gone[|gone| - 1];
      EvictedAt(ms, files, init, k);
      LookupWithout(WithoutAll(ms, init), g.name, k);
    }
  }

  /** A trim in terms of its victims. */
  lemma TrimIsEvicted(s: Shelf, limit: int, pinned: set<string>)
    requires Distinct(s.meta) && s.used == Total(s.meta)
    ensures TrimShelf(s, limit, pinned) == Evicted(s, Victims(ByUse(s.meta), s.used, limit, Pinned(s.owner, pinned)))
    ensures TrimShelf(s, limit, pinned).meta == Trimmed(s.meta, limit, Pinned(s.owner, pinned))
  {
    OrderOfMeta(s.meta);
    SamePinsAtStart(ByUse(s.meta), s.owner, pinned);
    EvictFromSpec(s, ByUse(s.meta), limit, pinned, Pinned(s.owner, pinned));
  }

  lemma TrimAt(s: Shelf, limit: int, pinned: set<string>, k: string)
    requires Distinct(s.meta) && s.used == Total(s.meta)
    ensures var t := TrimShelf(s, limit, pinned);
            && (Lookup(t.meta, k) == None || Lookup(t.meta, k) == Lookup(s.meta, k))
            && (k in t.files ==> k in s.files && t.files[k] == s.files[k])
  {
    TrimIsEvicted(s, limit, pinned);
    EvictedAt(s.meta, s.files, Victims(ByUse(s.meta), s.used, limit, Pinned(s.owner, pinned)), k);
  }

  lemma TrimSound(s: Shelf, limit: int, pinned: set<string>)
    requires Sound(s)
    ensures Sound(TrimShelf(s, limit, pinned))
  {
    var t := TrimShelf(s, limit, pinned);
    TrimIsEvicted(s, limit, pinned);
    TrimmedMembers(s.meta, limit, Pinned(s.owner, pinned));
    forall k ensures SizedAt(t, k) {
      assert SizedAt(s, k);
      TrimAt(s, limit, pinned, k);
    }
  }

  lemma GetAt(s: Shelf, k: string, now: int, x: string)
    ensures var t := GetShelf(s, k, now);
            && t.files == s.files
            && (Lookup(t.meta, x).Some? ==>
                  Lookup(s.meta, x).Some? && Lookup(t.meta, x).value.size == Lookup(s.meta, x).value.size)
  {
    LookupTouched(s.meta, k, now, x);
    LookupWithout(s.meta, k, x);
  }

  lemma GetSound(s: Shelf, k: string, now: int)
    requires Sound(s)
    ensures Sound(GetShelf(s, k, now))
  {
    var t := GetShelf(s, k, now);
    GetCounted(s, k, now);
    forall x ensures SizedAt(t, x) {
      assert SizedAt(s, x);
      GetAt(s, k, now, x);
    }
  }

  lemma GetCounted(s: Shelf, k: string, now: int)
    requires Distinct(s.meta) && s.used == Total(s.meta)
    ensures Distinct(GetShelf(s, k, now).meta) && GetShelf(s, k, now).used == Total(GetShelf(s, k, now).meta)
  {
    TouchedSpec(s.meta, k, now);
    WithoutSpec(s.meta, k);
    if Lookup(s.meta, k).Some? {
      LookupSpec(s.meta, k);
      TotalWithout(s.meta, Lookup(s.meta, k).value);
    }
  }

  lemma RecordedAt(s: Shelf, k: string, v: Bytes, now: int, x: string)
    ensures var t := Recorded(s, k, v, now);
            && Lookup(t.meta, x) == (if x == k then Some(Meta(k, |v|, now)) else Lookup(s.meta, x))
            && (x in t.files <==> x == k || x in s.files)
            && (x in t.files ==> t.files[x] == if x == k then v else s.files[x])
  {
    AppendLast(s.meta, Meta(k, |v|, now));
  }

  lemma RecordedSound(s: Shelf, k: string, v: Bytes, now: int)
    requires Sound(s) && Lookup(s.meta, k).None?
    ensures Sound(Recorded(s, k, v, now))
  {
    LookupSpec(s.meta, k);
    AppendLast(s.meta, Meta(k, |v|, now));
    forall x ensures SizedAt(Recorded(s, k, v, now), x) {
      assert SizedAt(s, x);
      RecordedAt(s, k, v, now, x);
    }
  }

  lemma SetSound(s: Shelf, k: string, v: Bytes, now: int, limit: int, pinned: set<string>, write: Write)
    requires Sound(s)
    ensures Sound(SetShelf(s, k, v, now, limit, pinned, write))
  {
    if Lookup(s.meta, k).None? && |v| <= limit {
      if write.Written? {
        RecordedSound(s, k, v, now);
        TrimSound(Recorded(s, k, v, now), limit, pinned);
      } else if write.CutShort? {
        var t := s.(files := s.files[k := Head(v, write.bytes)]);
        forall x ensures SizedAt(t, x) {
          assert SizedAt(s, x);
        }
      }
    }
  }

  lemma StartSound(files: map<string, Bytes>, found: seq<Meta>, limit: int)
    requires Listed(found, files)
    ensures Sound(StartShelf(files, found, limit))
  {
    TrimSound(Shelf(found, Total(found), map[], files), limit, {});
  }

  // ----- true bytes -----

  /** What a name stood for truly stays true, and a fragment just stored is true, whatever is evicted for it. */
  lemma SetTrueAt(s: Shelf, truth: string -> Bytes, k: string, now: int, limit: int, pinned: set<string>,
      write: Write, x: string)
    requires Sound(s) && TrueAt(s, truth, x)
    ensures TrueAt(SetShelf(s, k, truth(k), now, limit, pinned, write), truth, x)
  {
    if Lookup(s.meta, k).None? && |truth(k)| <= limit && write.Written? {
      RecordedSound(s, k, truth(k), now);
      RecordedAt(s, k, truth(k), now, x);
      TrimAt(Recorded(s, k, truth(k), now), limit, pinned, x);
    }
  }

  lemma TrimTrueAt(s: Shelf, truth: string -> Bytes, limit: int, pinned: set<string>, x: string)
    requires Sound(s) && TrueAt(s, truth, x)
    ensures TrueAt(TrimShelf(s, limit, pinned), truth, x)
  {
    TrimAt(s, limit, pinned, x);
  }

  // ----- the object -----

  class FragDiskCache {
    var meta: seq<Meta>
    var used: int
    var owner: map<string, string>
    var pinned: set<string>
    var limit: int
    /** The directory. */
    var files: map<string, Bytes>

    ghost function State(): Shelf
      reads this
    {
      Shelf(meta, used, owner, files)
    }

    ghost predicate Valid()
      reads this
    {
      Sound(State())
    }

    /** Takes over what earlier runs left (`found`: its files, in the order they are read). */
    constructor (limit: nat, files: map<string, Bytes>, found: seq<Meta>)
      requires Listed(found, files)
      ensures Valid() && State() == StartShelf(files, found, limit)
      ensures meta == Trimmed(found, limit, {}) && used <= limit
      ensures this.limit == limit && pinned == {}
    {
      this.limit, this.files := limit, files;
      meta, used, owner, pinned := [], 0, map[], {};
      new;
      ReadBack(found);
      Trim();
      LeftoverIsNotKept(found, limit, {});
      assert Pinned(map[], {}) == {};
    }

    method ReadBack(found: seq<Meta>)
      requires meta == [] && used == 0
      modifies this`meta, this`used
      ensures meta == found && used == Total(meta)
    {
      var i := 0;
      while i < |found|
        invariant 0 <= i <= |found|
        invariant meta == found[..i] && used == Total(meta)
      {
        AppendLast(meta, found[i]);
        assert found[..i + 1] == found[..i] + [found[i]];
        meta := meta + [found[i]];
        used := used + found[i].size;
        i := i + 1;
      }
    }

    /** Nothing, or what the recorded file holds. */
    method Get(k: string, now: int) returns (r: Option<Bytes>)
      requires Valid()
      modifies this`meta, this`used
      ensures Valid() && State() == GetShelf(old(State()), k, now)
      ensures r == Answer(old(State()), k)
    {
      GetSound(State(), k, now);
      var m := Lookup(meta, k);
      if m.None? {
        return None;
      }
      if k in files {
        meta := Touched(meta, k, now);
        r := Some(files[k]);
      } else {
        meta := Without(meta, k);
        used := used - m.value.size;
        r := None;
      }
    }

    method Set(k: string, v: Bytes, now: int, write: Write)
      requires Valid()
      modifies this`meta, this`used, this`owner, this`files
      ensures Valid() && State() == SetShelf(old(State()), k, v, now, limit, pinned, write)
    {
      SetSound(State(), k, v, now, limit, pinned, write);
      if Lookup(meta, k).Some? || |v| > limit {
        return;
      }
      match write
      case NotOpened => return;
      case CutShort(n) =>
        files := files[k := Head(v, n)];
      case Written =>
        Record(k, v, now);
        Trim();
    }

    method Record(k: string, v: Bytes, now: int)
      requires Valid() && Lookup(meta, k).None?
      modifies this`meta, this`used, this`owner, this`files
      ensures Valid() && State() == Recorded(old(State()), k, v, now)
    {
      RecordedSound(State(), k, v, now);
      files := files[k := v];
      meta := meta + [Meta(k, |v|, now)];
      used := used + |v|;
      owner := owner[k := VersionOf(k)];
    }

    /** Drops the least recently used until under the limit, not the fragments of open files. */
    method Trim()
      requires Distinct(meta) && used == Total(meta)
      modifies this`meta, this`used, this`owner, this`files
      ensures State() == TrimShelf(old(State()), limit, pinned)
      ensures meta == Trimmed(old(meta), limit, Pinned(old(owner), pinned))
      ensures old(Valid()) ==> Valid()
    {
      TrimIsEvicted(State(), limit, pinned);
      if Sound(State()) { TrimSound(State(), limit, pinned); }
      if used <= limit {
        return;
      }
      EvictInOrder(ByUse(meta));
    }

    method EvictInOrder(order: seq<Meta>)
      modifies this`meta, this`used, this`owner, this`files
      ensures State() == EvictFrom(old(State()), order, limit, pinned)
    {
      var rest := order;
      while |rest| > 0 && used > limit
        invariant EvictFrom(State(), rest, limit, pinned) == EvictFrom(old(State()), order, limit, pinned)
        decreases |rest|
      {
        var m := rest[0];
        if !IsPinned(m.name, owner, pinned) {
          files, meta, owner, used := files - {m.name}, Without(meta, m.name), owner - {m.name}, used - m.size;
        }
        rest := rest[1..];
      }
    }

    method Clear()
      modifies this`meta, this`used, this`owner, this`files
      ensures Valid() && State() == Shelf([], 0, map[], map[])
    {
      files, meta, owner, used := map[], [], map[], 0;
    }
  }

  // ----- runs of one process -----

  /** What may happen to a cache; `Vanish`: a file of it is removed by someone else. */
  datatype Event =
    | Get(k: string, now: int)
    | Set(k: string, now: int, write: Write)
    | Open(pinned: set<string>)
    | Resize(limit: int)
    | Trim
    | Vanish(k: string)
    | Clear

  datatype Cache = Cache(shelf: Shelf, limit: int, pinned: set<string>)

  function Do(c: Cache, truth: string -> Bytes, e: Event): Cache {
    match e
    case Get(k, now) => c.(shelf := GetShelf(c.shelf, k, now))
    case Set(k, now, write) => c.(shelf := SetShelf(c.shelf, k, truth(k), now, c.limit, c.pinned, write))
    case Open(pinned) => c.(pinned := pinned)
    case Resize(limit) => c.(limit := limit)
    case Trim => c.(shelf := TrimShelf(c.shelf, c.limit, c.pinned))
    case Vanish(k) => c.(shelf := c.shelf.(files := c.shelf.files - {k}))
    case Clear => c.(shelf := Shelf([], 0, map[], map[]))
  }

  function Run(c: Cache, truth: string -> Bytes, es: seq<Event>): Cache
    decreases |es|
  {
    if |es| == 0 then c else Run(Do(c, truth, es[0]), truth, es[1..])
  }

  /** Every question of the run is answered with nothing or the true bytes. */
  ghost predicate Truthful(c: Cache, truth: string -> Bytes, es: seq<Event>)
    decreases |es|
  {
    |es| > 0 ==>
      && (es[0].Get? ==> Answer(c.shelf, es[0].k).None? || Answer(c.shelf, es[0].k) == Some(truth(es[0].k)))
      && Truthful(Do(c, truth, es[0]), truth, es[1..])
  }

  /** ... whatever is asked. */
  ghost predicate AlwaysTrue(c: Cache, truth: string -> Bytes) {
    forall es :: Truthful(c, truth, es)
  }

  lemma DoSound(c: Cache, truth: string -> Bytes, e: Event)
    requires Sound(c.shelf)
    ensures Sound(Do(c, truth, e).shelf)
  {
    match e
    case Get(k, now) => GetSound(c.shelf, k, now);
    case Set(k, now, write) => SetSound(c.shelf, k, truth(k), now, c.limit, c.pinned, write);
    case Trim => TrimSound(c.shelf, c.limit, c.pinned);
    case Vanish(k) =>
      var t := Do(c, truth, e).shelf;
      forall x ensures SizedAt(t, x) { assert SizedAt(c.shelf, x); }
    case _ =>
  }

  lemma DoTrueAt(c: Cache, truth: string -> Bytes, e: Event, x: string)
    requires Sound(c.shelf) && TrueAt(c.shelf, truth, x)
    ensures TrueAt(Do(c, truth, e).shelf, truth, x)
  {
    match e
    case Get(k, now) => GetAt(c.shelf, k, now, x);
    case Set(k, now, write) => SetTrueAt(c.shelf, truth, k, now, c.limit, c.pinned, write, x);
    case Trim => TrimTrueAt(c.shelf, truth, c.limit, c.pinned, x);
    case _ =>
  }

  lemma DoWhole(c: Cache, truth: string -> Bytes, e: Event)
    requires Sound(c.shelf) && Whole(c.shelf, truth)
    ensures Whole(Do(c, truth, e).shelf, truth)
  {
    forall x ensures TrueAt(Do(c, truth, e).shelf, truth, x) {
      assert TrueAt(c.shelf, truth, x);
      DoTrueAt(c, truth, e, x);
    }
  }

  lemma {:induction false} WholeIsTruthful(c: Cache, truth: string -> Bytes, es: seq<Event>)
    requires Sound(c.shelf) && Whole(c.shelf, truth)
    ensures Truthful(c, truth, es)
    decreases |es|
  {
    if |es| > 0 {
      if es[0].Get? { assert TrueAt(c.shelf, truth, es[0].k); }
      DoSound(c, truth, es[0]);
      DoWhole(c, truth, es[0]);
      WholeIsTruthful(Do(c, truth, es[0]), truth, es[1..]);
    }
  }

  /** A process always answers with nothing or the true bytes exactly when every file it recorded is whole. */
  lemma TruthfulIff(c: Cache, truth: string -> Bytes)
    requires Sound(c.shelf)
    ensures AlwaysTrue(c, truth) <==> Whole(c.shelf, truth)
  {
    if Whole(c.shelf, truth) {
      forall es ensures Truthful(c, truth, es) { WholeIsTruthful(c, truth, es); }
    } else {
      var k :| !TrueAt(c.shelf, truth, k);
      var es := [Get(k, 0)];
      assert !Truthful(c, truth, es);
    }
  }

  // ----- fragments of open versions -----

  /** The versions recorded are those of the keys. */
  ghost predicate OwnersRight(s: Shelf) {
    forall n :: n in s.owner ==> s.owner[n] == VersionOf(n)
  }

  lemma {:induction false} MinusOwners(owner: map<string, string>, gone: seq<Meta>, n: string)
    ensures n in Minus(owner, gone) ==> n in owner && Minus(owner, gone)[n] == owner[n]
  {
    if |gone| > 0 { MinusOwners(owner, gone[..|gone| - 1], n); }
  }

  lemma TrimOwners(s: Shelf, limit: int, pinned: set<string>)
    requires Sound(s) && OwnersRight(s)
    ensures OwnersRight(TrimShelf(s, limit, pinned))
  {
    var t := TrimShelf(s, limit, pinned);
    TrimIsEvicted(s, limit, pinned);
    forall n | n in t.owner ensures t.owner[n] == VersionOf(n) {
      MinusOwners(s.owner, Victims(ByUse(s.meta), s.used, limit, Pinned(s.owner, pinned)), n);
    }
  }

  lemma DoOwners(c: Cache, truth: string -> Bytes, e: Event)
    requires Sound(c.shelf) && OwnersRight(c.shelf)
    ensures OwnersRight(Do(c, truth, e).shelf)
  {
    match e
    case Set(k, now, write) =>
      if Lookup(c.shelf.meta, k).None? {
        RecordedSound(c.shelf, k, truth(k), now);
        TrimOwners(Recorded(c.shelf, k, truth(k), now), c.limit, c.pinned);
      }
    case Trim => TrimOwners(c.shelf, c.limit, c.pinned);
    case _ =>
  }

  lemma {:induction false} RunOwners(c: Cache, truth: string -> Bytes, es: seq<Event>)
    requires Sound(c.shelf) && OwnersRight(c.shelf)
    ensures Sound(Run(c, truth, es).shelf) && OwnersRight(Run(c, truth, es).shelf)
    decreases |es|
  {
    if |es| > 0 {
      DoSound(c, truth, es[0]);
      DoOwners(c, truth, es[0]);
      RunOwners(Do(c, truth, es[0]), truth, es[1..]);
    }
  }

  /**
   At any point of a process a trim leaves a fragment of an open version exactly when this process stored it (only
   then its version is recorded), or when everything left fits once the older fragments that may go are gone.
   */
  lemma OpenFragmentStaysIff(files: map<string, Bytes>, found: seq<Meta>, truth: string -> Bytes, limit: int,
      es: seq<Event>, m: Meta)
    requires Listed(found, files)
    requires var c := Run(Cache(StartShelf(files, found, limit), limit, {}), truth, es);
             m in c.shelf.meta && VersionOf(m.name) in c.pinned && VersionOf(m.name) != ""
    ensures var c := Run(Cache(StartShelf(files, found, limit), limit, {}), truth, es);
            var s := c.shelf;
            m in TrimShelf(s, c.limit, c.pinned).meta <==>
              m.name in s.owner || Total(s.meta) - OlderFree(ByUse(s.meta), Pinned(s.owner, c.pinned), m) <= c.limit
  {
    var c := Cache(StartShelf(files, found, limit), limit, {});
    StartSound(files, found, limit);
    TrimOwners(Shelf(found, Total(found), map[], files), limit, {});
    RunOwners(c, truth, es);
    var s := Run(c, truth, es).shelf;
    var pinned := Run(c, truth, es).pinned;
    TrimIsEvicted(s, Run(c, truth, es).limit, pinned);
    TrimStaysIff(s.meta, Run(c, truth, es).limit, Pinned(s.owner, pinned), m);
  }

  /** So the fragment of an open version that an earlier process left goes when a new one does not fit beside it. */
  lemma LeftoverGoes(left: Meta, k: string, v: Bytes, now: int, files: map<string, Bytes>, pinned: set<string>)
    requires left.name != k && left.at <= now && 0 < |v| && 0 < left.size
    ensures var s := Shelf([left], left.size, map[], files);
            left !in SetShelf(s, k, v, now, left.size + |v| - 1, pinned, Written).meta
  {
    var s := Shelf([left], left.size, map[], files);
    assert [left] + [Meta(k, |v|, now)] == [left, Meta(k, |v|, now)];
    assert [left][..0] == [] && Lookup([left], k).None?;
    FirstGoes(Recorded(s, k, v, now), left, Meta(k, |v|, now), left.size + |v| - 1, pinned);
  }

  lemma FirstGoes(s: Shelf, a: Meta, b: Meta, limit: int, pinned: set<string>)
    requires s.meta == [a, b] && s.used == a.size + b.size && a.name != b.name && a.at <= b.at
    requires a.name !in s.owner && a.size + b.size > limit
    ensures a !in TrimShelf(s, limit, pinned).meta
  {
    TwoRecords(a, b);
    TrimIsEvicted(s, limit, pinned);
    TrimStaysIff([a, b], limit, Pinned(s.owner, pinned), a);
    assert [a, b][0] == a;
  }

  lemma TwoRecords(a: Meta, b: Meta)
    requires a.name != b.name && a.at <= b.at
    ensures Distinct([a, b]) && Total([a, b]) == a.size + b.size && ByUse([a, b]) == [a, b]
  {
    OneRecord(a);
    AppendLast([a], b);
    assert [a] + [b] == [a, b];
    AppendLast<Meta>([], a);
    assert Insert([a], b) == [a] + [b];
  }

  lemma OneRecord(a: Meta)
    ensures Distinct([a]) && Total([a]) == a.size && ByUse([a]) == [a]
  {
    assert [a][..0] == [];
    assert ByUse([a][..0]) == [] && Insert([], a) == [] + [a] == [a];
  }

  // ----- runs of many processes over one directory -----

  /** A process: the files it finds, its limit, what happens. It may end anywhere, also in the middle of a write. */
  datatype Session = Session(found: seq<Meta>, limit: int, events: seq<Event>)

  function Start(files: map<string, Bytes>, s: Session): Cache {
    Cache(StartShelf(files, s.found, s.limit), s.limit, {})
  }

  /** The directory a session leaves. */
  function Left(files: map<string, Bytes>, truth: string -> Bytes, s: Session): map<string, Bytes> {
    Run(Start(files, s), truth, s.events).shelf.files
  }

  ghost predicate Possible(files: map<string, Bytes>, truth: string -> Bytes, h: seq<Session>)
    decreases |h|
  {
    |h| > 0 ==> Listed(h[0].found, files) && Possible(Left(files, truth, h[0]), truth, h[1..])
  }

  /** Every session of the history answers truthfully, whatever it is asked. */
  ghost predicate AlwaysTruthful(files: map<string, Bytes>, truth: string -> Bytes, h: seq<Session>)
    decreases |h|
  {
    |h| > 0 ==>
      && AlwaysTrue(Start(files, h[0]), truth)
      && AlwaysTruthful(Left(files, truth, h[0]), truth, h[1..])
  }

  /** Every file a session finds at its start and does not evict at once is whole. */
  ghost predicate KeepsWhole(files: map<string, Bytes>, truth: string -> Bytes, s: Session) {
    forall k :: k in files && Lookup(Start(files, s).shelf.meta, k).Some? ==> files[k] == truth(k)
  }

  /** Every session of the history keeps only whole files of those it finds. */
  ghost predicate FindsWhole(files: map<string, Bytes>, truth: string -> Bytes, h: seq<Session>)
    decreases |h|
  {
    |h| > 0 ==>
      && KeepsWhole(files, truth, h[0])
      && FindsWhole(Left(files, truth, h[0]), truth, h[1..])
  }

  /** A name still recorded after the trim at the start has its file. */
  lemma StartAt(files: map<string, Bytes>, found: seq<Meta>, limit: int, k: string)
    requires Listed(found, files)
    ensures var s := StartShelf(files, found, limit);
            && (Lookup(s.meta, k).Some? ==> k in s.files)
            && (k in s.files ==> k in files && s.files[k] == files[k])
  {
    var all := Shelf(found, Total(found), map[], files);
    TrimIsEvicted(all, limit, {});
    TrimAt(all, limit, {}, k);
    KeptFile(found, files, Victims(ByUse(found), Total(found), limit, Pinned(map[], {})), k);
  }

  lemma {:induction false} KeptFile(ms: seq<Meta>, files: map<string, Bytes>, gone: seq<Meta>, k: string)
    requires Lookup(ms, k).Some? ==> k in files
    ensures Lookup(WithoutAll(ms, gone), k).Some? ==> k in Minus(files, gone)
  {
    if |gone| > 0 {
      var init, g := gone[..|gone| - 1], gone[|gone| - 1];
      KeptFile(ms, files, init, k);
      LookupWithout(WithoutAll(ms, init), g.name, k);
    }
  }

  lemma StartIsWhole(files: map<string, Bytes>, truth: string -> Bytes, s: Session)
    requires Listed(s.found, files)
    ensures Whole(Start(files, s).shelf, truth) <==> KeepsWhole(files, truth, s)
  {
    forall k ensures TrueAt(Start(files, s).shelf, truth, k) <==>
                     (k in files && Lookup(Start(files, s).shelf.meta, k).Some? ==> files[k] == truth(k))
    {
      StartAt(files, s.found, s.limit, k);
    }
  }

  /**
   Over any history of processes, each ending anywhere: all of them answer with nothing or the true bytes exactly
   when no process keeps a short file of those it finds at its start.
   */
  lemma {:induction false} AlwaysTruthfulIff(files: map<string, Bytes>, truth: string -> Bytes, h: seq<Session>)
    requires Possible(files, truth, h)
    ensures AlwaysTruthful(files, truth, h) <==> FindsWhole(files, truth, h)
    decreases |h|
  {
    if |h| > 0 {
      StartSound(files, h[0].found, h[0].limit);
      TruthfulIff(Start(files, h[0]), truth);
      StartIsWhole(files, truth, h[0]);
      AlwaysTruthfulIff(Left(files, truth, h[0]), truth, h[1..]);
    }
  }

  /** Where all files found fit the limit, that is every file of the directory. */
  lemma KeepsAllThatFit(files: map<string, Bytes>, truth: string -> Bytes, s: Session)
    requires Listed(s.found, files) && Total(s.found) <= s.limit
    ensures KeepsWhole(files, truth, s) <==> AllWhole(files, truth)
  {
    if KeepsWhole(files, truth, s) {
      forall k | k in files ensures files[k] == truth(k) {
        assert Lookup(Start(files, s).shelf.meta, k).Some?;
      }
    }
  }

  // ----- when the directory stays whole -----

  ghost predicate AllWhole(files: map<string, Bytes>, truth: string -> Bytes) {
    forall k :: k in files ==> files[k] == truth(k)
  }

  /** No write of the events ends with part of the bytes on the disk. */
  predicate NoneCutShort(truth: string -> Bytes, es: seq<Event>) {
    forall i :: 0 <= i < |es| && es[i].Set? && es[i].write.CutShort? ==> es[i].write.bytes >= |truth(es[i].k)|
  }

  lemma DoAllWhole(c: Cache, truth: string -> Bytes, e: Event)
    requires Sound(c.shelf) && AllWhole(c.shelf.files, truth) && NoneCutShort(truth, [e])
    ensures AllWhole(Do(c, truth, e).shelf.files, truth)
  {
    forall x | x in Do(c, truth, e).shelf.files ensures Do(c, truth, e).shelf.files[x] == truth(x) {
      match e
      case Set(k, now, write) =>
        assert [e][0] == e;
        if Lookup(c.shelf.meta, k).None? && |truth(k)| <= c.limit && write.Written? {
          RecordedSound(c.shelf, k, truth(k), now);
          TrimAt(Recorded(c.shelf, k, truth(k), now), c.limit, c.pinned, x);
        }
      case Trim => TrimAt(c.shelf, c.limit, c.pinned, x);
      case Get(k, now) => GetAt(c.shelf, k, now, x);
      case _ =>
    }
  }

  lemma {:induction false} RunAllWhole(c: Cache, truth: string -> Bytes, es: seq<Event>)
    requires Sound(c.shelf) && AllWhole(c.shelf.files, truth) && NoneCutShort(truth, es)
    ensures AllWhole(Run(c, truth, es).shelf.files, truth)
    decreases |es|
  {
    if |es| > 0 {
      assert forall i :: 0 <= i < |es| - 1 ==> es[1..][i] == es[i + 1];
      assert NoneCutShort(truth, [es[0]]);
      DoSound(c, truth, es[0]);
      DoAllWhole(c, truth, es[0]);
      RunAllWhole(Do(c, truth, es[0]), truth, es[1..]);
    }
  }

  /** From a directory of whole files, and with no write cut short, every process answers truthfully. */
  lemma {:induction false} NothingCutShortIsTruthful(files: map<string, Bytes>, truth: string -> Bytes, h: seq<Session>)
    requires Possible(files, truth, h) && AllWhole(files, truth)
    requires forall i :: 0 <= i < |h| ==> NoneCutShort(truth, h[i].events)
    ensures AlwaysTruthful(files, truth, h)
    decreases |h|
  {
    if |h| > 0 {
      var s := h[0];
      StartSound(files, s.found, s.limit);
      StartIsWhole(files, truth, s);
      TruthfulIff(Start(files, s), truth);
      forall k | k in Start(files, s).shelf.files ensures Start(files, s).shelf.files[k] == truth(k) {
        StartAt(files, s.found, s.limit, k);
      }
      RunAllWhole(Start(files, s), truth, s.events);
      NothingCutShortIsTruthful(Left(files, truth, s), truth, h[1..]);
    }
  }

  /** A write cut short, a new process, a question: the answer is part of the fragment. */
  lemma CutShortIsRead(c: Cache, truth: string -> Bytes, k: string, now: int, n: nat, found: seq<Meta>, limit: int)
    requires Lookup(c.shelf.meta, k).None? && n < |truth(k)| <= c.limit
    requires var files := Do(c, truth, Set(k, now, CutShort(n))).shelf.files;
             Listed(found, files) && Total(found) <= limit
    ensures var files := Do(c, truth, Set(k, now, CutShort(n))).shelf.files;
            Answer(StartShelf(files, found, limit), k) == Some(truth(k)[..n]) != Some(truth(k))
  {
    assert |truth(k)[..n]| == n;
  }
}
