/** The few fragments kept in memory in front of the cache on disk (class MemFront of the desktop agent). */
module FragFront {
  import opened Basics
  import opened FragCache
  import opened FragDisk
  import Lru

  const KEEP: nat := 4

  /** Fragments held one after the other. */
  type Holds = seq<Lru.Use<string, Bytes>>

  ghost predicate AllStored(holds: Holds) {
    forall i :: 0 <= i < |holds| ==> holds[i].Stored?
  }

  function HeldKeys(holds: Holds): seq<string>
  {
    if |holds| == 0 then [] else HeldKeys(holds[..|holds| - 1]) + [holds[|holds| - 1].k]
  }

  lemma {:induction false} HoldsAreTouches(holds: Holds)
    requires AllStored(holds)
    ensures Lru.Touches(holds, KEEP) == HeldKeys(holds)
  {
    if |holds| > 0 { HoldsAreTouches(holds[..|holds| - 1]); }
  }

  /** The memory holds exactly the last four different fragments held, the latest last. */
  lemma MemoryIsExactLru(holds: Holds, k: string)
    requires AllStored(holds)
    ensures Lru.Keys(Lru.Run(holds, KEEP)) == Lru.Last(Lru.ByLastTouch(HeldKeys(holds)), KEEP)
    ensures Lru.Find(Lru.Run(holds, KEEP), k).Some? <==> Lru.Recent(HeldKeys(holds), k, KEEP)
  {
    HoldsAreTouches(holds);
    Lru.KeysAreMostRecent(holds, KEEP);
    Lru.ExactLru(holds, KEEP, k);
  }

  /** Every fragment held had its true bytes. */
  ghost predicate TrueHolds(holds: Holds, truth: string -> Bytes) {
    forall i :: 0 <= i < |holds| && holds[i].Stored? ==> holds[i].v == truth(holds[i].k)
  }

  lemma {:induction false} StoredIsTrue(holds: Holds, truth: string -> Bytes, k: string)
    requires TrueHolds(holds, truth) && Lru.LastStored(holds, k).Some?
    ensures Lru.LastStored(holds, k) == Some(truth(k))
  {
    var n := |holds| - 1;
    if !(holds[n].Stored? && holds[n].k == k) { StoredIsTrue(holds[..n], truth, k); }
  }

  class MemFront {
    const back: FragDiskCache
    var mem: seq<Lru.Entry<string, Bytes>>
    /** What was held since the start. */
    ghost var holds: Holds

    ghost predicate Valid()
      reads this, back
    {
      back.Valid() && AllStored(holds) && mem == Lru.Run(holds, KEEP)
    }

    /** Nothing but true bytes in memory and among the recorded files. */
    ghost predicate True(truth: string -> Bytes)
      reads this, back
    {
      Whole(back.State(), truth) && TrueHolds(holds, truth)
    }

    constructor (back: FragDiskCache)
      requires back.Valid()
      ensures Valid() && this.back == back && mem == [] && holds == []
    {
      this.back, mem, holds := back, [], [];
    }

    method Hold(k: string, v: Bytes)
      requires Valid()
      modifies this`mem, this`holds
      ensures Valid() && holds == old(holds) + [Lru.Stored(k, v)]
    {
      AppendLast(holds, Lru.Stored(k, v));
      mem := Lru.Put(mem, k, v, KEEP);
      holds := holds + [Lru.Stored(k, v)];
    }

    /** What is in memory, else what the disk has, which is held then; with true bytes in both, nothing but them. */
    method Get(k: string, now: int) returns (r: Option<Bytes>)
      requires Valid()
      modifies this`mem, this`holds, back`meta, back`used
      ensures Valid()
      ensures r == if old(Lru.Find(mem, k)).Some? then old(Lru.Find(mem, k)) else Answer(old(back.State()), k)
      ensures holds == if r.Some? then old(holds) + [Lru.Stored(k, r.value)] else old(holds)
      ensures back.State() == if old(Lru.Find(mem, k)).Some? then old(back.State())
                              else GetShelf(old(back.State()), k, now)
      ensures forall truth :: old(True(truth)) ==> True(truth) && (r.Some? ==> r.value == truth(k))
    {
      var m := Lru.Find(mem, k);
      if m.Some? {
        Hold(k, m.value);
        r := m;
      } else {
        r := back.Get(k, now);
        if r.Some? { Hold(k, r.value); }
      }
      forall truth | old(True(truth)) ensures True(truth) && (r.Some? ==> r.value == truth(k)) {
        GetKeepsTrue(old(back.State()), old(holds), k, now, truth);
      }
    }

    method Set(k: string, v: Bytes, now: int, write: Write)
      requires Valid()
      modifies this`mem, this`holds, back`meta, back`used, back`owner, back`files
      ensures Valid()
      ensures holds == old(holds) + [Lru.Stored(k, v)]
      ensures back.State() == SetShelf(old(back.State()), k, v, now, back.limit, back.pinned, write)
      ensures forall truth :: old(True(truth)) && v == truth(k) ==> True(truth)
    {
      Hold(k, v);
      back.Set(k, v, now, write);
      forall truth | old(True(truth)) && v == truth(k) ensures True(truth) {
        SetKeepsTrue(old(back.State()), k, now, back.limit, back.pinned, write, truth);
      }
    }
  }

  lemma GetKeepsTrue(s: Shelf, holds: Holds, k: string, now: int, truth: string -> Bytes)
    requires Whole(s, truth) && TrueHolds(holds, truth)
    ensures Whole(GetShelf(s, k, now), truth)
    ensures Answer(s, k).Some? ==> Answer(s, k) == Some(truth(k))
    ensures Lru.Find(Lru.Run(holds, KEEP), k).Some? ==> Lru.Find(Lru.Run(holds, KEEP), k) == Some(truth(k))
  {
    assert TrueAt(s, truth, k);
    forall x ensures TrueAt(GetShelf(s, k, now), truth, x) {
      assert TrueAt(s, truth, x);
      GetAt(s, k, now, x);
    }
    Lru.FindsLastStored(holds, KEEP, k);
    if Lru.LastStored(holds, k).Some? { StoredIsTrue(holds, truth, k); }
  }

  lemma SetKeepsTrue(s: Shelf, k: string, now: int, limit: int, pinned: set<string>, write: Write,
      truth: string -> Bytes)
    requires Sound(s) && Whole(s, truth)
    ensures Whole(SetShelf(s, k, truth(k), now, limit, pinned, write), truth)
  {
    forall x ensures TrueAt(SetShelf(s, k, truth(k), now, limit, pinned, write), truth, x) {
      assert TrueAt(s, truth, x);
      SetTrueAt(s, truth, k, now, limit, pinned, write, x);
    }
  }
}
