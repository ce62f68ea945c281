/**
 A download straight to disk that survives being cut short (`downloadToDisk` of the application core): fragments
 are written one after the other into a partial file; after each a journal with the number of fragments and the
 state of the whole-file hash is stored, a little later and in any order with the rest. A hash state is the bytes
 it has taken in.
 */
module DiskDownload {
  import opened Basics

  /** A version: its bytes, cut into `count` fragments of `piece` bytes, the last one shorter. */
  datatype Version = Version(bytes: Bytes, piece: nat, count: nat)

  /** Where fragment `i` begins. */
  function Start(v: Version, i: nat): (r: nat)
    ensures r <= |v.bytes|
  {
    if i == 0 then 0 else Min(|v.bytes|, Start(v, i - 1) + v.piece)
  }

  ghost predicate WellCut(v: Version) {
    && v.piece > 0
    && Start(v, v.count) == |v.bytes|
    && (v.count > 1 ==> Start(v, v.count - 1) < |v.bytes|)
  }

  function Fragment(v: Version, i: nat): Bytes {
    if Start(v, i) <= Start(v, i + 1) then v.bytes[Start(v, i)..Start(v, i + 1)] else []
  }

  /** `hash` is None in a journal that has none yet. */
  datatype Journal = Journal(next: nat, chunk: nat, hash: Option<Bytes>)

  const FRESH := Journal(0, 0, None)

  /** The bytes a journal vouches for. */
  function Vouched(v: Version, j: Journal): nat {
    Min(|v.bytes|, j.next * j.chunk)
  }

  /** The hash state of a journal is that of exactly the fragments it counts. */
  ghost predicate Honest(v: Version, j: Journal) {
    && j.next <= v.count
    && (j.chunk == 0 || j.chunk == Start(v, 1))
    && (j.next > 0 ==>
          j.hash.Some? && j.hash.value == v.bytes[..Start(v, j.next)] && (j.chunk == 0 ==> |v.bytes| == 0))
  }

  predicate Resumable(v: Version, j: Journal, size: nat) {
    j.next > 0 && j.hash.Some? && j.chunk > 0 && size >= Vouched(v, j)
  }

  lemma {:induction false} StartGrows(v: Version, i: nat, k: nat)
    requires i <= k
    ensures Start(v, i) <= Start(v, k)
    decreases k
  {
    if i < k { StartGrows(v, i, k - 1); }
  }

  /** Fragments of equal length begin at its multiples, up to the end. */
  lemma {:induction false} StartIs(v: Version, i: nat)
    ensures Start(v, i) == Min(|v.bytes|, i * v.piece)
  {
    if i > 0 {
      StartIs(v, i - 1);
      assert i * v.piece == (i - 1) * v.piece + v.piece;
    }
  }

  lemma Multiple(i: nat, n: nat)
    requires i > 0
    ensures i * n >= n
  {
    assert i * n == (i - 1) * n + n;
  }

  /** The first fragment's length as the unit gives the same places as the true one, also when it is the only one. */
  lemma ChunkCovers(v: Version, next: nat)
    requires next > 0
    ensures Min(|v.bytes|, next * Start(v, 1)) == Start(v, next)
  {
    StartIs(v, next);
    if |v.bytes| < v.piece {
      StartGrows(v, 1, next);
      Multiple(next, |v.bytes|);
    } else {
      assert Start(v, 1) == v.piece;
    }
  }

  /** A journal vouches for exactly the bytes its hash has taken in: min(size, next * chunk) of them. */
  lemma HonestVouches(v: Version, j: Journal)
    requires Honest(v, j) && j.next > 0
    ensures Vouched(v, j) == Start(v, j.next) && j.hash == Some(v.bytes[..Vouched(v, j)])
  {
    if j.chunk > 0 { ChunkCovers(v, j.next); }
  }

  lemma FragmentFollows(v: Version, i: nat)
    ensures v.bytes[..Start(v, i)] + Fragment(v, i) == v.bytes[..Start(v, i + 1)]
  {
    StartGrows(v, i, i + 1);
  }

  /** Written behind the fragments before it, a fragment makes the next prefix. */
  lemma Follows(v: Version, part: Bytes, i: nat)
    requires part <= v.bytes && |part| == Start(v, i)
    ensures part == v.bytes[..Start(v, i)] && part[..|part|] == part
    ensures part + Fragment(v, i) == v.bytes[..Start(v, i + 1)] <= v.bytes
    ensures |part| + |Fragment(v, i)| == Start(v, i + 1)
  {
    FragmentFollows(v, i);
    StartGrows(v, i, i + 1);
  }

  datatype Phase = Idle | Opened | Ready | Wrote | Published

  class Download {
    const v: Version
    // On the disk.
    var part: Bytes
    var stored: Option<Journal>
    var published: Option<Bytes>
    // In memory.
    var phase: Phase
    var j: Journal
    var offset: nat
    /** The next fragment to fetch, and what the hash has taken in. */
    var index: nat
    var hashed: Bytes
    /** Journals on their way to the store. */
    var saving: seq<Journal>

    ghost predicate Safe()
      reads this
    {
      && WellCut(v)
      && part <= v.bytes
      && (stored.Some? ==> Honest(v, stored.value))
      && (forall i :: 0 <= i < |saving| ==> Honest(v, saving[i]))
      && (published.Some? ==> published.value == v.bytes)
    }

    ghost predicate Valid()
      reads this
    {
      && Safe()
      && (phase.Opened? || phase.Ready? || phase.Wrote? ==>
            && Honest(v, j) && index <= v.count
            && |part| == offset == Start(v, index) && hashed == v.bytes[..offset]
            && (phase.Wrote? ==> index > 0)
            && (j.chunk == 0 ==> offset == if phase.Wrote? then Start(v, 1) else 0))
      && (phase.Published? ==> published.Some?)
    }

    constructor (v: Version)
      requires WellCut(v)
      ensures Valid() && this.v == v && phase == Idle
      ensures part == [] && stored == None && published == None && saving == []
    {
      this.v := v;
      part, stored, published := [], None, None;
      phase, j, offset, index, hashed, saving := Idle, FRESH, 0, 0, [], [];
    }

    /** A run begins: what the journal vouches for stays, anything past it is cut off. */
    method Open() returns (resumed: nat)
      requires Valid() && phase == Idle
      modifies this`part, this`phase, this`j, this`offset, this`index, this`hashed
      ensures Valid() && phase == Opened
      ensures j == if stored.Some? then stored.value else FRESH
      ensures if Resumable(v, j, |old(part)|) then resumed == index == j.next && part == old(part)[..Vouched(v, j)]
              else resumed == index == 0 && part == []
    {
      j := if stored.Some? then stored.value else FRESH;
      if Resumable(v, j, |part|) {
        HonestVouches(v, j);
        part := part[..Vouched(v, j)];
        offset, index, hashed, resumed := Vouched(v, j), j.next, j.hash.value, j.next;
      } else {
        part := [];
        offset, index, hashed, resumed := 0, 0, [], 0;
      }
      phase := Opened;
    }

    /** The journal put back before the first fragment, also one that could not be resumed from. */
    method PutFirst()
      requires Valid() && phase == Opened
      modifies this`stored, this`phase
      ensures Valid() && phase == Ready && stored == Some(j)
    {
      stored := Some(j);
      phase := Ready;
    }

    /** A fragment fetched, taken into the hash and written. */
    method Write()
      requires Valid() && phase == Ready && index < v.count
      modifies this`part, this`phase, this`offset, this`index, this`hashed
      ensures Valid() && phase == Wrote
      ensures index == old(index) + 1 && part == old(part) + Fragment(v, old(index))
    {
      var d := Fragment(v, index);
      Follows(v, part, index);
      hashed := hashed + d;
      part := part[..offset] + d;
      offset := offset + |d|;
      index := index + 1;
      phase := Wrote;
    }

    /** Noted in the journal, which goes to the store. */
    method OnWritten()
      requires Valid() && phase == Wrote
      modifies this`phase, this`j, this`saving
      ensures Valid() && phase == Ready
      ensures saving == old(saving) + [j]
      ensures j == Journal(index, if old(j.chunk) == 0 then offset else old(j.chunk), Some(hashed))
    {
      StartGrows(v, 1, index);
      j := Journal(index, if j.chunk == 0 then offset else j.chunk, Some(hashed));
      saving := saving + [j];
      phase := Ready;
    }

    /** A journal arrives in the store, or could not be stored. */
    method Saved(i: nat, ok: bool)
      requires Valid() && i < |saving|
      modifies this`stored, this`saving
      ensures Valid()
      ensures saving == old(saving)[..i] + old(saving)[i + 1..]
      ensures stored == if ok then Some(old(saving)[i]) else old(stored)
    {
      if ok {
        stored := Some(saving[i]);
      }
      saving := saving[..i] + saving[i + 1..];
    }

    /** The whole file is there: the partial file becomes the file. */
    method Finish()
      requires Valid() && phase == Ready && index == v.count
      modifies this`part, this`published, this`phase
      ensures Valid() && phase == Published
      ensures published == Some(old(part)) == Some(v.bytes) && part == []
    {
      assert part == v.bytes[..|part|] == v.bytes;
      published := Some(part);
      part := [];
      phase := Published;
    }

    method Forget()
      requires Valid() && phase == Published
      modifies this`stored, this`phase
      ensures Valid() && phase == Idle && stored == None
    {
      stored := None;
      phase := Idle;
    }

    /**
     The run fails; journals on their way still arrive. Of a fragment being written the first `torn` bytes may be
     on the disk.
     */
    method Fail(torn: nat)
      requires Valid()
      modifies this`part, this`phase
      ensures Valid() && phase == Idle
      ensures part == if old(phase) == Ready && torn <= |Fragment(v, index)| then old(part) + Fragment(v, index)[..torn]
                      else old(part)
    {
      if phase == Ready && torn <= |Fragment(v, index)| {
        FragmentFollows(v, index);
        assert part + Fragment(v, index)[..torn] <= part + Fragment(v, index);
        part := part + Fragment(v, index)[..torn];
      }
      phase := Idle;
    }

    /** Everything in memory is lost. */
    method Crash(torn: nat)
      requires Valid()
      modifies this`part, this`phase, this`saving
      ensures Valid() && phase == Idle && saving == []
      ensures part == if old(phase) == Ready && torn <= |Fragment(v, index)| then old(part) + Fragment(v, index)[..torn]
                      else old(part)
    {
      Fail(torn);
      saving := [];
    }
  }

  // ----- runs -----

  /** One thing that may happen next. */
  datatype Event = Step | Save(i: nat, ok: bool) | Failure(torn: nat) | Cut(torn: nat)

  /** The run goes one step on. */
  method Next(d: Download)
    requires d.Valid()
    modifies d
    ensures d.Valid()
  {
    match d.phase
    case Idle => var _ := d.Open();
    case Opened => d.PutFirst();
    case Ready =>
      if d.index < d.v.count {
        d.Write();
      } else if |d.saving| == 0 {
        d.Finish();
      } else {
        d.Saved(0, true);
      }
    case Wrote => d.OnWritten();
    case Published => d.Forget();
  }

  /**
   Whatever happens, in any order and with any number of crashes and new runs: the partial file is a prefix of
   the version, every journal stored or on its way is honest, and what is published is the whole version.
   */
  method AnyHistory(d: Download, events: seq<Event>)
    requires d.Valid()
    modifies d
    ensures d.Valid()
    ensures d.part <= d.v.bytes
    ensures d.stored.Some? ==> Honest(d.v, d.stored.value)
    ensures d.published.Some? ==> d.published.value == d.v.bytes
  {
    var i := 0;
    while i < |events|
      invariant 0 <= i <= |events| && d.Valid()
    {
      match events[i] {
        case Step => Next(d);
        case Save(k, ok) => if k < |d.saving| { d.Saved(k, ok); }
        case Failure(torn) => d.Fail(torn);
        case Cut(torn) => d.Crash(torn);
      }
      i := i + 1;
    }
  }

  /**
   A run that is not cut short publishes the whole version, whatever earlier ones left, and fetches only the
   fragments the journal does not vouch for.
   */
  method DownloadToDisk(d: Download) returns (resumed: nat, fetched: nat)
    requires d.Valid() && d.phase == Idle && d.saving == []
    modifies d
    ensures d.Valid() && d.phase == Idle && d.stored == None
    ensures d.published == Some(d.v.bytes)
    ensures resumed + fetched == d.v.count
    ensures var j := if old(d.stored).Some? then old(d.stored).value else FRESH;
            resumed == if Resumable(d.v, j, |old(d.part)|) then j.next else 0
  {
    resumed := d.Open();
    d.PutFirst();
    fetched := 0;
    while d.index < d.v.count
      invariant d.Valid() && d.phase == Ready && d.index <= d.v.count && d.saving == []
      invariant resumed + fetched == d.index
      decreases d.v.count - d.index
    {
      d.Write();
      d.OnWritten();
      d.Saved(0, true);
      fetched := fetched + 1;
    }
    d.Finish();
    d.Forget();
  }
}
