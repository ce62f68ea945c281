/**
 The state of the writable disk's upload queue (class Outbox of the desktop agent) and what each of its
 operations does to it. A queued copy has a number `n` that grows with every copy taken: the queue is kept in
 that order. The directory holds, per copy, the bytes (q-<n>) and a small JSON file with their target
 (q-<n>.json).
 */
module OutboxState {
  import opened Basics

  /** A folder's id and a name in it. */
  datatype Place = Place(dir: string, name: string)

  datatype Item = Item(n: nat, at: Place, size: nat, mtime: int, trashed: bool, fails: nat, notBefore: int)

  /** The copy being uploaded and the place it is uploaded to, as they were when the upload began. */
  datatype Flight = Flight(n: nat, at: Place, size: nat)

  /** What q-<n>.json says. */
  datatype Target = Target(at: Place, mtime: real)

  datatype Dir = Dir(copies: map<nat, Bytes>, targets: map<nat, Target>)

  datatype Queue = Queue(items: seq<Item>, current: Option<Flight>, done: nat, total: nat, dir: Dir)

  // ----- names kept on this computer only -----

  function Lower(c: char): char {
    if 'A' <= c <= 'Z' then 'a' + (c - 'A') else c
  }

  predicate StartsWith(s: string, p: string) {
    |p| <= |s| && forall i :: 0 <= i < |p| ==> Lower(s[i]) == Lower(p[i])
  }

  predicate EndsWith(s: string, p: string) {
    |p| <= |s| && forall i :: 0 <= i < |p| ==> Lower(s[|s| - |p| + i]) == Lower(p[i])
  }

  /** No character that `.` of a regular expression leaves out. */
  predicate OneLine(s: string) {
    forall i :: 0 <= i < |s| ==> s[i] != '\n' && s[i] != '\r' && s[i] != '\U{2028}' && s[i] != '\U{2029}'
  }

  /** Short-lived files of editors and file managers. (The pattern ~WRL<digits>.tmp is a case of .tmp.) */
  predicate LocalOnlyName(s: string) {
    || StartsWith(s, ".goutputstream-")
    || (StartsWith(s, ".~lock.") && EndsWith(s, "#") && OneLine(s))
    || EndsWith(s, "~")
    || StartsWith(s, ".#")
    || (|s| >= 2 && StartsWith(s, "#") && EndsWith(s, "#") && OneLine(s))
    || EndsWith(s, ".swp") || EndsWith(s, ".swx")
    || StartsWith(s, ".Trash")
    || StartsWith(s, "~$")
    || EndsWith(s, ".tmp")
    || (|s| == 11 && StartsWith(s, "desktop.ini"))
    || (|s| == 9 && StartsWith(s, "Thumbs.db"))
  }

  predicate Uploadable(it: Item) { !LocalOnlyName(it.at.name) }

  // ----- what the queue shows -----

  /** The newest copy a place shows from the queue. */
  function Newest(items: seq<Item>, p: Place): Option<Item> {
    if |items| == 0 then None
    else
      var last := items[|items| - 1];
      if last.at == p && !last.trashed then Some(last) else Newest(items[..|items| - 1], p)
  }

  /** The queued copy of a number. */
  function Find(items: seq<Item>, n: nat): Option<Item> {
    if |items| == 0 then None
    else if items[|items| - 1].n == n then Some(items[|items| - 1])
    else Find(items[..|items| - 1], n)
  }

  // ----- the operations on the list of copies -----

  /** The numbers in flight. */
  function Sending(q: Queue): Option<nat> {
    if q.current.Some? then Some(q.current.value.n) else None
  }

  /** A newer copy of the same place replaces a copy not being uploaded. */
  predicate Replaced(it: Item, p: Place, cur: Option<nat>) {
    it.at == p && cur != Some(it.n)
  }

  function WithoutReplaced(items: seq<Item>, p: Place, cur: Option<nat>): seq<Item> {
    if |items| == 0 then []
    else
      var init, last := items[..|items| - 1], items[|items| - 1];
      WithoutReplaced(init, p, cur) + if Replaced(last, p, cur) then [] else [last]
  }

  predicate Hit(it: Item, p: Place) { it.at == p && !it.trashed }

  predicate AnyHit(items: seq<Item>, p: Place) {
    exists i :: 0 <= i < |items| && Hit(items[i], p)
  }

  function Moved(it: Item, src: Place, dst: Place): Item {
    if Hit(it, src) then it.(at := dst) else it
  }

  function MovedItems(items: seq<Item>, src: Place, dst: Place): (r: seq<Item>)
    ensures |r| == |items|
    ensures forall i :: 0 <= i < |items| ==> r[i] == Moved(items[i], src, dst)
  {
    seq(|items|, i requires 0 <= i < |items| => Moved(items[i], src, dst))
  }

  /** Removed on the disk: the copy being uploaded goes to the trash afterwards, the others are dropped. */
  function RemovedItems(items: seq<Item>, p: Place, cur: Option<nat>): seq<Item> {
    if |items| == 0 then []
    else
      var init, last := items[..|items| - 1], items[|items| - 1];
      RemovedItems(init, p, cur) +
      if !Hit(last, p) then [last] else if cur == Some(last.n) then [last.(trashed := true)] else []
  }

  function WithoutCopy(items: seq<Item>, n: nat): seq<Item> {
    if |items| == 0 then []
    else
      var init, last := items[..|items| - 1], items[|items| - 1];
      WithoutCopy(init, n) + if last.n == n then [] else [last]
  }

  // ----- the burst's total after dropping copies one by one (vdisk.ts `drop`) -----

  function DropTotal(it: Item, cur: Option<nat>, done: nat, total: nat): nat {
    if cur != Some(it.n) && Uploadable(it) then Max(done, total - it.size) else total
  }

  function ReplacedTotal(items: seq<Item>, p: Place, cur: Option<nat>, done: nat, total: nat): nat {
    if |items| == 0 then total
    else
      var t := ReplacedTotal(items[..|items| - 1], p, cur, done, total);
      var last := items[|items| - 1];
      if Replaced(last, p, cur) then DropTotal(last, cur, done, t) else t
  }

  function RemovedTotal(items: seq<Item>, p: Place, cur: Option<nat>, done: nat, total: nat): nat {
    if |items| == 0 then total
    else
      var t := RemovedTotal(items[..|items| - 1], p, cur, done, total);
      var last := items[|items| - 1];
      if Hit(last, p) && cur != Some(last.n) then DropTotal(last, cur, done, t) else t
  }

  // ----- the directory -----

  datatype FsCall =
    | TakeCopy(n: nat, bytes: Bytes)
    | WriteTarget(n: nat, target: Target)
    | RemoveCopy(n: nat)
    | RemoveTarget(n: nat)

  function Call(d: Dir, c: FsCall): Dir {
    match c
    case TakeCopy(n, b) => d.(copies := d.copies[n := b])
    case WriteTarget(n, t) => d.(targets := d.targets[n := t])
    case RemoveCopy(n) => d.(copies := d.copies - {n})
    case RemoveTarget(n) => d.(targets := d.targets - {n})
  }

  function Calls(d: Dir, cs: seq<FsCall>): Dir {
    if |cs| == 0 then d else Call(Calls(d, cs[..|cs| - 1]), cs[|cs| - 1])
  }

  function DropCalls(n: nat): seq<FsCall> { [RemoveCopy(n), RemoveTarget(n)] }

  function ReplaceCalls(items: seq<Item>, p: Place, cur: Option<nat>): seq<FsCall> {
    if |items| == 0 then []
    else
      var last := items[|items| - 1];
      ReplaceCalls(items[..|items| - 1], p, cur) + if Replaced(last, p, cur) then DropCalls(last.n) else []
  }

  function MoveCalls(items: seq<Item>, src: Place, dst: Place): seq<FsCall> {
    if |items| == 0 then []
    else
      var last := items[|items| - 1];
      MoveCalls(items[..|items| - 1], src, dst) +
      if Hit(last, src) then [WriteTarget(last.n, Target(dst, last.mtime as real))] else []
  }

  function RemoveCalls(items: seq<Item>, p: Place, cur: Option<nat>): seq<FsCall> {
    if |items| == 0 then []
    else
      var last := items[|items| - 1];
      RemoveCalls(items[..|items| - 1], p, cur) +
      if Hit(last, p) && cur != Some(last.n) then DropCalls(last.n) else []
  }

  // ----- the operations -----

  /** The file-system calls of each operation, in the order they are made. */
  function AddCalls(q: Queue, n: nat, p: Place, bytes: Bytes, mtimeMs: real): seq<FsCall> {
    [TakeCopy(n, bytes), WriteTarget(n, Target(p, mtimeMs))] + ReplaceCalls(q.items, p, Sending(q))
  }

  function Add(q: Queue, n: nat, p: Place, bytes: Bytes, mtimeMs: real): Queue {
    var it := Item(n, p, |bytes|, mtimeMs.Floor, false, 0, 0);
    var total := ReplacedTotal(q.items, p, Sending(q), q.done, q.total);
    q.(items := WithoutReplaced(q.items, p, Sending(q)) + [it],
       total := if Uploadable(it) then total + |bytes| else total,
       dir := Calls(q.dir, AddCalls(q, n, p, bytes, mtimeMs)))
  }

  function RenamePending(q: Queue, src: Place, dst: Place): Queue {
    q.(items := MovedItems(q.items, src, dst), dir := Calls(q.dir, MoveCalls(q.items, src, dst)))
  }

  function RemovePending(q: Queue, p: Place): Queue {
    q.(items := RemovedItems(q.items, p, Sending(q)),
       total := RemovedTotal(q.items, p, Sending(q), q.done, q.total),
       dir := Calls(q.dir, RemoveCalls(q.items, p, Sending(q))))
  }

  /** The upload of a copy begins. */
  function Begin(q: Queue, it: Item): Queue {
    q.(current := Some(Flight(it.n, it.at, it.size)))
  }

  /** A window with nothing queued starts a new burst (vdisk.ts `report`). */
  function Report(q: Queue): Queue {
    if |q.items| == 0 then q.(done := 0, total := 0) else q
  }

  /** The copy in flight ended (uploaded, or refused for good): its bytes are done, the copy is dropped. */
  function End(q: Queue): Queue
    requires q.current.Some?
  {
    var f := q.current.value;
    var dropped := q.(items := WithoutCopy(q.items, f.n), done := q.done + f.size, dir := Calls(q.dir, DropCalls(f.n)));
    Report(dropped).(current := None)
  }

  const RETRY_FIRST := 2000
  const RETRY_LAST := 300000

  /** 2 s after the first failure, doubling, at most 5 min. */
  function Backoff(fails: nat): nat
    requires fails > 0
  {
    if fails == 1 then RETRY_FIRST else Min(2 * Backoff(fails - 1), RETRY_LAST)
  }

  function FailedItem(it: Item, n: nat, now: int): Item {
    if it.n == n then it.(fails := it.fails + 1, notBefore := now + Backoff(it.fails + 1)) else it
  }

  function FailedItems(items: seq<Item>, n: nat, now: int): (r: seq<Item>)
    ensures |r| == |items|
    ensures forall i :: 0 <= i < |items| ==> r[i] == FailedItem(items[i], n, now)
  {
    seq(|items|, i requires 0 <= i < |items| => FailedItem(items[i], n, now))
  }

  /** The upload failed for now: the copy waits its own time. */
  function Fail(q: Queue, now: int): Queue
    requires q.current.Some?
  {
    q.(items := FailedItems(q.items, q.current.value.n, now), current := None)
  }

  // ----- what holds of every queue -----

  /** In the order of the numbers, said one copy at a time. */
  ghost predicate Sorted(items: seq<Item>) {
    |items| == 0 ||
    (Sorted(items[..|items| - 1]) && forall it :: it in items[..|items| - 1] ==> it.n < items[|items| - 1].n)
  }

  ghost predicate Stored(it: Item, d: Dir) {
    && it.n in d.copies && |d.copies[it.n]| == it.size
    && it.n in d.targets && d.targets[it.n].at == it.at && d.targets[it.n].mtime.Floor == it.mtime
  }

  ghost predicate AllStored(items: seq<Item>, d: Dir) {
    forall i :: 0 <= i < |items| ==> Stored(items[i], d)
  }

  /** The numbers of the copies queued. */
  function Numbers(items: seq<Item>): set<nat> {
    set i | 0 <= i < |items| :: items[i].n
  }

  ghost predicate Queued(items: seq<Item>, n: nat, size: nat) {
    exists i :: 0 <= i < |items| && items[i].n == n && items[i].size == size
  }

  /** A target is stored exactly for the copies queued, with the bytes and the place the queue has for them. */
  ghost predicate Valid(q: Queue) {
    && Sorted(q.items)
    && AllStored(q.items, q.dir)
    && q.dir.targets.Keys == Numbers(q.items)
    && (q.current.Some? ==> Queued(q.items, q.current.value.n, q.current.value.size))
  }

  /** A number above every copy's (a new copy's, while the clock is not set back). */
  predicate FreshNumber(q: Queue, n: nat) {
    (forall it :: it in q.items ==> it.n < n) && n !in q.dir.targets
  }

  /** All a new copy's number needs: not queued, and above the copies the new one does not replace. */
  predicate Joins(q: Queue, n: nat, p: Place) {
    && n !in q.dir.targets
    && (forall it :: it in q.items ==> it.n != n)
    && (forall it :: it in WithoutReplaced(q.items, p, Sending(q)) ==> it.n < n)
  }
}
