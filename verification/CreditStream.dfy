/**
 A download streamed through the service worker (`downloadStream` of the application core, `streamed` of the
 service worker). The browser's stream asks for more with a pull; the application worker sends one fragment per
 pull; messages both ways arrive in order. The stream behaves as the standard's default controller with a high
 water mark of 1. Every interleaving is a sequence of the steps below.
 */
module CreditStream {
  import opened Basics

  datatype Msg = Chunk(data: Bytes) | Done | Failed

  datatype Worker = Sending | Finished | Aborted

  /** Closing: `close` was called, chunks may still be queued. */
  datatype Stream = Open | Closing | Errored | Cancelled

  datatype State = State(
    // The application worker: fragments sent, pulls it may still answer.
    sent: nat, credits: nat, worker: Worker,
    // Messages on their way: to the service worker, and pulls to the application worker.
    down: seq<Msg>, up: nat,
    // The stream: chunks queued, reads waiting, a pull under way, its promise settled, another one wanted; the
    // page's `wake` is set.
    stream: Stream, queue: seq<Bytes>, readers: nat, pulling: bool, settled: bool, again: bool, wake: bool,
    // What the browser got, and pulls made and chunks taken in so far.
    delivered: seq<Bytes>, pulls: nat, received: nat)

  const INIT := State(0, 0, Sending, [], 0, Open, [], 0, false, false, false, false, [], 0, 0)

  // ----- the stream's controller -----

  predicate ShouldPull(s: State) {
    s.stream.Open? && (s.readers > 0 || |s.queue| < 1)
  }

  function PullIfNeeded(s: State): State {
    if !ShouldPull(s) then s
    else if s.pulling then s.(again := true)
    else s.(pulling := true, settled := false, wake := true, pulls := s.pulls + 1, up := s.up + 1)
  }

  /** A message handled: the pull that waited for one is settled. */
  function Woken(s: State): State {
    if s.wake then s.(wake := false, settled := true) else s
  }

  function Enqueue(s: State, d: Bytes): State {
    PullIfNeeded(if s.readers > 0 then s.(readers := s.readers - 1, delivered := s.delivered + [d])
      else s.(queue := s.queue + [d]))
  }

  // ----- the steps -----

  datatype Event =
    | StreamStart          // the stream's first look whether to pull
    | Read                 // the browser reads
    | PullSettled          // the reaction to a settled pull runs
    | Message              // the service worker takes the next message
    | PullArrives          // the application worker takes a pull
    | Send                 // ... sends the next fragment
    | Finish               // ... all sent and verified
    | Abort                // ... fails, is cancelled, or gives up waiting
    | Cancel               // the browser stops

  predicate Enabled(frags: seq<Bytes>, s: State, e: Event) {
    match e
    case StreamStart => true
    case Read => s.stream.Open? || s.stream.Closing?
    case PullSettled => s.pulling && s.settled
    case Message => |s.down| > 0
    case PullArrives => s.up > 0 && s.worker.Sending?
    case Send => s.worker.Sending? && s.sent < |frags| && s.credits > 0
    case Finish => s.worker.Sending? && s.sent == |frags|
    case Abort => s.worker.Sending?
    case Cancel => s.stream.Open? || s.stream.Closing?
  }

  function OnMessage(s: State, m: Msg): State {
    if !s.stream.Open? then s
    else
      match m
      case Chunk(d) => Woken(Enqueue(s.(received := s.received + 1), d))
      case Done => Woken(s.(stream := Closing))
      case Failed => Woken(s.(stream := Errored, queue := []))
  }

  function OnRead(s: State): State {
    if |s.queue| > 0 then
      PullIfNeeded(s.(delivered := s.delivered + [s.queue[0]], queue := s.queue[1..]))
    else if s.stream.Open? then
      PullIfNeeded(s.(readers := s.readers + 1))
    else s
  }

  function Step(frags: seq<Bytes>, s: State, e: Event): State
    requires Enabled(frags, s, e)
  {
    match e
    case StreamStart => PullIfNeeded(s)
    case Read => OnRead(s)
    case PullSettled =>
      var s1 := s.(pulling := false, settled := false);
      if s.again then PullIfNeeded(s1.(again := false)) else s1
    case Message => OnMessage(s.(down := s.down[1..]), s.down[0])
    case PullArrives => s.(up := s.up - 1, credits := s.credits + 1)
    case Send => s.(credits := s.credits - 1, sent := s.sent + 1, down := s.down + [Chunk(frags[s.sent])])
    case Finish => s.(worker := Finished, down := s.down + [Done])
    case Abort => s.(worker := Aborted, down := s.down + [Failed])
    case Cancel => s.(stream := Cancelled, queue := [], readers := 0)
  }

  // ----- what every run keeps -----

  function Chunks(ms: seq<Msg>): seq<Bytes> {
    if |ms| == 0 then []
    else if ms[0].Chunk? then [ms[0].data] + Chunks(ms[1..])
    else Chunks(ms[1..])
  }

  /** Only the last message is not a chunk, and only when the worker is done. */
  predicate EndsLast(ms: seq<Msg>, w: Worker) {
    match w
    case Sending => forall i :: 0 <= i < |ms| ==> ms[i].Chunk?
    case Finished => forall i :: 0 <= i < |ms| ==> if i == |ms| - 1 then ms[i].Done? else ms[i].Chunk?
    case Aborted => forall i :: 0 <= i < |ms| ==> if i == |ms| - 1 then ms[i].Failed? else ms[i].Chunk?
  }

  /** Pulls that no chunk has answered yet. */
  function Outstanding(s: State): int { s.pulls - s.received }

  /** Every pull is answered by a fragment sent, a credit, or still on its way. */
  predicate PullsCount(s: State) {
    s.pulls == s.sent + s.credits + s.up
  }

  /** The fragments sent, in order: with the browser, queued, on their way. */
  predicate InOrder(frags: seq<Bytes>, s: State) {
    && s.received <= s.sent <= |frags|
    && s.delivered <= frags
    && (s.stream.Open? || s.stream.Closing? ==> s.delivered + s.queue + Chunks(s.down) == frags[..s.sent])
    && EndsLast(s.down, s.worker)
    && (s.worker.Finished? ==> s.sent == |frags|)
    && (s.stream.Closing? ==> s.worker.Finished? && s.down == [])
    && (s.stream.Open? ==> s.received + |Chunks(s.down)| == s.sent && (s.down == [] ==> s.worker.Sending?))
  }

  /** At most one fragment is asked for or waits in the stream. */
  predicate OneAtATime(s: State) {
    && 0 <= Outstanding(s)
    && Outstanding(s) + |s.queue| <= 1
    && (s.stream.Open? ==> (s.wake <==> Outstanding(s) == 1))
    && (s.stream.Open? && s.wake ==> s.pulling && !s.settled)
    && (s.readers > 0 ==> s.queue == [])
    && (s.stream.Closing? && s.readers > 0 ==> s.queue == [])
  }

  predicate Inv(frags: seq<Bytes>, s: State) {
    PullsCount(s) && InOrder(frags, s) && OneAtATime(s)
  }

  lemma {:induction false} ChunksAppend(ms: seq<Msg>, m: Msg)
    ensures Chunks(ms + [m]) == Chunks(ms) + if m.Chunk? then [m.data] else []
  {
    if |ms| == 0 {
      assert ms + [m] == [m];
      assert [m][1..] == [];
    } else {
      assert (ms + [m])[1..] == ms[1..] + [m];
      ChunksAppend(ms[1..], m);
    }
  }

  lemma PullKeeps(frags: seq<Bytes>, s: State)
    requires Inv(frags, s)
    ensures Inv(frags, PullIfNeeded(s))
  {
  }

  lemma ReadKeeps(frags: seq<Bytes>, s: State)
    requires Inv(frags, s) && Enabled(frags, s, Read)
    ensures Inv(frags, OnRead(s))
  {
    if |s.queue| > 0 {
      var s1 := s.(delivered := s.delivered + [s.queue[0]], queue := s.queue[1..]);
      assert s1.delivered + s1.queue == s.delivered + s.queue;
      assert s1.delivered <= s.delivered + s.queue + Chunks(s.down);
      PullKeeps(frags, s1);
    } else if s.stream.Open? {
      PullKeeps(frags, s.(readers := s.readers + 1));
    }
  }

  lemma SettledKeeps(frags: seq<Bytes>, s: State)
    requires Inv(frags, s) && Enabled(frags, s, PullSettled)
    ensures Inv(frags, Step(frags, s, PullSettled))
  {
    var s1 := s.(pulling := false, settled := false);
    if s.again {
      PullKeeps(frags, s1.(again := false));
    }
  }

  lemma SendKeeps(frags: seq<Bytes>, s: State)
    requires Inv(frags, s) && Enabled(frags, s, Send)
    ensures Inv(frags, Step(frags, s, Send))
  {
    ChunksAppend(s.down, Chunk(frags[s.sent]));
    assert frags[..s.sent + 1] == frags[..s.sent] + [frags[s.sent]];
    if s.stream.Open? {
      assert s.delivered + s.queue + (Chunks(s.down) + [frags[s.sent]]) ==
        s.delivered + s.queue + Chunks(s.down) + [frags[s.sent]];
    }
  }

  lemma EndKeeps(frags: seq<Bytes>, s: State, e: Event)
    requires Inv(frags, s) && Enabled(frags, s, e) && (e.Finish? || e.Abort?)
    ensures Inv(frags, Step(frags, s, e))
  {
    ChunksAppend(s.down, if e.Finish? then Done else Failed);
    assert Chunks(s.down) + [] == Chunks(s.down);
  }

  lemma MessageKeeps(frags: seq<Bytes>, s: State)
    requires Inv(frags, s) && Enabled(frags, s, Message)
    ensures Inv(frags, Step(frags, s, Message))
  {
    var m, s0 := s.down[0], s.(down := s.down[1..]);
    assert EndsLast(s0.down, s.worker);
    if s.stream.Open? {
      match m
      case Chunk(d) => ChunkKeeps(frags, s, d);
      case Done =>
        assert s0.down == [];
        assert Chunks(s.down) == [];
      case Failed =>
        assert s0.down == [];
    }
  }

  lemma ChunkKeeps(frags: seq<Bytes>, s: State, d: Bytes)
    requires Inv(frags, s) && s.stream.Open? && |s.down| > 0 && s.down[0] == Chunk(d)
    ensures Inv(frags, OnMessage(s.(down := s.down[1..]), Chunk(d)))
  {
    var rest := Chunks(s.down[1..]);
    assert EndsLast(s.down[1..], s.worker);
    assert Chunks(s.down) == [d] + rest;
    assert s.delivered + s.queue + ([d] + rest) == s.delivered + s.queue + [d] + rest;
    if s.readers > 0 {
      assert s.delivered + s.queue + [d] == s.delivered + [d];
      assert s.delivered + [d] <= s.delivered + [d] + rest;
    } else {
      assert s.delivered + s.queue + [d] == s.delivered + (s.queue + [d]);
    }
  }

  lemma StepKeeps(frags: seq<Bytes>, s: State, e: Event)
    requires Inv(frags, s) && Enabled(frags, s, e)
    ensures Inv(frags, Step(frags, s, e))
  {
    match e
    case StreamStart => PullKeeps(frags, s);
    case Read => ReadKeeps(frags, s);
    case PullSettled => SettledKeeps(frags, s);
    case Message => MessageKeeps(frags, s);
    case PullArrives =>
    case Send => SendKeeps(frags, s);
    case Finish => EndKeeps(frags, s, e);
    case Abort => EndKeeps(frags, s, e);
    case Cancel =>
  }

  // ----- runs -----

  ghost predicate Possible(frags: seq<Bytes>, s: State, es: seq<Event>)
    decreases |es|
  {
    |es| > 0 ==> Enabled(frags, s, es[0]) && Possible(frags, Step(frags, s, es[0]), es[1..])
  }

  ghost function Run(frags: seq<Bytes>, s: State, es: seq<Event>): State
    requires Possible(frags, s, es)
    decreases |es|
  {
    if |es| == 0 then s else Run(frags, Step(frags, s, es[0]), es[1..])
  }

  lemma {:induction false} RunKeeps(frags: seq<Bytes>, s: State, es: seq<Event>)
    requires Inv(frags, s) && Possible(frags, s, es)
    ensures Inv(frags, Run(frags, s, es))
    decreases |es|
  {
    if |es| > 0 {
      StepKeeps(frags, s, es[0]);
      RunKeeps(frags, Step(frags, s, es[0]), es[1..]);
    }
  }

  function Concat(bs: seq<Bytes>): Bytes {
    if |bs| == 0 then [] else bs[0] + Concat(bs[1..])
  }

  lemma {:induction false} ConcatPrefix(a: seq<Bytes>, b: seq<Bytes>)
    requires a <= b
    ensures Concat(a) <= Concat(b)
  {
    if |a| > 0 {
      ConcatPrefix(a[1..], b[1..]);
    }
  }

  lemma StartHolds(frags: seq<Bytes>)
    ensures Inv(frags, INIT)
  {
    assert Chunks([]) == [];
  }

  /** What holds of every state means: */
  ghost predicate SafeState(frags: seq<Bytes>, s: State) {
    // pulls are conserved,
    && s.pulls == s.sent + s.credits + s.up
    // at most one fragment is asked for or queued,
    && s.pulls - s.received + |s.queue| <= 1 && s.credits <= 1
    // the browser has a prefix of the file,
    && Concat(s.delivered) <= Concat(frags)
    // and the whole file once the stream was closed by `done` and its queue is read.
    && (s.stream.Closing? ==> s.delivered + s.queue == frags)
    && (s.stream.Closing? && s.queue == [] ==> Concat(s.delivered) == Concat(frags))
  }

  lemma InvIsSafe(frags: seq<Bytes>, s: State)
    requires Inv(frags, s)
    ensures SafeState(frags, s)
  {
    ConcatPrefix(s.delivered, frags);
    if s.stream.Closing? {
      assert frags[..|frags|] == frags;
      assert s.delivered + s.queue + [] == s.delivered + s.queue;
    }
  }

  /** Every interleaving of the three parties is safe. */
  lemma EveryRunIsSafe(frags: seq<Bytes>, init: State, es: seq<Event>)
    requires init == INIT && Possible(frags, init, es)
    ensures SafeState(frags, Run(frags, init, es))
  {
    StartHolds(frags);
    RunKeeps(frags, init, es);
    InvIsSafe(frags, Run(frags, init, es));
  }
}
