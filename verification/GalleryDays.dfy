/** Day headings of the gallery's timeline (`galleryDayGroups`): one pass, and no other grouping needs fewer. */
module GalleryDays {
  import opened Basics

  /** A dated row. */
  datatype Photo = Photo(row: nat, ms: int)

  datatype DayGroup = DayGroup(from: int, until: int, days: nat)

  /** The local calendar (the month is that of the day), the timeline's photos, and how many make a day full. */
  datatype Timeline = Timeline(day: int -> int, month: int -> int, photos: seq<Photo>, sparse: int) {
    function Day(p: Photo): int { day(p.ms) }

    predicate Few(d: int) { Count(day, photos, d) < sparse }
  }

  function Count(day: int -> int, photos: seq<Photo>, d: int): nat {
    if |photos| == 0 then 0
    else Count(day, photos[..|photos| - 1], d) + if day(photos[|photos| - 1].ms) == d then 1 else 0
  }

  /** Rows without a date, or with the date zero, are not counted. */
  predicate IsDated(ms: Option<int>) { ms.Some? && ms.value != 0 }

  function Photos(at: seq<Option<int>>): seq<Photo> {
    if |at| == 0 then []
    else
      var n := |at| - 1;
      Photos(at[..n]) + if IsDated(at[n]) then [Photo(n, at[n].value)] else []
  }

  // ----- what a group may be -----

  ghost predicate OneDay(t: Timeline, run: seq<Photo>) {
    forall i :: 0 <= i < |run| ==> t.Day(run[i]) == t.Day(run[0])
  }

  ghost predicate SparseMonth(t: Timeline, run: seq<Photo>) {
    forall i :: 0 <= i < |run| ==> t.Few(t.Day(run[i])) && t.month(t.Day(run[i])) == t.month(t.Day(run[0]))
  }

  /** Photos of one day, or of sparse days of one month. */
  ghost predicate IsRun(t: Timeline, run: seq<Photo>) {
    |run| > 0 && (OneDay(t, run) || SparseMonth(t, run))
  }

  ghost predicate AllRuns(t: Timeline, runs: seq<seq<Photo>>) {
    forall i :: 0 <= i < |runs| ==> IsRun(t, runs[i])
  }

  function Flatten(runs: seq<seq<Photo>>): seq<Photo> {
    if |runs| == 0 then [] else Flatten(runs[..|runs| - 1]) + runs[|runs| - 1]
  }

  /** One more photo: taken into the last group if it stays one. */
  ghost function Extended(t: Timeline, runs: seq<seq<Photo>>, p: Photo): (r: seq<seq<Photo>>)
    ensures |r| > 0
  {
    var n := |runs|;
    if n > 0 && IsRun(t, runs[n - 1] + [p]) then runs[..n - 1] + [runs[n - 1] + [p]] else runs + [[p]]
  }

  ghost function Greedy(t: Timeline, photos: seq<Photo>): (runs: seq<seq<Photo>>) {
    if |photos| == 0 then [] else Extended(t, Greedy(t, photos[..|photos| - 1]), photos[|photos| - 1])
  }

  // ----- the headings -----

  function Earliest(run: seq<Photo>): int
    requires |run| > 0
  {
    if |run| == 1 then run[0].ms else Min(Earliest(run[..|run| - 1]), run[|run| - 1].ms)
  }

  function Latest(run: seq<Photo>): int
    requires |run| > 0
  {
    if |run| == 1 then run[0].ms else Max(Latest(run[..|run| - 1]), run[|run| - 1].ms)
  }

  /** How often the day changes along a run, and one. */
  function DayBlocks(t: Timeline, run: seq<Photo>): nat
    requires |run| > 0
  {
    if |run| == 1 then 1
    else
      DayBlocks(t, run[..|run| - 1]) + if t.Day(run[|run| - 1]) == t.Day(run[|run| - 2]) then 0 else 1
  }

  function Heading(t: Timeline, run: seq<Photo>): (nat, DayGroup)
    requires |run| > 0
  {
    (run[0].row, DayGroup(Earliest(run), Latest(run), DayBlocks(t, run)))
  }

  ghost predicate NoneEmpty(runs: seq<seq<Photo>>) { forall i :: 0 <= i < |runs| ==> |runs[i]| > 0 }

  ghost function Headings(t: Timeline, runs: seq<seq<Photo>>): (r: seq<(nat, DayGroup)>)
    requires NoneEmpty(runs)
    ensures |r| == |runs|
  {
    if |runs| == 0 then [] else Headings(t, runs[..|runs| - 1]) + [Heading(t, runs[|runs| - 1])]
  }

  // ----- the pass -----

  /** Whether a photo may join a run is seen from its first photo and its last day. */
  lemma JoinTest(t: Timeline, run: seq<Photo>, p: Photo)
    requires IsRun(t, run)
    ensures IsRun(t, run + [p]) <==>
            || t.Day(run[|run| - 1]) == t.Day(p)
            || (t.Few(t.Day(run[0])) && t.Few(t.Day(p)) && t.month(t.Day(run[0])) == t.month(t.Day(p)))
  {
    var longer := run + [p];
    assert longer[|run|] == p && longer[|run| - 1] == run[|run| - 1] && longer[0] == run[0];
    if t.Day(run[|run| - 1]) == t.Day(p) {
      if OneDay(t, run) { assert OneDay(t, longer); } else { assert SparseMonth(t, longer); }
    } else if t.Few(t.Day(run[0])) && t.Few(t.Day(p)) && t.month(t.Day(run[0])) == t.month(t.Day(p)) {
      assert SparseMonth(t, longer);
    }
  }

  lemma ExtendedRuns(t: Timeline, runs: seq<seq<Photo>>, p: Photo)
    requires AllRuns(t, runs)
    ensures AllRuns(t, Extended(t, runs, p)) && NoneEmpty(Extended(t, runs, p))
    ensures Flatten(Extended(t, runs, p)) == Flatten(runs) + [p]
  {
    assert IsRun(t, [p]);
    var n, r := |runs|, Extended(t, runs, p);
    if n > 0 && IsRun(t, runs[n - 1] + [p]) {
      assert r[..n - 1] == runs[..n - 1];
      assert Flatten(r) == Flatten(runs[..n - 1]) + (runs[n - 1] + [p]);
    } else {
      assert r[..n] == runs;
    }
  }

  lemma {:induction false} GreedyRuns(t: Timeline, photos: seq<Photo>)
    ensures AllRuns(t, Greedy(t, photos)) && NoneEmpty(Greedy(t, photos)) && Flatten(Greedy(t, photos)) == photos
  {
    if |photos| > 0 {
      var p, rest := photos[|photos| - 1], photos[..|photos| - 1];
      GreedyRuns(t, rest);
      ExtendedRuns(t, Greedy(t, rest), p);
      assert Greedy(t, photos) == Extended(t, Greedy(t, rest), p);
      assert photos == rest + [p];
    } else {
      assert Greedy(t, photos) == [];
    }
  }

  lemma GreedyNext(t: Timeline, photos: seq<Photo>, p: Photo)
    ensures Greedy(t, photos + [p]) == Extended(t, Greedy(t, photos), p)
  {
    assert (photos + [p])[..|photos|] == photos;
  }

  /** The headings so far, and the day, month and sparseness the open group is compared by. */
  datatype Pass = Pass(out: seq<(nat, DayGroup)>, day: int, month: int, sparse: bool)

  ghost predicate PassOk(t: Timeline, runs: seq<seq<Photo>>, s: Pass) {
    && NoneEmpty(runs) && s.out == Headings(t, runs)
    && (|runs| > 0 ==>
          var run := runs[|runs| - 1];
          && IsRun(t, run)
          && s.day == t.Day(run[|run| - 1]) && s.month == t.month(t.Day(run[0])) && s.sparse == t.Few(t.Day(run[0])))
  }

  /** Whether a photo joins the open group. */
  predicate Joins(s: Pass, day: int, month: int, isSparse: bool) {
    |s.out| > 0 && (s.day == day || (s.sparse && isSparse && s.month == month))
  }

  lemma JoinsRight(t: Timeline, runs: seq<seq<Photo>>, s: Pass, p: Photo)
    requires PassOk(t, runs, s)
    ensures Joins(s, t.Day(p), t.month(t.Day(p)), t.Few(t.Day(p))) <==> |runs| > 0 && IsRun(t, runs[|runs| - 1] + [p])
  {
    if |runs| > 0 { JoinTest(t, runs[|runs| - 1], p); }
  }

  lemma JoinedOk(t: Timeline, runs: seq<seq<Photo>>, s: Pass, p: Photo)
    requires PassOk(t, runs, s) && |runs| > 0 && IsRun(t, runs[|runs| - 1] + [p])
    ensures var (row, g) := s.out[|runs| - 1];
            var days := if s.day == t.Day(p) then g.days else g.days + 1;
            var grown := DayGroup(Min(g.from, p.ms), Max(g.until, p.ms), days);
            PassOk(t, runs[..|runs| - 1] + [runs[|runs| - 1] + [p]],
                   Pass(s.out[..|runs| - 1] + [(row, grown)], t.Day(p), s.month, s.sparse))
  {
    var n := |runs| - 1;
    var longer := runs[n] + [p];
    HeadingGrows(t, runs[n], p);
    assert (runs[..n] + [longer])[..n] == runs[..n];
    assert longer[|runs[n]|] == p && longer[0] == runs[n][0];
  }

  lemma OpenedOk(t: Timeline, runs: seq<seq<Photo>>, s: Pass, p: Photo)
    requires PassOk(t, runs, s)
    ensures PassOk(t, runs + [[p]],
            Pass(s.out + [(p.row, DayGroup(p.ms, p.ms, 1))], t.Day(p), t.month(t.Day(p)), t.Few(t.Day(p))))
  {
    assert (runs + [[p]])[..|runs|] == runs;
    assert IsRun(t, [p]);
  }

  /** One photo of the pass. */
  method TakePhoto(ghost t: Timeline, ghost runs: seq<seq<Photo>>, s: Pass, p: Photo, day: int, month: int,
      isSparse: bool)
    returns (r: Pass)
    requires PassOk(t, runs, s) && day == t.Day(p) && month == t.month(day) && isSparse == t.Few(day)
    ensures PassOk(t, Extended(t, runs, p), r)
  {
    JoinsRight(t, runs, s, p);
    if Joins(s, day, month, isSparse) {
      JoinedOk(t, runs, s, p);
      var (row, g) := s.out[|s.out| - 1];
      var grown := DayGroup(Min(g.from, p.ms), Max(g.until, p.ms), if s.day == day then g.days else g.days + 1);
      r := Pass(s.out[..|s.out| - 1] + [(row, grown)], day, s.month, s.sparse);
    } else {
      OpenedOk(t, runs, s, p);
      r := Pass(s.out + [(p.row, DayGroup(p.ms, p.ms, 1))], day, month, isSparse);
    }
  }

  /** The pass over the rows gives one heading per greedy run. */
  method GalleryDayGroups(day: int -> int, month: int -> int, at: seq<Option<int>>, sparse: int)
    returns (out: seq<(nat, DayGroup)>)
    ensures var runs := Greedy(Timeline(day, month, Photos(at), sparse), Photos(at));
            NoneEmpty(runs) && out == Headings(Timeline(day, month, Photos(at), sparse), runs)
  {
    var perDay := CountDays(day, at);
    ghost var t := Timeline(day, month, Photos(at), sparse);
    var s := Pass([], 0, 0, false);
    for i := 0 to |at|
      invariant PassOk(t, Greedy(t, Photos(at[..i])), s)
    {
      PhotosNext(at, i);
      if at[i].Some? && at[i].value != 0 {
        var d := day(at[i].value);
        var n := if d in perDay then perDay[d] else 0;
        GreedyNext(t, Photos(at[..i]), Photo(i, at[i].value));
        s := TakePhoto(t, Greedy(t, Photos(at[..i])), s, Photo(i, at[i].value), d, month(d), n < sparse);
      }
    }
    assert at[..|at|] == at;
    out := s.out;
  }

  lemma PhotosNext(at: seq<Option<int>>, i: nat)
    requires i < |at|
    ensures Photos(at[..i + 1]) == if IsDated(at[i]) then Photos(at[..i]) + [Photo(i, at[i].value)] else Photos(at[..i])
  {
    assert at[..i + 1][..i] == at[..i];
    assert Photos(at[..i]) + [] == Photos(at[..i]);
  }

  /** What one more photo changes in a heading. */
  lemma HeadingGrows(t: Timeline, run: seq<Photo>, p: Photo)
    requires |run| > 0
    ensures var (row, g) := Heading(t, run);
            Heading(t, run + [p]) ==
            var days := if t.Day(run[|run| - 1]) == t.Day(p) then g.days else g.days + 1;
            (row, DayGroup(Min(g.from, p.ms), Max(g.until, p.ms), days))
  {
    assert (run + [p])[..|run|] == run;
  }

  method CountDays(day: int -> int, at: seq<Option<int>>) returns (perDay: map<int, nat>)
    ensures forall d :: (if d in perDay then perDay[d] else 0) == Count(day, Photos(at), d)
  {
    perDay := map[];
    for i := 0 to |at|
      invariant forall d :: (if d in perDay then perDay[d] else 0) == Count(day, Photos(at[..i]), d)
    {
      assert at[..i + 1][..i] == at[..i];
      ghost var seen := Photos(at[..i]);
      if IsDated(at[i]) {
        var d := day(at[i].value);
        assert (seen + [Photo(i, at[i].value)])[..|seen|] == seen;
        perDay := perDay[d := (if d in perDay then perDay[d] else 0) + 1];
      } else {
        assert seen + [] == seen;
      }
    }
    assert at[..|at|] == at;
  }

  // ----- no grouping has fewer headings -----

  lemma SuffixIsRun(t: Timeline, run: seq<Photo>, k: nat)
    requires IsRun(t, run) && k < |run|
    ensures IsRun(t, run[k..])
  {
    if OneDay(t, run) {
      assert OneDay(t, run[k..]);
    } else {
      assert SparseMonth(t, run[k..]);
    }
  }

  lemma JoinsLikeOther(t: Timeline, photos: seq<Photo>, p: Photo, g: seq<Photo>, other: seq<Photo>)
    requires 0 < |g| <= |other| <= |photos| && photos[|photos| - |g|..] == g && photos[|photos| - |other|..] == other
    requires IsRun(t, other + [p])
    ensures IsRun(t, g + [p])
  {
    var k := |other| - |g|;
    assert (other + [p])[k..] == g + [p] by {
      assert other[k..] == photos[|photos| - |g|..];
      assert (other + [p])[k..] == other[k..] + [p];
    }
    SuffixIsRun(t, other + [p], k);
  }

  lemma LastIsSuffix(runs: seq<seq<Photo>>)
    requires |runs| > 0
    ensures var all, last := Flatten(runs), runs[|runs| - 1];
            |last| <= |all| && all[|all| - |last|..] == last
  {
  }

  /** Fewer groups, or as many and the last one no longer. */
  predicate Ahead(g: seq<seq<Photo>>, other: seq<seq<Photo>>) {
    |g| < |other| || (|g| == |other| && (|g| > 0 ==> |g[|g| - 1]| <= |other[|other| - 1]|))
  }

  lemma AheadByOne(t: Timeline, photos: seq<Photo>, p: Photo, other: seq<seq<Photo>>)
    requires Ahead(Greedy(t, photos), other)
    ensures Ahead(Greedy(t, photos + [p]), other + [[p]])
  {
    GreedyNext(t, photos, p);
  }

  lemma AheadByLonger(t: Timeline, photos: seq<Photo>, p: Photo, other: seq<seq<Photo>>, last: seq<Photo>)
    requires Ahead(Greedy(t, photos), other + [last]) && Flatten(other + [last]) == photos && |last| > 0
    requires IsRun(t, last + [p])
    ensures Ahead(Greedy(t, photos + [p]), other + [last + [p]])
  {
    GreedyNext(t, photos, p);
    var g := Greedy(t, photos);
    if |g| == |other| + 1 {
      GreedyRuns(t, photos);
      LastIsSuffix(g);
      LastIsSuffix(other + [last]);
      JoinsLikeOther(t, photos, p, g[|g| - 1], last);
    }
  }

  /** The greedy grouping stays ahead of any other grouping of the same photos into runs. */
  lemma {:induction false} GreedyStaysAhead(t: Timeline, photos: seq<Photo>, other: seq<seq<Photo>>)
    requires AllRuns(t, other) && Flatten(other) == photos
    ensures Ahead(Greedy(t, photos), other)
    decreases |photos|
  {
    if |other| > 0 {
      var m := |other| - 1;
      var less, last := other[..m], other[m];
      var shorter, p := last[..|last| - 1], last[|last| - 1];
      assert other == less + [last] && last == shorter + [p];
      if |shorter| == 0 {
        GreedyStaysAhead(t, Flatten(less), less);
        AheadByOne(t, Flatten(less), p, less);
        assert Flatten(less) + [p] == photos && last == [p];
      } else {
        PrefixIsRun(t, last, |shorter|);
        assert (less + [shorter])[..m] == less;
        var rest := Flatten(less) + shorter;
        GreedyStaysAhead(t, rest, less + [shorter]);
        AheadByLonger(t, rest, p, less, shorter);
        assert rest + [p] == photos;
      }
    }
  }

  lemma PrefixIsRun(t: Timeline, run: seq<Photo>, k: nat)
    requires IsRun(t, run) && 0 < k <= |run|
    ensures IsRun(t, run[..k])
  {
    if OneDay(t, run) {
      assert OneDay(t, run[..k]);
    } else {
      assert SparseMonth(t, run[..k]);
    }
  }

  /** Every dated photo is in exactly one group, and no other grouping into runs has fewer headings. */
  lemma FewestHeadings(t: Timeline, photos: seq<Photo>, other: seq<seq<Photo>>)
    requires AllRuns(t, other) && Flatten(other) == photos
    ensures var g := Greedy(t, photos);
            AllRuns(t, g) && NoneEmpty(g) && Flatten(g) == photos && |Headings(t, g)| == |g| <= |other|
  {
    GreedyRuns(t, photos);
    GreedyStaysAhead(t, photos, other);
  }

  // ----- what a heading says -----

  lemma {:induction false} EarliestAndLatest(run: seq<Photo>)
    requires |run| > 0
    ensures forall i :: 0 <= i < |run| ==> Earliest(run) <= run[i].ms <= Latest(run)
    ensures exists i :: 0 <= i < |run| && run[i].ms == Earliest(run)
    ensures exists i :: 0 <= i < |run| && run[i].ms == Latest(run)
  {
    if |run| > 1 {
      var n := |run| - 1;
      EarliestAndLatest(run[..n]);
      var i :| 0 <= i < n && run[..n][i].ms == Earliest(run[..n]);
      var j :| 0 <= j < n && run[..n][j].ms == Latest(run[..n]);
      assert run[i].ms == run[..n][i].ms && run[j].ms == run[..n][j].ms;
      assert run[if run[n].ms < run[i].ms then n else i].ms == Earliest(run);
      assert run[if run[j].ms < run[n].ms then n else j].ms == Latest(run);
      forall k | 0 <= k < |run| ensures Earliest(run) <= run[k].ms <= Latest(run) {
        if k < n { assert run[..n][k] == run[k]; }
      }
    } else {
      assert run[0].ms == Earliest(run) == Latest(run);
    }
  }

  function DaysOf(t: Timeline, run: seq<Photo>): set<int> {
    if |run| == 0 then {} else DaysOf(t, run[..|run| - 1]) + {t.Day(run[|run| - 1])}
  }

  /** No day comes back after another day. */
  predicate NoDayReturns(t: Timeline, run: seq<Photo>) {
    |run| > 1 ==>
      && NoDayReturns(t, run[..|run| - 1])
      && (t.Day(run[|run| - 1]) == t.Day(run[|run| - 2]) || t.Day(run[|run| - 1]) !in DaysOf(t, run[..|run| - 1]))
  }

  /** The number of days is right exactly when no day comes back; otherwise it is too high. */
  lemma {:induction false} DaysCounted(t: Timeline, run: seq<Photo>)
    requires |run| > 0
    ensures DayBlocks(t, run) >= |DaysOf(t, run)|
    ensures DayBlocks(t, run) == |DaysOf(t, run)| <==> NoDayReturns(t, run)
  {
    var n := |run| - 1;
    if n > 0 {
      DaysCounted(t, run[..n]);
      assert run[..n][n - 1] == run[n - 1];
      assert t.Day(run[n - 1]) in DaysOf(t, run[..n]);
    } else {
      assert run[..0] == [] && DaysOf(t, run) == {t.Day(run[0])};
    }
  }

  /** Newest first, or oldest first. */
  predicate TimeSorted(run: seq<Photo>, newestFirst: bool) {
    |run| > 1 ==>
      && TimeSorted(run[..|run| - 1], newestFirst)
      && if newestFirst then run[|run| - 1].ms <= run[|run| - 2].ms else run[|run| - 2].ms <= run[|run| - 1].ms
  }

  lemma {:induction false} SortedEnds(run: seq<Photo>, newestFirst: bool, i: nat)
    requires TimeSorted(run, newestFirst) && i < |run|
    ensures var last := run[|run| - 1].ms; if newestFirst then last <= run[i].ms else run[i].ms <= last
  {
    if i < |run| - 1 {
      assert run[..|run| - 1][|run| - 2] == run[|run| - 2];
      SortedEnds(run[..|run| - 1], newestFirst, i);
    }
  }

  lemma {:induction false} DayFrom(t: Timeline, run: seq<Photo>, d: int) returns (i: nat)
    requires d in DaysOf(t, run)
    ensures i < |run| && t.Day(run[i]) == d
  {
    i := |run| - 1;
    if t.Day(run[i]) != d { i := DayFrom(t, run[..|run| - 1], d); }
  }

  /** The calendar does not come back to a day it left, as it can where clocks are set back past midnight. */
  ghost predicate DaysStayTogether(day: int -> int) {
    forall a: int, b: int, c: int :: a <= b <= c && day(a) == day(c) ==> day(b) == day(a)
  }

  ghost predicate SortedCounted(t: Timeline, run: seq<Photo>, newestFirst: bool) {
    |run| > 0 && TimeSorted(run, newestFirst) ==> DayBlocks(t, run) == |DaysOf(t, run)|
  }

  /** In time-sorted photos the days are counted right, whatever the photos, exactly when the calendar does that. */
  lemma SortedDaysCounted(t: Timeline, newestFirst: bool)
    ensures (forall run :: SortedCounted(t, run, newestFirst)) <==> DaysStayTogether(t.day)
  {
    if DaysStayTogether(t.day) {
      forall run ensures SortedCounted(t, run, newestFirst) {
        if |run| > 0 && TimeSorted(run, newestFirst) {
          SortedNoReturn(t, run, newestFirst);
          DaysCounted(t, run);
        }
      }
    }
    if forall run :: SortedCounted(t, run, newestFirst) {
      forall a: int, b: int, c: int | a <= b <= c && t.day(a) == t.day(c) ensures t.day(b) == t.day(a) {
        var run := if newestFirst then [Photo(0, c), Photo(1, b), Photo(2, a)]
          else [Photo(0, a), Photo(1, b), Photo(2, c)];
        ThreeSorted(run, newestFirst);
        assert SortedCounted(t, run, newestFirst);
        DaysCounted(t, run);
        ThreeDays(t, run);
      }
    }
  }

  lemma ThreeSorted(run: seq<Photo>, newestFirst: bool)
    requires |run| == 3
    requires if newestFirst then run[0].ms >= run[1].ms >= run[2].ms else run[0].ms <= run[1].ms <= run[2].ms
    ensures TimeSorted(run, newestFirst)
  {
    assert run[..2][..1] == [run[0]] && run[..2][1] == run[1] && run[..2][0] == run[0];
  }

  lemma ThreeDays(t: Timeline, run: seq<Photo>)
    requires |run| == 3 && NoDayReturns(t, run) && t.Day(run[0]) == t.Day(run[2])
    ensures t.Day(run[1]) == t.Day(run[0])
  {
    assert run[..2][0] == run[0] && run[..2][1] == run[1] && run[..2][..1][0] == run[0];
    assert t.Day(run[0]) in DaysOf(t, run[..2][..1]);
    assert t.Day(run[0]) in DaysOf(t, run[..2]);
  }

  lemma {:induction false} SortedNoReturn(t: Timeline, run: seq<Photo>, newestFirst: bool)
    requires TimeSorted(run, newestFirst) && DaysStayTogether(t.day)
    ensures NoDayReturns(t, run)
  {
    if |run| > 1 {
      var n := |run| - 1;
      SortedNoReturn(t, run[..n], newestFirst);
      assert run[..n][n - 1] == run[n - 1];
      if t.Day(run[n]) in DaysOf(t, run[..n]) {
        var i := DayFrom(t, run[..n], t.Day(run[n]));
        SortedEnds(run[..n], newestFirst, i);
      }
    }
  }
}
