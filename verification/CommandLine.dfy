/**
 Arguments on a Windows command line (`winQuote` of the autostart module), read back by the rules of
 CommandLineToArgvW: 2n backslashes before a quote are n backslashes and the quote opens or closes, 2n+1 are n
 backslashes and a quote of the argument, other backslashes are themselves; of quotes in a row inside quotes the
 third is one of the argument.
 */
module CommandLine {
  import opened Texts

  // ----- writing -----

  function Slashes(n: nat): (s: string)
    ensures |s| == n
  {
    if n == 0 then "" else "\\" + Slashes(n - 1)
  }

  /** How many backslashes a text begins with. */
  function SlashRun(s: string): (n: nat)
    ensures n <= |s| && s[..n] == Slashes(n) && (n < |s| ==> s[n] != '\\')
  {
    if |s| > 0 && s[0] == '\\' then
      var n := SlashRun(s[1..]);
      assert s[..n + 1] == [s[0]] + s[1..][..n];
      n + 1
    else 0
  }

  /** Every quote, with the backslashes right before it, gets those doubled and one more before it. */
  function EscapeQuotes(s: string): string {
    if |s| == 0 then ""
    else
      var k := SlashRun(s);
      if k < |s| && s[k] == '"' then Slashes(k) + Slashes(k) + "\\\"" + EscapeQuotes(s[k + 1..])
      else [s[0]] + EscapeQuotes(s[1..])
  }

  /** How many backslashes a text ends with. */
  function TailRun(s: string): (n: nat)
    ensures n <= |s|
  {
    if |s| > 0 && s[|s| - 1] == '\\' then TailRun(s[..|s| - 1]) + 1 else 0
  }

  function DoubleTail(s: string): string { s + Slashes(TailRun(s)) }

  /** Needs no quotes. */
  predicate Simple(a: string) {
    a != "" && forall i :: 0 <= i < |a| ==> !IsSpace(a[i]) && a[i] != '"'
  }

  function WinQuote(a: string): string {
    if Simple(a) then a else "\"" + DoubleTail(EscapeQuotes(a)) + "\""
  }

  function Join(args: seq<string>): string {
    if |args| == 0 then ""
    else if |args| == 1 then WinQuote(args[0])
    else WinQuote(args[0]) + " " + Join(args[1..])
  }

  // ----- reading -----

  /**
   Arguments read; the one being read (`begun`); its backslashes at the end; quotes counted (0: outside, 1: inside,
   2: just closed); whether the last character was a quote.
   */
  datatype Reader = Reader(args: seq<string>, begun: bool, cur: string, slashes: nat, quotes: nat, run: bool)

  /** About to begin an argument. */
  function Fresh(args: seq<string>): Reader { Reader(args, false, "", 0, 0, false) }

  /** The arguments once the whole text is read. */
  function Finish(r: Reader): seq<string> { if r.begun then r.args + [r.cur] else r.args }

  predicate IsBlank(c: char) { c == ' ' || c == '\t' }

  function Cut(s: string, n: nat): string { if n <= |s| then s[..|s| - n] else "" }

  function ReadQuote(r: Reader): Reader {
    if r.run then
      if r.quotes + 1 == 3 then r.(cur := r.cur + "\"", quotes := 0) else r.(quotes := r.quotes + 1)
    else if r.slashes % 2 == 0 then
      r.(begun := true, cur := Cut(r.cur, r.slashes / 2), slashes := 0, quotes := r.quotes + 1, run := true)
    else
      r.(begun := true, cur := Cut(r.cur, r.slashes / 2 + 1) + "\"", slashes := 0, run := true)
  }

  function ReadOther(r: Reader, c: char): Reader {
    var q := if r.run && r.quotes == 2 then 0 else r.quotes;
    if IsBlank(c) && q == 0 then
      Reader(if r.begun then r.args + [r.cur] else r.args, false, "", 0, 0, false)
    else
      Reader(r.args, true, r.cur + [c], if c == '\\' then r.slashes + 1 else 0, q, false)
  }

  function ReadChar(r: Reader, c: char): Reader {
    if c == '"' then ReadQuote(r) else ReadOther(r, c)
  }

  function Read(r: Reader, t: string): Reader
    decreases |t|
  {
    if |t| == 0 then r else Read(ReadChar(r, t[0]), t[1..])
  }

  function Split(t: string): seq<string> {
    Finish(Read(Fresh([]), t))
  }

  // ----- the written form, run by run -----

  /** The inside of the quotes, one run of backslashes at a time. */
  function Body(a: string): string
    decreases |a|
  {
    var k := SlashRun(a);
    if k == |a| then Slashes(2 * k)
    else if a[k] == '"' then Slashes(2 * k + 1) + "\"" + Body(a[k + 1..])
    else Slashes(k) + [a[k]] + Body(a[k + 1..])
  }

  lemma {:induction false} SlashesAdd(m: nat, n: nat)
    ensures Slashes(m) + Slashes(n) == Slashes(m + n)
  {
    if m > 0 {
      SlashesAdd(m - 1, n);
      assert "\\" + Slashes(m - 1) + Slashes(n) == "\\" + (Slashes(m - 1) + Slashes(n));
    } else {
      assert "" + Slashes(n) == Slashes(n);
    }
  }

  lemma {:induction false} RunOfSlashes(k: nat, rest: string)
    requires |rest| > 0 ==> rest[0] != '\\'
    ensures SlashRun(Slashes(k) + rest) == k
  {
    if k > 0 {
      assert (Slashes(k) + rest)[1..] == Slashes(k - 1) + rest;
      RunOfSlashes(k - 1, rest);
    } else {
      assert Slashes(0) + rest == rest;
    }
  }

  lemma Regroup(w: string, x: string, y: string, z: string)
    ensures w + x + y + z == w + (x + (y + z))
  {
  }

  lemma EmptyFirst(t: string)
    ensures Slashes(0) + t == t
  {
  }

  lemma FirstSlash(k: nat, t: string)
    requires k > 0
    ensures "\\" + (Slashes(k - 1) + t) == Slashes(k) + t
  {
  }

  lemma PlainStep(k: nat, rest: string)
    requires k > 0 && (|rest| > 0 ==> rest[0] != '\\' && rest[0] != '"')
    ensures EscapeQuotes(Slashes(k) + rest) == "\\" + EscapeQuotes(Slashes(k - 1) + rest)
  {
    RunOfSlashes(k, rest);
    var t := Slashes(k) + rest;
    assert t[1..] == Slashes(k - 1) + rest;
    assert |rest| > 0 ==> t[k] == rest[0];
  }

  /** Backslashes that no quote follows stay. */
  lemma {:induction false} EscapePlainRun(k: nat, rest: string)
    requires |rest| > 0 ==> rest[0] != '\\' && rest[0] != '"'
    ensures EscapeQuotes(Slashes(k) + rest) == Slashes(k) + EscapeQuotes(rest)
  {
    if k == 0 {
      EmptyFirst(rest);
      EmptyFirst(EscapeQuotes(rest));
    } else {
      PlainStep(k, rest);
      EscapePlainRun(k - 1, rest);
      FirstSlash(k, EscapeQuotes(rest));
    }
  }

  lemma {:induction false} TailAfter(x: string, y: string)
    requires |x| > 0 && x[|x| - 1] != '\\'
    ensures DoubleTail(x + y) == x + DoubleTail(y)
  {
    TailRunAfter(x, y);
  }

  lemma {:induction false} TailRunAfter(x: string, y: string)
    requires |x| > 0 && x[|x| - 1] != '\\'
    ensures TailRun(x + y) == TailRun(y)
    decreases |y|
  {
    if |y| > 0 {
      assert (x + y)[..|x + y| - 1] == x + y[..|y| - 1];
      TailRunAfter(x, y[..|y| - 1]);
    } else {
      assert x + y == x;
    }
  }

  lemma {:induction false} TailOfSlashes(k: nat)
    ensures TailRun(Slashes(k)) == k
  {
    if k > 0 {
      SlashesAdd(k - 1, 1);
      assert Slashes(1) == "\\";
      assert Slashes(k)[..k - 1] == Slashes(k - 1);
      TailOfSlashes(k - 1);
    }
  }

  lemma EscapedTail(k: nat)
    ensures DoubleTail(EscapeQuotes(Slashes(k))) == Slashes(2 * k)
  {
    EscapePlainRun(k, "");
    assert Slashes(k) + "" == Slashes(k) && EscapeQuotes("") == "";
    TailOfSlashes(k);
    SlashesAdd(k, k);
  }

  lemma EscapedBeforeQuote(k: nat, after: string)
    ensures DoubleTail(Slashes(k) + Slashes(k) + "\\\"" + after) == Slashes(2 * k + 1) + "\"" + DoubleTail(after)
  {
    var x := Slashes(k) + Slashes(k) + "\\\"";
    SlashesAdd(k, k);
    SlashesAdd(2 * k, 1);
    assert Slashes(1) == "\\";
    assert x == Slashes(2 * k) + "\\" + "\"";
    TailAfter(x, after);
  }

  lemma EscapedBeforeOther(k: nat, c: char, after: string)
    requires c != '\\' && c != '"'
    ensures EscapeQuotes(Slashes(k) + ([c] + after)) == Slashes(k) + [c] + EscapeQuotes(after)
  {
    var rest := [c] + after;
    EscapePlainRun(k, rest);
    assert SlashRun(rest) == 0 && rest[1..] == after;
  }

  lemma AtRun(a: string, k: nat)
    requires k < |a| && a[..k] == Slashes(k)
    ensures a == Slashes(k) + ([a[k]] + a[k + 1..])
  {
    SplitAt(a, k);
  }

  lemma SplitAt(a: string, k: nat)
    requires k < |a|
    ensures a == a[..k] + ([a[k]] + a[k + 1..])
  {
  }

  /** The two replacements together write exactly the runs. */
  lemma {:induction false} EscapedIsBody(a: string)
    ensures DoubleTail(EscapeQuotes(a)) == Body(a)
    decreases |a|
  {
    var k := SlashRun(a);
    if k == |a| {
      assert a == a[..k];
      EscapedTail(k);
    } else {
      EscapedIsBody(a[k + 1..]);
      var after := EscapeQuotes(a[k + 1..]);
      if a[k] == '"' {
        EscapedBeforeQuote(k, after);
      } else {
        AtRun(a, k);
        EscapedBeforeOther(k, a[k], a[k + 1..]);
        TailAfter(Slashes(k) + [a[k]], after);
      }
    }
  }

  // ----- reading what was written -----

  lemma {:induction false} ReadConcat(r: Reader, a: string, b: string)
    ensures Read(r, a + b) == Read(Read(r, a), b)
    decreases |a|
  {
    if |a| == 0 {
      assert a + b == b;
    } else {
      assert (a + b)[1..] == a[1..] + b;
      ReadConcat(ReadChar(r, a[0]), a[1..], b);
    }
  }

  /** Inside an argument that may be quoted: a quote just read may have been its opening one. */
  predicate Inside(r: Reader) {
    r.begun && r.quotes == 1 && r.slashes == 0
  }

  lemma {:induction false} ReadSlashes(r: Reader, k: nat)
    requires r.begun && r.quotes <= 1
    ensures Read(r, Slashes(k)) ==
            if k == 0 then r else r.(cur := r.cur + Slashes(k), slashes := r.slashes + k, run := false)
    decreases k
  {
    if k > 0 {
      assert Slashes(k)[1..] == Slashes(k - 1);
      ReadSlashes(ReadChar(r, '\\'), k - 1);
      assert r.cur + "\\" + Slashes(k - 1) == r.cur + Slashes(k);
    }
  }

  lemma CutSlashes(s: string, k: nat, n: nat)
    requires n <= k
    ensures Cut(s + Slashes(k), n) == s + Slashes(k - n)
  {
    SlashesAdd(k - n, n);
    assert s + Slashes(k) == s + Slashes(k - n) + Slashes(n);
  }

  lemma ReadOne(r: Reader, c: char)
    ensures Read(r, [c]) == ReadChar(r, c)
  {
    assert [c][1..] == "";
  }

  /** The reader after backslashes and one more character. */
  function Past(r: Reader, n: nat, c: char): Reader {
    if c == '"' then r.(cur := Cut(r.cur + Slashes(n), n / 2 + 1) + "\"", run := true)
    else r.(cur := r.cur + Slashes(n) + [c], run := false)
  }

  lemma ReadRun(r: Reader, n: nat, c: char, tail: string)
    requires Inside(r) && c != '\\' && (c == '"' ==> n % 2 == 1)
    ensures Read(r, Slashes(n) + ([c] + tail)) == Read(Past(r, n, c), tail)
  {
    var r1 := Read(r, Slashes(n));
    ReadSlashes(r, n);
    ReadConcat(r, Slashes(n), [c] + tail);
    ReadConcat(r1, [c], tail);
    ReadOne(r1, c);
    PastIsRead(r, n, c);
  }

  lemma PastIsRead(r: Reader, n: nat, c: char)
    requires Inside(r) && c != '\\' && (c == '"' ==> n % 2 == 1)
    ensures var r1 := if n == 0 then r else r.(cur := r.cur + Slashes(n), slashes := r.slashes + n, run := false);
            ReadChar(r1, c) == Past(r, n, c)
  {
    if n == 0 { assert r.cur + Slashes(0) == r.cur; }
  }

  /** The inside of the quotes is read as the argument, up to the closing quote. */
  lemma {:induction false} ReadBody(r: Reader, a: string)
    requires Inside(r)
    ensures Read(r, Body(a) + "\"") == r.(cur := r.cur + a, quotes := 2, run := true)
    decreases |a|
  {
    var k := SlashRun(a);
    if k == |a| {
      ReadEnd(r, k);
      assert a == Slashes(k);
    } else {
      var c, rest := a[k], a[k + 1..];
      var n := if c == '"' then 2 * k + 1 else k;
      Regroup(Slashes(n), [c], Body(rest), "\"");
      assert Body(a) == Slashes(n) + [c] + Body(rest);
      ReadRun(r, n, c, Body(rest) + "\"");
      ReadBody(Past(r, n, c), rest);
      PastAdds(r, a, k);
    }
  }

  lemma PastAdds(r: Reader, a: string, k: nat)
    requires k < |a| && a[..k] == Slashes(k)
    ensures Past(r, if a[k] == '"' then 2 * k + 1 else k, a[k]).cur + a[k + 1..] == r.cur + a
  {
    AroundIndex(r.cur, a, k);
    if a[k] == '"' {
      CutSlashes(r.cur, 2 * k + 1, k + 1);
      assert Past(r, 2 * k + 1, a[k]).cur == r.cur + a[..k] + [a[k]];
    } else {
      assert Past(r, k, a[k]).cur == r.cur + a[..k] + [a[k]];
    }
  }

  lemma AroundIndex(before: string, a: string, k: nat)
    requires k < |a|
    ensures before + a[..k] + [a[k]] + a[k + 1..] == before + a
  {
  }

  lemma ReadEnd(r: Reader, k: nat)
    requires Inside(r)
    ensures Read(r, Slashes(2 * k) + "\"") == r.(cur := r.cur + Slashes(k), quotes := 2, run := true)
  {
    ReadConcat(r, Slashes(2 * k), "\"");
    ReadSlashes(r, 2 * k);
    ReadOne(Read(r, Slashes(2 * k)), '"');
    CutSlashes(r.cur, 2 * k, k);
    assert r.cur + Slashes(0) == r.cur;
  }

  /** A simple argument is read as it is. */
  lemma {:induction false} ReadSimple(r: Reader, a: string)
    requires r.quotes == 0 && !r.run
    requires forall i :: 0 <= i < |a| ==> !IsBlank(a[i]) && a[i] != '"'
    ensures var r' := Read(r, a);
            r'.args == r.args && r'.cur == r.cur + a && r'.begun == (r.begun || |a| > 0) && r'.quotes == 0 && !r'.run
    decreases |a|
  {
    if |a| > 0 {
      ReadSimple(ReadChar(r, a[0]), a[1..]);
      assert r.cur + [a[0]] + a[1..] == r.cur + a;
    } else {
      assert r.cur + a == r.cur;
    }
  }

  /** An argument written and read: it is the current one, and a blank would end it. */
  predicate Ready(r: Reader, args: seq<string>, a: string) {
    r.args == args && r.begun && r.cur == a && (r.quotes == 0 || (r.quotes == 2 && r.run))
  }

  lemma ReadArgument(args: seq<string>, a: string)
    ensures Ready(Read(Fresh(args), WinQuote(a)), args, a)
  {
    var r := Fresh(args);
    assert "" + a == a;
    if Simple(a) {
      ReadSimple(r, a);
    } else {
      EscapedIsBody(a);
      assert WinQuote(a) == "\"" + (Body(a) + "\"");
      ReadConcat(r, "\"", Body(a) + "\"");
      ReadOne(r, '"');
      ReadBody(ReadChar(r, '"'), a);
    }
  }

  lemma ReadNext(before: seq<string>, a: string, tail: string)
    ensures Read(Fresh(before), WinQuote(a) + (" " + tail)) == Read(Fresh(before + [a]), tail)
  {
    var r1 := Read(Fresh(before), WinQuote(a));
    ReadArgument(before, a);
    ReadConcat(Fresh(before), WinQuote(a), " " + tail);
    ReadConcat(r1, " ", tail);
    ReadOne(r1, ' ');
  }

  lemma JoinStep(args: seq<string>)
    requires |args| > 1
    ensures Join(args) == WinQuote(args[0]) + (" " + Join(args[1..]))
  {
    Regroup(WinQuote(args[0]), " ", Join(args[1..]), "");
  }

  lemma FirstThenRest(before: seq<string>, args: seq<string>)
    requires |args| > 0
    ensures before + [args[0]] + args[1..] == before + args
  {
  }

  lemma {:induction false} ReadJoined(before: seq<string>, args: seq<string>)
    ensures Finish(Read(Fresh(before), Join(args))) == before + args
    decreases |args|
  {
    if |args| == 0 {
      assert before + [] == before;
    } else if |args| == 1 {
      ReadArgument(before, args[0]);
      assert args == [args[0]];
    } else {
      JoinStep(args);
      ReadNext(before, args[0], Join(args[1..]));
      ReadJoined(before + [args[0]], args[1..]);
      FirstThenRest(before, args);
    }
  }

  /** Splitting the joined command line gives back exactly the arguments. */
  lemma SplitJoined(args: seq<string>)
    ensures Split(Join(args)) == args
  {
    ReadJoined([], args);
    assert [] + args == args;
  }
}
