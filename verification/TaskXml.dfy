/**
 The scheduled task's file (autostart module): values escaped into XML text, line ends turned into CR LF when the
 file is written, read back by an XML reader (sections 2.11, 4.1 and 4.6 of XML 1.0).
 */
module TaskXml {
  import opened Basics
  import CommandLine
  import opened Texts

  // ----- writing -----

  function XmlEscape(s: string): string {
    var tags := Replace(Replace(Replace(s, '&', "&amp;"), '<', "&lt;"), '>', "&gt;");
    Replace(Replace(tags, '"', "&quot;"), '\'', "&apos;")
  }

  function Written(s: string): string { Replace(s, '\n', "\r\n") }

  function Arguments(nodePath: string, script: string, dataDir: string): seq<string> {
    ["--headless", nodePath, script, "supervise", "--data-dir", dataDir]
  }

  // ----- reading -----

  const ENTITIES: seq<(string, char)> :=
    [("&amp;", '&'), ("&lt;", '<'), ("&gt;", '>'), ("&quot;", '"'), ("&apos;", '\'')]

  /** The first of the known references that a text begins with. */
  function Reference(s: string, i: nat): Option<nat>
    decreases |ENTITIES| - i
  {
    if i >= |ENTITIES| then None
    else if ENTITIES[i].0 <= s then Some(i)
    else Reference(s, i + 1)
  }

  /** The characters of a text between tags; nothing when it holds markup or another reference. */
  function Unescape(s: string): Option<string>
    decreases |s|
  {
    if |s| == 0 then Some("")
    else if s[0] == '<' then None
    else if s[0] == '&' then
      var r := Reference(s, 0);
      if r.None? || r.value >= |ENTITIES| || |ENTITIES[r.value].0| > |s| || |ENTITIES[r.value].0| == 0 then None
      else Prepend([ENTITIES[r.value].1], Unescape(s[|ENTITIES[r.value].0|..]))
    else Prepend([s[0]], Unescape(s[1..]))
  }

  /** The text up to the next tag. */
  function UpToTag(s: string): string {
    if |s| == 0 || s[0] == '<' then "" else [s[0]] + UpToTag(s[1..])
  }

  // ----- five replaces are one map -----

  function EscapeChar(c: char): string {
    match c
    case '&' => "&amp;"
    case '<' => "&lt;"
    case '>' => "&gt;"
    case '"' => "&quot;"
    case '\'' => "&apos;"
    case _ => [c]
  }

  function EscapeEach(s: string): string {
    if |s| == 0 then "" else EscapeChar(s[0]) + EscapeEach(s[1..])
  }

  lemma {:induction false} ReplaceConcat(a: string, b: string, c: char, t: string)
    ensures Replace(a + b, c, t) == Replace(a, c, t) + Replace(b, c, t)
    decreases |a|
  {
    if |a| == 0 {
      assert a + b == b;
    } else {
      assert (a + b)[1..] == a[1..] + b;
      ReplaceConcat(a[1..], b, c, t);
    }
  }

  lemma {:induction false} ReplaceAbsent(s: string, c: char, t: string)
    requires c !in s
    ensures Replace(s, c, t) == s
  {
    if |s| > 0 {
      ReplaceAbsent(s[1..], c, t);
      assert s == [s[0]] + s[1..];
    }
  }

  lemma EscapeConcat(a: string, b: string)
    ensures XmlEscape(a + b) == XmlEscape(a) + XmlEscape(b)
  {
    var a1, b1 := Replace(a, '&', "&amp;"), Replace(b, '&', "&amp;");
    ReplaceConcat(a, b, '&', "&amp;");
    var a2, b2 := Replace(a1, '<', "&lt;"), Replace(b1, '<', "&lt;");
    ReplaceConcat(a1, b1, '<', "&lt;");
    var a3, b3 := Replace(a2, '>', "&gt;"), Replace(b2, '>', "&gt;");
    ReplaceConcat(a2, b2, '>', "&gt;");
    ReplaceConcat(a3, b3, '"', "&quot;");
    ReplaceConcat(Replace(a3, '"', "&quot;"), Replace(b3, '"', "&quot;"), '\'', "&apos;");
  }

  lemma ReplaceStep(c: char, x: string, d: char, t: string)
    requires x == [c] || d !in x
    ensures Replace(x, d, t) == if x == [c] && c == d then t else x
  {
    if x == [c] { ReplaceOne(c, d, t); } else { ReplaceAbsent(x, d, t); }
  }

  lemma EscapeMarkup(c: char)
    ensures var x := Replace(Replace(Replace([c], '&', "&amp;"), '<', "&lt;"), '>', "&gt;");
            x == if c == '&' || c == '<' || c == '>' then EscapeChar(c) else [c]
  {
    var s1 := if c == '&' then "&amp;" else [c];
    var s2 := if c == '<' then "&lt;" else s1;
    ReplaceStep(c, [c], '&', "&amp;");
    ReplaceStep(c, s1, '<', "&lt;");
    ReplaceStep(c, s2, '>', "&gt;");
  }

  lemma EscapeMarks(c: char, x: string)
    requires x == if c == '&' || c == '<' || c == '>' then EscapeChar(c) else [c]
    ensures Replace(Replace(x, '"', "&quot;"), '\'', "&apos;") == EscapeChar(c)
  {
    var y := if c == '"' then "&quot;" else x;
    ReplaceStep(c, x, '"', "&quot;");
    ReplaceStep(c, y, '\'', "&apos;");
  }

  /** One character goes through one replace, and no later one touches what it became. */
  lemma EscapeOne(c: char)
    ensures XmlEscape([c]) == EscapeChar(c)
  {
    EscapeMarkup(c);
    EscapeMarks(c, Replace(Replace(Replace([c], '&', "&amp;"), '<', "&lt;"), '>', "&gt;"));
  }

  lemma ReplaceOne(x: char, c: char, t: string)
    ensures Replace([x], c, t) == if x == c then t else [x]
  {
    assert [x][1..] == "" && t + "" == t;
  }

  lemma {:induction false} ReplacesAreOneMap(s: string)
    ensures XmlEscape(s) == EscapeEach(s)
  {
    if |s| > 0 {
      assert s == [s[0]] + s[1..];
      EscapeConcat([s[0]], s[1..]);
      EscapeOne(s[0]);
      ReplacesAreOneMap(s[1..]);
    }
  }

  // ----- reading back -----

  lemma UnescapeReference(i: nat, rest: string)
    requires i < |ENTITIES|
    ensures Unescape(ENTITIES[i].0 + rest) == Prepend([ENTITIES[i].1], Unescape(rest))
  {
    var e := ENTITIES[i].0;
    var s := e + rest;
    assert s[0] == '&' && s[1] == e[1] && s[2] == e[2];
    assert s[..|e|] == e && s[|e|..] == rest;
    if i == 4 { assert ENTITIES[0].0[2] == 'm' && e[2] == 'p'; }
    assert Reference(s, i) == Some(i);
    if i > 0 { assert Reference(s, i - 1) == Some(i); }
    if i > 1 { assert Reference(s, i - 2) == Some(i); }
    if i > 2 { assert Reference(s, i - 3) == Some(i); }
    if i > 3 { assert Reference(s, i - 4) == Some(i); }
  }

  lemma {:induction false} UnescapeEscaped(s: string)
    ensures Unescape(EscapeEach(s)) == Some(s)
  {
    if |s| > 0 {
      UnescapeEscaped(s[1..]);
      var rest := EscapeEach(s[1..]);
      assert [s[0]] + s[1..] == s;
      match s[0]
      case '&' => UnescapeReference(0, rest);
      case '<' => UnescapeReference(1, rest);
      case '>' => UnescapeReference(2, rest);
      case '"' => UnescapeReference(3, rest);
      case '\'' => UnescapeReference(4, rest);
      case _ => assert ([s[0]] + rest)[1..] == rest;
    }
  }

  /** The reader's line ends undo the writer's, except that a CR of the text becomes an LF. */
  lemma {:induction false} LineEndsOfWritten(s: string)
    ensures LineEnds(Written(s)) == Replace(s, '\r', "\n")
  {
    if |s| > 0 {
      LineEndsOfWritten(s[1..]);
      var rest := Written(s[1..]);
      if s[0] == '\n' {
        assert ("\r\n" + rest)[2..] == rest;
      } else {
        assert ([s[0]] + rest)[1..] == rest;
        assert |rest| > 0 ==> rest[0] != '\n' by {
          if |s| > 1 { assert rest == (if s[1] == '\n' then "\r\n" else [s[1]]) + Written(s[1..][1..]); }
        }
      }
    }
  }

  lemma {:induction false} EscapeKeepsEnds(s: string)
    ensures Replace(EscapeEach(s), '\r', "\n") == EscapeEach(Replace(s, '\r', "\n"))
  {
    if |s| > 0 {
      EscapeKeepsEnds(s[1..]);
      ReplaceConcat(EscapeChar(s[0]), EscapeEach(s[1..]), '\r', "\n");
      var x := if s[0] == '\r' then '\n' else s[0];
      if s[0] == '\r' { ReplaceOne('\r', '\r', "\n"); } else { ReplaceAbsent(EscapeChar(s[0]), '\r', "\n"); }
      assert ([x] + Replace(s[1..], '\r', "\n"))[1..] == Replace(s[1..], '\r', "\n");
    }
  }

  lemma {:induction false} NoneOf(s: string, c: char, d: char)
    requires c != d
    ensures c !in Replace(s, c, [d])
    ensures Replace(s, c, [d]) == s <==> c !in s
  {
    if |s| > 0 {
      NoneOf(s[1..], c, d);
      var r := Replace(s[1..], c, [d]);
      assert Replace(s, c, [d])[1..] == r;
      assert s == [s[0]] + s[1..];
    }
  }

  /** What a value between tags is read back as: itself, exactly when it holds no CR. */
  lemma ReadBack(s: string)
    ensures Unescape(LineEnds(Written(XmlEscape(s)))) == Some(Replace(s, '\r', "\n"))
    ensures Unescape(LineEnds(Written(XmlEscape(s)))) == Some(s) <==> '\r' !in s
  {
    ReplacesAreOneMap(s);
    LineEndsOfWritten(XmlEscape(s));
    EscapeKeepsEnds(s);
    UnescapeEscaped(Replace(s, '\r', "\n"));
    NoneOf(s, '\r', '\n');
  }

  /** An escaped value never ends its element early. */
  lemma {:induction false} EscapedIsText(s: string, after: string)
    requires |after| > 0 && after[0] == '<'
    ensures UpToTag(XmlEscape(s) + after) == XmlEscape(s)
  {
    ReplacesAreOneMap(s);
    if |s| == 0 {
      assert XmlEscape(s) + after == after;
    } else {
      var e, rest := EscapeChar(s[0]), EscapeEach(s[1..]);
      EscapedIsText(s[1..], after);
      ReplacesAreOneMap(s[1..]);
      assert e + rest + after == e + (rest + after);
      TextFirst(e, rest + after);
    }
  }

  lemma {:induction false} TextFirst(a: string, b: string)
    requires '<' !in a
    ensures UpToTag(a + b) == a + UpToTag(b)
  {
    if |a| == 0 {
      assert a + b == b;
    } else {
      assert (a + b)[1..] == a[1..] + b;
      TextFirst(a[1..], b);
    }
  }

  // ----- the argument line -----

  predicate Without(args: seq<string>, c: char) { forall i :: 0 <= i < |args| ==> c !in args[i] }

  /** Reading a command line makes up no character but a quote. */
  lemma {:induction false} ReadMakesUpNothing(r: CommandLine.Reader, t: string, c: char)
    requires c != '"' && c !in t && c !in r.cur && Without(r.args, c)
    ensures Without(CommandLine.Finish(CommandLine.Read(r, t)), c)
    decreases |t|
  {
    if |t| > 0 {
      ReadMakesUpNothing(CommandLine.ReadChar(r, t[0]), t[1..], c);
    }
  }

  lemma {:induction false} NoSlash(n: nat, c: char)
    requires c != '\\'
    ensures c !in CommandLine.Slashes(n)
  {
    if n > 0 { NoSlash(n - 1, c); }
  }

  lemma {:induction false} EscapeMakesUpNothing(a: string, c: char)
    requires c !in a && c != '\\' && c != '"'
    ensures c !in CommandLine.EscapeQuotes(a)
    decreases |a|
  {
    if |a| > 0 {
      var k := CommandLine.SlashRun(a);
      NoSlash(k, c);
      if k < |a| { EscapeMakesUpNothing(a[k + 1..], c); }
      EscapeMakesUpNothing(a[1..], c);
    }
  }

  lemma {:induction false} JoinMakesUpNothing(args: seq<string>, c: char)
    requires Without(args, c) && c != '\\' && c != '"' && c != ' '
    ensures c !in CommandLine.Join(args)
  {
    if |args| > 0 {
      var a := args[0];
      EscapeMakesUpNothing(a, c);
      NoSlash(CommandLine.TailRun(CommandLine.EscapeQuotes(a)), c);
      assert c !in CommandLine.WinQuote(a);
      if |args| > 1 { JoinMakesUpNothing(args[1..], c); }
    }
  }

  /**
   The program started at logon gets exactly the arguments meant: written as a command line, escaped, stored, read
   by the XML reader and split by the command line's rules. It fails exactly when a path holds a CR.
   */
  lemma TaskGetsItsArguments(nodePath: string, script: string, dataDir: string)
    ensures var args := Arguments(nodePath, script, dataDir);
            var read := Unescape(LineEnds(Written(XmlEscape(CommandLine.Join(args)))));
            read.Some? && (CommandLine.Split(read.value) == args <==> Without(args, '\r'))
  {
    var args := Arguments(nodePath, script, dataDir);
    var line := CommandLine.Join(args);
    ReadBack(line);
    if Without(args, '\r') {
      JoinMakesUpNothing(args, '\r');
      CommandLine.SplitJoined(args);
    } else {
      NoneOf(line, '\r', '\n');
      ReadMakesUpNothing(CommandLine.Fresh([]), Replace(line, '\r', "\n"), '\r');
    }
  }
}
