/**
 The Markdown preview (markdown module): a tree of a closed set of elements, of bounded height, whatever the text.
 The line patterns, the URL parser and the letter test are parameters (Outside).
 */
module Markdown {
  import opened Basics
  import opened Texts

  type Level = n: nat | 1 <= n <= 6 witness 1

  datatype Tag =
    | H(level: Level) | P | Br | Hr | Em | Strong | Del | Code | Pre | Blockquote | Ul | Ol | Li | A | Span
    | Table | Thead | Tbody | Tr | Th | Td

  datatype Attr = Href | Rel | Target | Title | Start | Class | Align

  datatype Node = Text(text: string) | Element(tag: Tag, attrs: map<Attr, string>, kids: seq<Node>)

  /** A line that begins a list item: indent, mark, what follows the mark, and the text in it. */
  datatype Item = Item(lead: nat, mark: string, rest: Option<string>, text: Option<string>)

  datatype Outside = Outside(
    fence: string -> Option<(char, nat)>,
    closes: (string, char, nat) -> bool,
    atx: string -> Option<(Level, string)>,
    hr: string -> bool,
    quote: string -> Option<string>,
    list: string -> Option<Item>,
    setext1: string -> bool,
    setext2: string -> bool,
    tableSep: string -> bool,
    indented: string -> Option<string>,
    url: string -> Option<(string, string)>,
    alnum: char -> bool,
    uri: string -> bool,
    mail: string -> bool,
    bare: string -> Option<nat>,
    imageLabel: string -> string)

  const WINDOW: nat := 4000
  const MAX_DEPTH: nat := 24

  /** The characters a backslash escapes: all of ASCII punctuation. */
  predicate IsPunct(c: char) { '!' <= c <= '/' || ':' <= c <= '@' || '[' <= c <= '`' || '{' <= c <= '~' }

  // ----- links -----

  function TrimStart(s: string): (r: string)
    ensures |r| <= |s|
  {
    if |s| > 0 && IsSpace(s[0]) then TrimStart(s[1..]) else s
  }

  function TrimEnd(s: string): string {
    if |s| > 0 && IsSpace(s[|s| - 1]) then TrimEnd(s[..|s| - 1]) else s
  }

  function Trim(s: string): string { TrimEnd(TrimStart(s)) }

  predicate IsControl(c: char) { (c < ' ' || c == '\U{007F}') && c != '\t' && c != '\n' && c != '\r' }

  predicate SafeScheme(protocol: string) { protocol == "http:" || protocol == "https:" || protocol == "mailto:" }

  /** The target a link may keep. */
  function SafeHref(g: Outside, raw: string): Option<string> {
    var s := Trim(raw);
    if s == "" || exists i :: 0 <= i < |s| && IsControl(s[i]) then None
    else
      match g.url(s)
      case None => None
      case Some((protocol, href)) => if SafeScheme(protocol) then Some(href) else None
  }

  // ----- the output -----

  /** A link's attributes: a target that was kept, opened without access to the app. */
  ghost predicate LinkAttrs(g: Outside, attrs: map<Attr, string>) {
    && attrs.Keys <= {Href, Rel, Target, Title} && Href in attrs && Rel in attrs && Target in attrs
    && (exists raw :: SafeHref(g, raw) == Some(attrs[Href]))
    && attrs[Rel] == "noopener noreferrer" && attrs[Target] == "_blank"
  }

  predicate OneText(kids: seq<Node>) { |kids| == 1 && kids[0].Text? }

  /** What text within a block may become, so deep in the recursion. */
  ghost predicate InlineAt(g: Outside, x: Node, depth: nat)
    decreases MAX_DEPTH + 1 - depth
  {
    x.Element? ==>
      && depth <= MAX_DEPTH
      && match x.tag
         case Em => x.attrs == map[] && forall k :: k in x.kids ==> InlineAt(g, k, depth + 1)
         case Strong => x.attrs == map[] && forall k :: k in x.kids ==> InlineAt(g, k, depth + 1)
         case Del => x.attrs == map[] && forall k :: k in x.kids ==> InlineAt(g, k, depth + 1)
         case A => LinkAttrs(g, x.attrs) && forall k :: k in x.kids ==> InlineAt(g, k, depth + 1)
         case Code => x.attrs == map[] && OneText(x.kids)
         case Span => x.attrs == map[Class := "md-img"] && OneText(x.kids)
         case Br => x.attrs == map[] && x.kids == []
         case _ => false
  }

  ghost predicate CellAt(g: Outside, x: Node, cell: Tag, depth: nat) {
    x.Element? && x.tag == cell && x.attrs.Keys <= {Align} && forall k :: k in x.kids ==> InlineAt(g, k, depth)
  }

  ghost predicate RowAt(g: Outside, x: Node, cell: Tag, depth: nat) {
    x.Element? && x.tag == Tr && x.attrs == map[] && forall k :: k in x.kids ==> CellAt(g, k, cell, depth)
  }

  ghost predicate BlockAt(g: Outside, x: Node, depth: nat)
    decreases MAX_DEPTH + 1 - depth, 1
  {
    && x.Element? && depth <= MAX_DEPTH
    && match x.tag
       case H(_) => x.attrs == map[] && forall k :: k in x.kids ==> InlineAt(g, k, depth + 1)
       case P => x.attrs == map[] && forall k :: k in x.kids ==> InlineAt(g, k, depth + 1)
       case Hr => x.attrs == map[] && x.kids == []
       case Pre =>
         && x.attrs == map[] && |x.kids| == 1
         && x.kids[0].Element? && x.kids[0].tag == Code && x.kids[0].attrs == map[] && OneText(x.kids[0].kids)
       case Blockquote => x.attrs == map[] && depth < MAX_DEPTH && forall k :: k in x.kids ==> BlockAt(g, k, depth + 1)
       case Ul => x.attrs == map[] && forall k :: k in x.kids ==> ItemAt(g, k, depth)
       case Ol => x.attrs.Keys <= {Start} && forall k :: k in x.kids ==> ItemAt(g, k, depth)
       case Table =>
         && x.attrs == map[] && |x.kids| == 2
         && x.kids[0].Element? && x.kids[0].tag == Thead && x.kids[0].attrs == map[]
         && |x.kids[0].kids| == 1 && RowAt(g, x.kids[0].kids[0], Th, depth + 1)
         && x.kids[1].Element? && x.kids[1].tag == Tbody && x.kids[1].attrs == map[]
         && forall k :: k in x.kids[1].kids ==> RowAt(g, k, Td, depth + 1)
       case _ => false
  }

  ghost predicate ItemAt(g: Outside, x: Node, depth: nat)
    decreases MAX_DEPTH + 1 - depth, 0
  {
    && x.Element? && x.tag == Li && x.attrs == map[] && depth < MAX_DEPTH
    && forall k :: k in x.kids ==> BlockAt(g, k, depth + 1) || InlineAt(g, k, depth + 2)
  }

  // ----- scanning -----

  function At(s: string, i: int): Option<char> { if 0 <= i < |s| then Some(s[i]) else None }

  function Slice(s: string, i: nat, j: nat): string {
    if i <= j <= |s| then s[i..j] else if i <= |s| then s[i..] else ""
  }

  predicate NoWord(c: Option<char>) { c.None? || IsSpace(c.value) }

  predicate Alnum(g: Outside, c: Option<char>) { c.Some? && g.alnum(c.value) }

  /** Where a run of one character ends. */
  function RunEnd(s: string, i: nat, c: char): (k: nat)
    requires i <= |s|
    ensures i <= k <= |s| && (k < |s| ==> s[k] != c) && forall j :: i <= j < k ==> s[j] == c
    decreases |s| - i
  {
    if i < |s| && s[i] == c then RunEnd(s, i + 1, c) else i
  }

  /** The first occurrence of a text from a position on, or -1. */
  function IndexOf(s: string, t: string, i: nat): (e: int)
    requires i <= |s|
    ensures e == -1 || (i <= e && e + |t| <= |s| && s[e..e + |t|] == t)
    decreases |s| - i
  {
    if i + |t| > |s| then -1
    else if s[i..i + |t|] == t then i
    else if i < |s| then IndexOf(s, t, i + 1)
    else -1
  }

  /** The end of a label, counting brackets that are not escaped, from position `j` with `d` open; or -1. */
  function CloseFrom(s: string, i: nat, j: nat, d: int): (r: int)
    requires i <= j && (j == i ==> d == 0 && At(s, i) == Some('['))
    ensures r == -1 || (i < r < |s| && s[r] == ']')
    decreases |s| - j
  {
    if j >= |s| || j - i >= WINDOW then -1
    else if s[j] == '\\' then CloseFrom(s, i, j + 2, d)
    else if s[j] == '[' then CloseFrom(s, i, j + 1, d + 1)
    else if s[j] == ']' then if d - 1 == 0 then j else CloseFrom(s, i, j + 1, d - 1)
    else CloseFrom(s, i, j + 1, d)
  }

  function SkipBlanks(s: string, j: nat): (k: nat)
    requires j <= |s|
    ensures j <= k <= |s|
    decreases |s| - j
  {
    if j < |s| && (s[j] == ' ' || s[j] == '\n') then SkipBlanks(s, j + 1) else j
  }

  /** The end of a target that is not in angle brackets. */
  function TargetEnd(s: string, from: nat, j: nat, d: nat): (k: nat)
    requires from <= j <= |s|
    ensures j <= k <= |s|
    decreases |s| - j
  {
    if j >= |s| || j - from >= WINDOW then j
    else if s[j] == '\\' && j + 1 < |s| then TargetEnd(s, from, j + 2, d)
    else if IsSpace(s[j]) then j
    else if s[j] == '(' then TargetEnd(s, from, j + 1, d + 1)
    else if s[j] == ')' then if d == 0 then j else TargetEnd(s, from, j + 1, d - 1)
    else TargetEnd(s, from, j + 1, d)
  }

  function Unslash(t: string): string {
    if |t| == 0 then ""
    else if t[0] == '\\' && |t| > 1 && IsPunct(t[1]) then [t[1]] + Unslash(t[2..])
    else [t[0]] + Unslash(t[1..])
  }

  datatype Tail = Tail(target: string, title: string, next: nat)

  /** A target and a title in parentheses, and the position after them. */
  function LinkTail(s: string, i: nat): (r: Option<Tail>)
    requires i < |s|
    ensures r.Some? ==> i < r.value.next <= |s|
  {
    var j := SkipBlanks(s, i + 1);
    if At(s, j) == Some('<') then
      var e := IndexOf(s, ">", j);
      assert e >= 0 ==> s[e..e + 1][0] == '>';
      if e < 0 || e - j > WINDOW || '\n' in s[j + 1..e] then None else TitleTail(s, s[j + 1..e], e + 1)
    else
      var k := TargetEnd(s, j, j, 0);
      TitleTail(s, Unslash(s[j..k]), k)
  }

  function TitleTail(s: string, target: string, from: nat): (r: Option<Tail>)
    requires from <= |s|
    ensures r.Some? ==> from < r.value.next <= |s|
  {
    var j := SkipBlanks(s, from);
    var q := At(s, j);
    if q == Some('"') || q == Some('\'') || q == Some('(') then
      var e := IndexOf(s, if q == Some('(') then ")" else [q.value], j + 1);
      if e < 0 || e - j > WINDOW then None
      else
        var k := SkipBlanks(s, e + 1);
        if At(s, k) == Some(')') then Some(Tail(target, s[j + 1..e], k + 1)) else None
    else if q == Some(')') then Some(Tail(target, "", j + 1))
    else None
  }

  /** The closing delimiter for an opener that ends at `from`, looked for from `j` on; or -1. */
  function CloserFrom(g: Outside, s: string, from: nat, j: nat, delim: string): (r: int)
    requires from <= j && 0 < |delim|
    ensures r == -1 ||
            (from < r && r + |delim| <= |s| &&
             (|delim| <= 2 && delim[|delim| - 1] == delim[0] ==> s[r..r + |delim|] == delim))
    decreases |s| - j
  {
    if j >= |s| || j - from >= WINDOW then -1
    else if s[j] == '\\' then CloserFrom(g, s, from, j + 2, delim)
    else if s[j] == '`' then CloserFrom(g, s, from, AfterCode(s, j), delim)
    else if s[j] != delim[0] then CloserFrom(g, s, from, j + 1, delim)
    else
      var k := RunEnd(s, j, delim[0]);
      if Closes(g, s, from, j, k, delim) then
        EndOfRun(s, j, k, delim);
        k - |delim|
      else CloserFrom(g, s, from, k, delim)
  }

  lemma EndOfRun(s: string, j: nat, k: nat, delim: string)
    requires j <= k <= |s| && 0 < |delim| <= k - j && forall i :: j <= i < k ==> s[i] == delim[0]
    ensures |delim| <= 2 && delim[|delim| - 1] == delim[0] ==> s[k - |delim|..k] == delim
  {
  }

  /** A run of the delimiter's character ends the emphasis: not the other kind's run, and right after a word. */
  predicate Closes(g: Outside, s: string, from: nat, j: nat, k: nat, delim: string)
    requires j < k && 0 < |delim|
  {
    && !((|delim| == 1 && k - j == 2) || (|delim| == 2 && k - j == 1))
    && k - j >= |delim| && j > from && !NoWord(At(s, j - 1)) && (delim[0] != '_' || !Alnum(g, At(s, k)))
  }

  /** Where `n` backquotes in a row are next, or -1. */
  function NextRun(s: string, n: nat, i: nat): (e: int)
    requires i <= |s| && n > 0
    ensures e == -1 || (i <= e <= |s| && e + n <= RunEnd(s, e, '`'))
    decreases |s| - i
  {
    if i + n > |s| then -1
    else if RunEnd(s, i, '`') >= i + n then i
    else NextRun(s, n, i + 1)
  }

  /** Past a code span, or past its opening run when it has no end near. */
  function AfterCode(s: string, j: nat): (r: nat)
    requires j < |s| && s[j] == '`'
    ensures j < r <= |s|
  {
    var k := RunEnd(s, j, '`');
    var e := NextRun(s, k - j, k);
    if e > 0 && e - k < WINDOW then e + (k - j) else k
  }

  /** The closing run of a code span that was opened by `n` backquotes. */
  function CodeEnd(s: string, n: nat, k: nat, e: int): (r: int)
    requires k <= |s| && n > 0 && (e == -1 || (k <= e <= |s| && e + n <= RunEnd(s, e, '`')))
    ensures r == -1 || (k <= r <= |s| && r + n <= RunEnd(s, r, '`'))
    decreases if e < 0 then 0 else |s| - e + 1
  {
    if e >= 0 && e - k < WINDOW && At(s, e + n) == Some('`') then CodeEnd(s, n, k, NextRun(s, n, RunEnd(s, e, '`')))
    else e
  }

  /** It is exactly as long as the opening one. */
  lemma {:induction false} CodeEndsExactly(s: string, n: nat, k: nat, e: int)
    requires k <= |s| && n > 0 && (e == -1 || (k <= e <= |s| && e + n <= RunEnd(s, e, '`')))
    ensures var r := CodeEnd(s, n, k, e); 0 <= r && r - k < WINDOW ==> RunEnd(s, r, '`') == r + n
    decreases if e < 0 then 0 else |s| - e + 1
  {
    if e >= 0 && e - k < WINDOW && At(s, e + n) == Some('`') {
      CodeEndsExactly(s, n, k, NextRun(s, n, RunEnd(s, e, '`')));
    }
  }

  // ----- text within a block -----

  /** One pass of the loop: nodes put out, where to go on, text held back. */
  datatype Step = Step(out: seq<Node>, next: nat, buf: string)

  ghost predicate StepOk(g: Outside, s: string, i: nat, depth: nat, r: Step) {
    i < r.next <= |s| && forall x :: x in r.out ==> InlineAt(g, x, depth)
  }

  function Flush(buf: string): seq<Node> { if buf == "" then [] else [Text(buf)] }

  predicate EndsTwoSpaces(buf: string) { |buf| >= 2 && buf[|buf| - 1] == ' ' && buf[|buf| - 2] == ' ' }

  function DropSpaces(buf: string): string {
    if |buf| > 0 && buf[|buf| - 1] == ' ' then DropSpaces(buf[..|buf| - 1]) else buf
  }

  /** The text of a code span: line ends are blanks, and one blank at each end goes if there is more than blanks. */
  function CodeText(t: string): string {
    var c := Replace(t, '\n', " ");
    if |c| > 1 && c[0] == ' ' && c[|c| - 1] == ' ' && Trim(c) != "" then c[1..|c| - 1] else c
  }

  function CodeStep(g: Outside, s: string, i: nat, buf: string, depth: nat): (r: Step)
    requires i < |s| && s[i] == '`' && depth <= MAX_DEPTH
    ensures StepOk(g, s, i, depth, r)
  {
    var k := RunEnd(s, i, '`');
    var run := s[i..k];
    var e := CodeEnd(s, k - i, k, NextRun(s, k - i, k));
    if e >= 0 && e - k < WINDOW then
      Step(Flush(buf) + [Element(Code, map[], [Text(CodeText(s[k..e]))])], e + |run|, "")
    else Step([], k, buf + run)
  }

  function LinkTo(href: string, title: string): map<Attr, string> {
    var a := map[Href := href, Rel := "noopener noreferrer", Target := "_blank"];
    if title == "" then a else a[Title := title]
  }

  lemma LinkToOk(g: Outside, raw: string, title: string)
    requires SafeHref(g, raw).Some?
    ensures LinkAttrs(g, LinkTo(SafeHref(g, raw).value, title))
  {
    assert SafeHref(g, raw) == Some(LinkTo(SafeHref(g, raw).value, title)[Href]);
  }

  function ImageText(caption: string): string {
    if |caption| == 0 then ""
    else (if caption[0] in "\\*_`[]" then "" else [caption[0]]) + ImageText(caption[1..])
  }

  /** What is deeper down may also stand here. */
  lemma {:induction false} Shallower(g: Outside, x: Node, depth: nat)
    requires InlineAt(g, x, depth + 1)
    ensures InlineAt(g, x, depth)
    decreases MAX_DEPTH + 1 - depth
  {
    if x.Element? && depth < MAX_DEPTH {
      forall k | k in x.kids && InlineAt(g, k, depth + 2) ensures InlineAt(g, k, depth + 1) {
        Shallower(g, k, depth + 1);
      }
    }
  }

  /** The caption as a link; by itself when the target is not kept. */
  function Linked(g: Outside, tail: Tail, kids: seq<Node>, depth: nat): (r: seq<Node>)
    requires depth < MAX_DEPTH && forall x :: x in kids ==> InlineAt(g, x, depth + 1)
    ensures forall x :: x in r ==> InlineAt(g, x, depth)
  {
    var href := SafeHref(g, tail.target);
    if href.Some? then
      LinkToOk(g, tail.target, tail.title);
      [Element(A, LinkTo(href.value, tail.title), kids)]
    else
      assert forall x :: x in kids ==> InlineAt(g, x, depth) by {
        forall x | x in kids ensures InlineAt(g, x, depth) { Shallower(g, x, depth); }
      }
      kids
  }

  function BracketStep(g: Outside, s: string, i: nat, buf: string, depth: nat): (r: Step)
    requires i < |s| && depth < MAX_DEPTH && (s[i] == '[' || (s[i] == '!' && At(s, i + 1) == Some('[')))
    ensures StepOk(g, s, i, depth, r)
    decreases MAX_DEPTH + 1 - depth, 1, 0
  {
    var open := if s[i] == '!' then i + 1 else i;
    var close := CloseFrom(s, open, open, 0);
    var tail := if close > 0 && At(s, close + 1) == Some('(') then LinkTail(s, close + 1) else None;
    if tail.None? then Step([], i + 1, buf + [s[i]])
    else
      var caption := s[open + 1..close];
      if s[i] == '!' then
        Step(Flush(buf) + [Element(Span, map[Class := "md-img"], [Text(g.imageLabel(Trim(ImageText(caption))))])],
          tail.value.next, "")
      else
        Step(Flush(buf) + Linked(g, tail.value, Inline(g, caption, depth + 1), depth), tail.value.next, "")
  }

  /** The text between angle brackets, when it is all within the window and of the right form. */
  function Angle(s: string, i: nat, window: nat, form: string -> bool): (r: Option<string>)
    requires i < |s|
    ensures r.Some? ==> i + |r.value| + 2 <= |s|
  {
    var t := Slice(s, i, i + window);
    var e := if |t| > 0 then IndexOf(t, ">", 1) else -1;
    if e > 0 && form(t[1..e]) then Some(t[1..e]) else None
  }

  function AngleStep(g: Outside, s: string, i: nat, buf: string, depth: nat): (r: Step)
    requires i < |s| && s[i] == '<' && depth <= MAX_DEPTH
    ensures StepOk(g, s, i, depth, r)
  {
    var m := if Angle(s, i, 2048, g.uri).Some? then Angle(s, i, 2048, g.uri) else Angle(s, i, 512, g.mail);
    if m.None? then Step([], i + 1, buf + "<")
    else
      var target := if ':' in m.value then m.value else "mailto:" + m.value;
      var href := SafeHref(g, target);
      var x := if href.Some? then Element(A, LinkTo(href.value, ""), [Text(m.value)]) else Text("<" + m.value + ">");
      assert InlineAt(g, x, depth) by { if href.Some? { LinkToOk(g, target, ""); } }
      Step(Flush(buf) + [x], i + |m.value| + 2, "")
  }

  function Lower(c: char): char { if 'A' <= c <= 'Z' then (c as int + 32) as char else c }

  predicate BeginsWith(t: string, prefix: string) {
    |t| >= |prefix| && forall i :: 0 <= i < |prefix| ==> Lower(t[i]) == prefix[i]
  }

  /** A bare http or https address at the beginning. */
  function Bare(g: Outside, t: string): (r: Option<string>)
    ensures r.Some? ==> 0 < |r.value| && r.value <= t
  {
    if !BeginsWith(t, "http://") && !BeginsWith(t, "https://") then None
    else
      match g.bare(t)
      case None => None
      case Some(n) => if 0 < n <= |t| then Some(t[..n]) else None
  }

  function BareStep(g: Outside, s: string, i: nat, buf: string, depth: nat): (r: Step)
    requires i < |s| && depth <= MAX_DEPTH
    ensures StepOk(g, s, i, depth, r)
  {
    var m := Bare(g, Slice(s, i, i + 2048));
    if m.Some? && SafeHref(g, m.value).Some? then
      LinkToOk(g, m.value, "");
      Step(Flush(buf) + [Element(A, LinkTo(SafeHref(g, m.value).value, ""), [Text(m.value)])], i + |m.value|, "")
    else Step([], i + 1, buf + [s[i]])
  }

  function Twice(c: char): string { [c, c] }

  /** Emphasis of one kind from an opener of that length, if it is closed. */
  function EmphasisTry(g: Outside, s: string, i: nat, k: nat, delim: string, tag: Tag, buf: string,
      depth: nat): (r: Option<Step>)
    requires i < k <= |s| && 0 < |delim| <= k - i && depth < MAX_DEPTH && tag in {Em, Strong, Del}
    ensures r.Some? ==> StepOk(g, s, i, depth, r.value)
    decreases MAX_DEPTH + 1 - depth, 0, 0
  {
    var from := i + |delim|;
    var e := CloserFrom(g, s, from, from, delim);
    if e > from then
      Some(Step(Flush(buf) + [Element(tag, map[], Inline(g, s[from..e], depth + 1))], e + |delim|, ""))
    else None
  }

  function EmphasisStep(g: Outside, s: string, i: nat, buf: string, depth: nat): (r: Step)
    requires i < |s| && s[i] in "*_~" && depth <= MAX_DEPTH
    ensures StepOk(g, s, i, depth, r)
    decreases MAX_DEPTH + 1 - depth, 1, 0
  {
    var c := s[i];
    var k := RunEnd(s, i, c);
    var plain := Step([], k, buf + s[i..k]);
    if NoWord(At(s, k)) || (c == '_' && Alnum(g, At(s, i - 1))) || depth == MAX_DEPTH then plain
    else if c == '~' then
      var r := if k - i == 2 then EmphasisTry(g, s, i, k, Twice(c), Del, buf, depth) else None;
      if r.Some? then r.value else plain
    else
      var two := if k - i >= 2 then EmphasisTry(g, s, i, k, Twice(c), Strong, buf, depth) else None;
      if two.Some? then two.value
      else
        var one := EmphasisTry(g, s, i, k, [c], Em, buf, depth);
        if one.Some? then one.value else plain
  }

  function StepAt(g: Outside, s: string, i: nat, buf: string, depth: nat): (r: Step)
    requires i < |s| && depth <= MAX_DEPTH
    ensures StepOk(g, s, i, depth, r)
    decreases MAX_DEPTH + 1 - depth, 2, 0
  {
    var c := s[i];
    if c == '\\' && i + 1 < |s| && s[i + 1] == '\n' then Step(Flush(buf) + [Element(Br, map[], [])], i + 2, "")
    else if c == '\\' && i + 1 < |s| && IsPunct(s[i + 1]) then Step([], i + 2, buf + [s[i + 1]])
    else if c == '\n' then
      if EndsTwoSpaces(buf) then Step(Flush(DropSpaces(buf)) + [Element(Br, map[], [])], i + 1, "")
      else Step([], i + 1, buf + "\n")
    else if c == '`' then CodeStep(g, s, i, buf, depth)
    else if (c == '[' || (c == '!' && At(s, i + 1) == Some('['))) && depth < MAX_DEPTH then
      BracketStep(g, s, i, buf, depth)
    else if c == '<' then AngleStep(g, s, i, buf, depth)
    else if (c == 'h' || c == 'H') && !Alnum(g, At(s, i - 1)) then BareStep(g, s, i, buf, depth)
    else if c in "*_~" then EmphasisStep(g, s, i, buf, depth)
    else Step([], i + 1, buf + [c])
  }

  function InlineFrom(g: Outside, s: string, i: nat, buf: string, depth: nat): (r: seq<Node>)
    requires i <= |s| && depth <= MAX_DEPTH
    ensures forall x :: x in r ==> InlineAt(g, x, depth)
    decreases MAX_DEPTH + 1 - depth, 3, |s| - i
  {
    if i == |s| then Flush(buf)
    else
      var t := StepAt(g, s, i, buf, depth);
      t.out + InlineFrom(g, s, t.next, t.buf, depth)
  }

  function Inline(g: Outside, s: string, depth: nat): (r: seq<Node>)
    requires depth <= MAX_DEPTH + 1
    ensures forall x :: x in r ==> InlineAt(g, x, depth)
    decreases MAX_DEPTH + 1 - depth, 4, 0
  {
    if depth > MAX_DEPTH then Flush(s) else InlineFrom(g, s, 0, "", depth)
  }

  // ----- the loops -----

  method CloseBracket(s: string, i: nat) returns (r: int)
    requires At(s, i) == Some('[')
    ensures r == CloseFrom(s, i, i, 0)
  {
    var d, j := 0, i;
    while j < |s| && j - i < WINDOW
      invariant i <= j && (j == i ==> d == 0) && CloseFrom(s, i, j, d) == CloseFrom(s, i, i, 0)
      decreases |s| - j
    {
      if s[j] == '\\' {
        j := j + 1;
      } else if s[j] == '[' {
        d := d + 1;
      } else if s[j] == ']' {
        d := d - 1;
        if d == 0 { return j; }
      }
      j := j + 1;
    }
    r := -1;
  }

  method FindCloser(g: Outside, s: string, from: nat, delim: string) returns (r: int)
    requires 0 < |delim|
    ensures r == CloserFrom(g, s, from, from, delim)
  {
    var j := from;
    while j < |s| && j - from < WINDOW
      invariant from <= j && CloserFrom(g, s, from, j, delim) == CloserFrom(g, s, from, from, delim)
      decreases |s| - j
    {
      if s[j] == '\\' {
        j := j + 2;
      } else if s[j] == '`' {
        j := AfterCode(s, j);
      } else if s[j] != delim[0] {
        j := j + 1;
      } else {
        var k := RunEnd(s, j, delim[0]);
        if Closes(g, s, from, j, k, delim) { return k - |delim|; }
        j := k;
      }
    }
    r := -1;
  }

  method ParseInline(g: Outside, s: string, depth: nat) returns (out: seq<Node>)
    requires depth <= MAX_DEPTH + 1
    ensures out == Inline(g, s, depth)
  {
    if depth > MAX_DEPTH { return Flush(s); }
    out := [];
    var i, buf := 0, "";
    while i < |s|
      invariant 0 <= i <= |s| && out + InlineFrom(g, s, i, buf, depth) == Inline(g, s, depth)
    {
      var t := StepAt(g, s, i, buf, depth);
      out, i, buf := out + t.out, t.next, t.buf;
    }
    out := out + Flush(buf);
  }

  // ----- escaped text is shown as it is -----

  function EscapeOne(c: char): string { if IsPunct(c) then ['\\', c] else [c] }

  /** Every punctuation character with a backslash before it. */
  function Escape(t: string): string {
    if |t| == 0 then "" else EscapeOne(t[0]) + Escape(t[1..])
  }

  lemma {:induction false} ColonEscaped(t: string, k: nat)
    requires k < |Escape(t)| && Escape(t)[k] == ':'
    ensures k > 0 && Escape(t)[k - 1] == '\\'
  {
    var first := EscapeOne(t[0]);
    if k >= |first| { ColonEscaped(t[1..], k - |first|); }
  }

  lemma NotBare(g: Outside, t: string, n: nat)
    ensures Bare(g, Slice(Escape(t), 0, n)).None?
  {
    var e := Slice(Escape(t), 0, n);
    if BeginsWith(e, "http://") {
      assert Lower(e[4]) == ':' && Lower(e[3]) == 'p';
      ColonEscaped(t, 4);
    } else if BeginsWith(e, "https://") {
      assert Lower(e[5]) == ':' && Lower(e[4]) == 's';
      ColonEscaped(t, 5);
    }
  }

  /** One character of escaped text is held back as it is. */
  lemma EscapedStep(g: Outside, before: string, buf: string, t: string, depth: nat)
    requires |t| > 0 && t[0] != '\n' && depth <= MAX_DEPTH
    ensures var s := before + Escape(t);
            StepAt(g, s, |before|, buf, depth)
            == Step([], |before| + if IsPunct(t[0]) then 2 else 1, buf + [t[0]])
  {
    var s := before + Escape(t);
    var i := |before|;
    if IsPunct(t[0]) {
      assert s[i] == '\\' && s[i + 1] == t[0];
    } else {
      assert s[i] == t[0];
      NotBare(g, t, 2048);
      assert Slice(s, i, i + 2048) == Slice(Escape(t), 0, 2048);
    }
  }

  lemma InlineNext(g: Outside, s: string, i: nat, buf: string, depth: nat)
    requires i < |s| && depth <= MAX_DEPTH
    ensures var t := StepAt(g, s, i, buf, depth);
            InlineFrom(g, s, i, buf, depth) == t.out + InlineFrom(g, s, t.next, t.buf, depth)
  {
  }

  lemma EscapedNext(g: Outside, before: string, buf: string, t: string, depth: nat)
    requires |t| > 0 && t[0] != '\n' && depth <= MAX_DEPTH
    ensures var after := before + EscapeOne(t[0]);
            InlineFrom(g, before + Escape(t), |before|, buf, depth)
            == InlineFrom(g, after + Escape(t[1..]), |after|, buf + [t[0]], depth)
  {
    EscapedStep(g, before, buf, t, depth);
    InlineNext(g, before + Escape(t), |before|, buf, depth);
    Concat3(before, EscapeOne(t[0]), Escape(t[1..]));
  }

  lemma {:induction false} EscapedFrom(g: Outside, before: string, buf: string, t: string, depth: nat)
    requires '\n' !in t && depth <= MAX_DEPTH
    ensures InlineFrom(g, before + Escape(t), |before|, buf, depth) == Flush(buf + t)
    decreases |t|
  {
    if |t| == 0 {
      assert buf + t == buf;
    } else {
      EscapedNext(g, before, buf, t, depth);
      EscapedFrom(g, before + EscapeOne(t[0]), buf + [t[0]], t[1..], depth);
      assert t == [t[0]] + t[1..];
      Concat3(buf, [t[0]], t[1..]);
    }
  }

  /** Text with every punctuation character escaped is shown literally, whatever it says. */
  lemma EscapedIsLiteral(g: Outside, t: string, depth: nat)
    requires '\n' !in t && depth <= MAX_DEPTH
    ensures Inline(g, Escape(t), depth) == if t == "" then [] else [Text(t)]
  {
    EscapedFrom(g, "", "", t, depth);
    assert "" + Escape(t) == Escape(t) && "" + t == t;
  }
}
