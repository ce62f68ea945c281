/** The blocks of the Markdown preview: headings, lists, tables and the rest, line by line (`parseBlocks`). */
module MarkdownBlocks {
  import opened Basics
  import opened Markdown
  import opened Texts

  predicate IsBlank(line: string) { forall i :: 0 <= i < |line| ==> line[i] == ' ' || line[i] == '\t' }

  predicate HasDigit(mark: string) { exists i :: 0 <= i < |mark| && '0' <= mark[i] <= '9' }

  predicate StartsBlock(g: Outside, line: string) {
    || g.fence(line).Some? || g.atx(line).Some? || g.hr(line) || g.quote(line).Some?
    || (g.list(line).Some? && g.list(line).value.text.Some? && !IsBlank(g.list(line).value.text.value))
  }

  function JoinLines(lines: seq<string>): string {
    if |lines| == 0 then "" else if |lines| == 1 then lines[0] else lines[0] + "\n" + JoinLines(lines[1..])
  }

  function Indent(line: string): nat { |line| - |TrimStart(line)| }

  function DropBlanks(line: string): string {
    if |line| > 0 && (line[0] == ' ' || line[0] == '\t') then DropBlanks(line[1..]) else line
  }

  function CodeBlock(body: seq<string>): Node {
    Element(Pre, map[], [Element(Code, map[], [Text(JoinLines(body))])])
  }

  // ----- how many lines a block takes -----

  function CountBlank(lines: seq<string>): (n: nat)
    ensures n <= |lines|
  {
    if |lines| > 0 && IsBlank(lines[0]) then 1 + CountBlank(lines[1..]) else 0
  }

  function CountOpen(g: Outside, lines: seq<string>, mark: (char, nat)): (n: nat)
    ensures n <= |lines|
  {
    if |lines| > 0 && !g.closes(lines[0], mark.0, mark.1) then 1 + CountOpen(g, lines[1..], mark) else 0
  }

  /** Quoted lines, without their marks. */
  function Quoted(g: Outside, lines: seq<string>): (r: seq<string>)
    ensures |r| <= |lines| && (|lines| > 0 && g.quote(lines[0]).Some? ==> |r| > 0)
  {
    if |lines| > 0 && g.quote(lines[0]).Some? then [g.quote(lines[0]).value] + Quoted(g, lines[1..]) else []
  }

  /** Indented or blank lines, without the indent. */
  function Unindented(g: Outside, lines: seq<string>): (r: seq<string>)
    ensures |r| <= |lines| && (|lines| > 0 && g.indented(lines[0]).Some? ==> |r| > 0)
  {
    if |lines| == 0 then []
    else if g.indented(lines[0]).Some? then [g.indented(lines[0]).value] + Unindented(g, lines[1..])
    else if IsBlank(lines[0]) then [lines[0]] + Unindented(g, lines[1..])
    else []
  }

  function DropLastBlank(lines: seq<string>): seq<string> {
    if |lines| > 0 && IsBlank(lines[|lines| - 1]) then DropLastBlank(lines[..|lines| - 1]) else lines
  }

  function CountRows(lines: seq<string>): (n: nat)
    ensures n <= |lines|
  {
    if |lines| > 0 && !IsBlank(lines[0]) && '|' in lines[0] then 1 + CountRows(lines[1..]) else 0
  }

  datatype Paragraph = Paragraph(body: seq<string>, used: nat, tag: Tag)

  /** The lines of a paragraph after its first, and its heading level when it is underlined. */
  function Continued(g: Outside, lines: seq<string>): (r: Paragraph)
    ensures r.used <= |lines| && r.tag in {P, H(1), H(2)}
  {
    if |lines| == 0 || IsBlank(lines[0]) then Paragraph([], 0, P)
    else if g.setext1(lines[0]) then Paragraph([], 1, H(1))
    else if g.setext2(lines[0]) then Paragraph([], 1, H(2))
    else if StartsBlock(g, lines[0]) then Paragraph([], 0, P)
    else
      var rest := Continued(g, lines[1..]);
      Paragraph([lines[0]] + rest.body, rest.used + 1, rest.tag)
  }

  // ----- list items -----

  function Offset(m: Item): nat {
    var gap := |m.rest.GetOr(" ")| - |m.text.GetOr("")|;
    m.lead + |m.mark| + Min(Max(gap, 1), 4)
  }

  datatype ItemBody = ItemBody(body: seq<string>, used: nat, tight: bool)

  function Empties(n: nat): seq<string> { if n == 0 then [] else [""] + Empties(n - 1) }

  /** The lines of an item after its first: indented ones, blank ones before such, and lazy ones. */
  function Collect(g: Outside, lines: seq<string>, offset: nat): (r: ItemBody)
    ensures r.used <= |lines|
    decreases |lines|
  {
    if |lines| == 0 then ItemBody([], 0, true)
    else if IsBlank(lines[0]) then
      var j := CountBlank(lines);
      if j < |lines| && Indent(lines[j]) >= offset then
        var rest := Collect(g, lines[j..], offset);
        ItemBody(Empties(j) + rest.body, j + rest.used, false)
      else ItemBody([], 0, true)
    else if Indent(lines[0]) >= offset then
      var rest := Collect(g, lines[1..], offset);
      ItemBody([lines[0][offset..]] + rest.body, rest.used + 1, rest.tight)
    else if g.list(lines[0]).Some? || StartsBlock(g, lines[0]) then ItemBody([], 0, true)
    else
      var rest := Collect(g, lines[1..], offset);
      ItemBody([Trim(lines[0])] + rest.body, rest.used + 1, rest.tight)
  }

  /** A tight item shows its paragraphs' text without the paragraphs. */
  function Unwrap(blocks: seq<Node>): seq<Node> {
    if |blocks| == 0 then []
    else (if blocks[0].Element? && blocks[0].tag == P then blocks[0].kids else [blocks[0]]) + Unwrap(blocks[1..])
  }

  lemma {:induction false} UnwrapOk(g: Outside, blocks: seq<Node>, depth: nat)
    requires forall x :: x in blocks ==> BlockAt(g, x, depth)
    ensures forall x :: x in Unwrap(blocks) ==> BlockAt(g, x, depth) || InlineAt(g, x, depth + 1)
  {
    if |blocks| > 0 {
      assert BlockAt(g, blocks[0], depth);
      UnwrapOk(g, blocks[1..], depth);
      var first := if blocks[0].Element? && blocks[0].tag == P then blocks[0].kids else [blocks[0]];
      assert Unwrap(blocks) == first + Unwrap(blocks[1..]);
    }
  }

  function Digits(mark: string): string {
    if |mark| > 0 && '0' <= mark[0] <= '9' then [mark[0]] + Digits(mark[1..]) else ""
  }

  function DropZeros(digits: string): string {
    if |digits| > 1 && digits[0] == '0' then DropZeros(digits[1..]) else digits
  }

  /** The attribute of a numbered list that does not begin at one. */
  function StartOf(mark: string): map<Attr, string> {
    var start := DropZeros(Digits(mark));
    if HasDigit(mark) && start != "1" then map[Start := start] else map[]
  }

  // ----- tables -----

  function CellsFrom(s: string, cur: string): (r: seq<string>)
    ensures |r| > 0
    decreases |s|
  {
    if |s| == 0 then [Trim(cur)]
    else if s[0] == '\\' && |s| > 1 && s[1] == '|' then CellsFrom(s[2..], cur + "|")
    else if s[0] == '|' then [Trim(cur)] + CellsFrom(s[1..], "")
    else CellsFrom(s[1..], cur + [s[0]])
  }

  function SplitRow(line: string): (r: seq<string>)
    ensures |r| > 0
  {
    var s := Trim(line);
    var t := if |s| > 0 && s[0] == '|' then s[1..] else s;
    var n := |t|;
    CellsFrom(if n > 0 && t[n - 1] == '|' && !(n > 1 && t[n - 2] == '\\') then t[..n - 1] else t, "")
  }

  function AlignOf(c: string): string {
    var left, right := |c| > 0 && c[0] == ':', |c| > 0 && c[|c| - 1] == ':';
    if left && right then "center" else if right then "right" else if left then "left" else ""
  }

  function Cell(g: Outside, cell: Tag, text: string, aligns: seq<string>, k: nat, depth: nat): (x: Node)
    requires depth <= MAX_DEPTH
    ensures CellAt(g, x, cell, depth + 1)
  {
    var a := if k < |aligns| then AlignOf(aligns[k]) else "";
    Element(cell, if a == "" then map[] else map[Align := a], Inline(g, text, depth + 1))
  }

  /** One cell for each of the head's `n`, from the `k`-th on; missing ones are empty. */
  function Cells(g: Outside, cell: Tag, texts: seq<string>, aligns: seq<string>, k: nat, n: nat,
      depth: nat): (r: seq<Node>)
    requires k <= n && depth <= MAX_DEPTH
    ensures |r| == n - k && forall x :: x in r ==> CellAt(g, x, cell, depth + 1)
    decreases n - k
  {
    if k == n then []
    else
      [Cell(g, cell, if k < |texts| then texts[k] else "", aligns, k, depth)] +
        Cells(g, cell, texts, aligns, k + 1, n, depth)
  }

  function Row(g: Outside, cell: Tag, texts: seq<string>, aligns: seq<string>, n: nat, depth: nat): (x: Node)
    requires depth <= MAX_DEPTH
    ensures RowAt(g, x, cell, depth + 1)
  {
    Element(Tr, map[], Cells(g, cell, texts, aligns, 0, n, depth))
  }

  function Rows(g: Outside, lines: seq<string>, aligns: seq<string>, n: nat, depth: nat): (r: seq<Node>)
    requires depth <= MAX_DEPTH
    ensures forall x :: x in r ==> RowAt(g, x, Td, depth + 1)
  {
    if |lines| == 0 then []
    else [Row(g, Td, SplitRow(lines[0]), aligns, n, depth)] + Rows(g, lines[1..], aligns, n, depth)
  }

  function TableBlock(g: Outside, lines: seq<string>, depth: nat): (r: (Node, nat))
    requires |lines| > 1 && depth <= MAX_DEPTH
    ensures BlockAt(g, r.0, depth) && 0 < r.1 <= |lines|
  {
    var head, aligns := SplitRow(lines[0]), SplitRow(lines[1]);
    var n := CountRows(lines[2..]);
    var th := Row(g, Th, head, aligns, |head|, depth);
    var rows := Rows(g, lines[2..2 + n], aligns, |head|, depth);
    (Element(Table, map[], [Element(Thead, map[], [th]), Element(Tbody, map[], rows)]), 2 + n)
  }

  // ----- blocks -----

  function FenceBlock(g: Outside, lines: seq<string>, mark: (char, nat), depth: nat): (r: (Node, nat))
    requires |lines| > 0 && depth <= MAX_DEPTH
    ensures BlockAt(g, r.0, depth) && 0 < r.1 <= |lines|
  {
    var n := CountOpen(g, lines[1..], mark);
    (CodeBlock(lines[1..1 + n]), Min(n + 2, |lines|))
  }

  function HeadingBlock(g: Outside, level: Level, text: string, depth: nat): (x: Node)
    requires depth <= MAX_DEPTH
    ensures BlockAt(g, x, depth)
  {
    Element(H(level), map[], Inline(g, text, depth + 1))
  }

  function ParagraphBlock(g: Outside, lines: seq<string>, depth: nat): (r: (Node, nat))
    requires |lines| > 0 && depth <= MAX_DEPTH
    ensures BlockAt(g, r.0, depth) && 0 < r.1 <= |lines|
  {
    var p := Continued(g, lines[1..]);
    (Element(p.tag, map[], Inline(g, JoinLines(Stripped([lines[0]] + p.body)), depth + 1)), p.used + 1)
  }

  function Stripped(lines: seq<string>): seq<string> {
    if |lines| == 0 then [] else [DropBlanks(lines[0])] + Stripped(lines[1..])
  }

  predicate ItemLine(g: Outside, line: string, ordered: bool) {
    g.list(line).Some? && HasDigit(g.list(line).value.mark) == ordered
  }

  function ListItem(g: Outside, m: Item, c: ItemBody, depth: nat): (x: Node)
    requires depth < MAX_DEPTH
    ensures ItemAt(g, x, depth)
    decreases MAX_DEPTH - depth, 0, 0, 0
  {
    var blocks := Blocks(g, [m.text.GetOr("")] + c.body, depth + 1);
    UnwrapOk(g, blocks, depth + 1);
    Element(Li, map[], if c.tight then Unwrap(blocks) else blocks)
  }

  /** The items of one list, from the line that begins the first. */
  function Items(g: Outside, lines: seq<string>, ordered: bool, depth: nat): (r: (seq<Node>, nat))
    requires depth < MAX_DEPTH
    ensures r.1 <= |lines| && forall x :: x in r.0 ==> ItemAt(g, x, depth)
    ensures |lines| > 0 && ItemLine(g, lines[0], ordered) ==> r.1 > 0
    decreases MAX_DEPTH - depth, 0, 1, |lines|
  {
    if |lines| == 0 || !ItemLine(g, lines[0], ordered) then ([], 0)
    else
      var m := g.list(lines[0]).value;
      var c := Collect(g, lines[1..], Offset(m));
      var rest := Items(g, lines[1 + c.used..], ordered, depth);
      ([ListItem(g, m, c, depth)] + rest.0, 1 + c.used + rest.1)
  }

  function QuoteBlock(g: Outside, lines: seq<string>, depth: nat): (r: (Node, nat))
    requires |lines| > 0 && g.quote(lines[0]).Some? && depth < MAX_DEPTH
    ensures BlockAt(g, r.0, depth) && 0 < r.1 <= |lines|
    decreases MAX_DEPTH - depth, 0, 2, 0
  {
    var body := Quoted(g, lines);
    (Element(Blockquote, map[], Blocks(g, body, depth + 1)), |body|)
  }

  function ListBlock(g: Outside, lines: seq<string>, depth: nat): (r: (Node, nat))
    requires |lines| > 0 && g.list(lines[0]).Some? && depth < MAX_DEPTH
    ensures BlockAt(g, r.0, depth) && 0 < r.1 <= |lines|
    decreases MAX_DEPTH - depth, 0, 2, 0
  {
    var mark := g.list(lines[0]).value.mark;
    var items := Items(g, lines, HasDigit(mark), depth);
    (Element(if HasDigit(mark) then Ol else Ul, StartOf(mark), items.0), items.1)
  }

  function IndentedBlock(g: Outside, lines: seq<string>, depth: nat): (r: (Node, nat))
    requires |lines| > 0 && g.indented(lines[0]).Some? && depth <= MAX_DEPTH
    ensures BlockAt(g, r.0, depth) && 0 < r.1 <= |lines|
  {
    var body := Unindented(g, lines);
    (CodeBlock(DropLastBlank(body)), |body|)
  }

  /** The block a non-blank line begins, and how many lines it takes. */
  function Block(g: Outside, lines: seq<string>, depth: nat): (r: (Node, nat))
    requires |lines| > 0 && depth <= MAX_DEPTH
    ensures BlockAt(g, r.0, depth) && 0 < r.1 <= |lines|
    decreases MAX_DEPTH - depth, 1, 0, 0
  {
    var line := lines[0];
    if g.fence(line).Some? then FenceBlock(g, lines, g.fence(line).value, depth)
    else if g.atx(line).Some? then (HeadingBlock(g, g.atx(line).value.0, g.atx(line).value.1, depth), 1)
    else if g.hr(line) then (Element(Hr, map[], []), 1)
    else if g.quote(line).Some? && depth < MAX_DEPTH then
      QuoteBlock(g, lines, depth)
    else if g.list(line).Some? && depth < MAX_DEPTH then
      ListBlock(g, lines, depth)
    else if '|' in line && 1 < |lines| && g.tableSep(lines[1]) && '-' in lines[1] then TableBlock(g, lines, depth)
    else if g.indented(line).Some? then
      IndentedBlock(g, lines, depth)
    else ParagraphBlock(g, lines, depth)
  }

  function Blocks(g: Outside, lines: seq<string>, depth: nat): (r: seq<Node>)
    requires depth <= MAX_DEPTH
    ensures forall x :: x in r ==> BlockAt(g, x, depth)
    decreases MAX_DEPTH - depth, 2, 0, |lines|
  {
    if |lines| == 0 then []
    else if IsBlank(lines[0]) then Blocks(g, lines[1..], depth)
    else
      var b := Block(g, lines, depth);
      [b.0] + Blocks(g, lines[b.1..], depth)
  }

  lemma BlocksFrom(g: Outside, lines: seq<string>, i: nat, depth: nat)
    requires i < |lines| && depth <= MAX_DEPTH
    ensures Blocks(g, lines[i..], depth) ==
            if IsBlank(lines[i]) then Blocks(g, lines[i + 1..], depth)
            else var b := Block(g, lines[i..], depth); [b.0] + Blocks(g, lines[i + b.1..], depth)
  {
    var rest := lines[i..];
    if IsBlank(lines[i]) {
      assert rest[1..] == lines[i + 1..];
    } else {
      var n := Block(g, rest, depth).1;
      assert rest[n..] == lines[i + n..];
    }
  }

  /** One pass: the next block, or nothing for a blank line, and where to go on. */
  method NextBlock(g: Outside, lines: seq<string>, i: nat, depth: nat) returns (found: seq<Node>, next: nat)
    requires i < |lines| && depth <= MAX_DEPTH
    ensures i < next <= |lines|
    ensures Blocks(g, lines[i..], depth) == found + Blocks(g, lines[next..], depth)
  {
    BlocksFrom(g, lines, i, depth);
    if IsBlank(lines[i]) {
      found, next := [], i + 1;
      assert found + Blocks(g, lines[next..], depth) == Blocks(g, lines[next..], depth);
    } else {
      var b := Block(g, lines[i..], depth);
      found, next := [b.0], i + b.1;
    }
  }

  method ParseBlocks(g: Outside, lines: seq<string>, depth: nat) returns (out: seq<Node>)
    requires depth <= MAX_DEPTH
    ensures out == Blocks(g, lines, depth)
  {
    out := [];
    var i := 0;
    while i < |lines|
      invariant 0 <= i <= |lines| && out + Blocks(g, lines[i..], depth) == Blocks(g, lines, depth)
    {
      var found, next := NextBlock(g, lines, i, depth);
      Concat3(out, found, Blocks(g, lines[next..], depth));
      out, i := out + found, next;
    }
  }

  // ----- the whole text -----

  function SplitLines(s: string): (r: seq<string>)
    ensures |r| > 0
  {
    if |s| == 0 then [""]
    else if s[0] == '\n' then [""] + SplitLines(s[1..])
    else
      var rest := SplitLines(s[1..]);
      [[s[0]] + rest[0]] + rest[1..]
  }

  function ParseMarkdown(g: Outside, src: string): (r: seq<Node>)
    ensures forall x :: x in r ==> BlockAt(g, x, 0)
  {
    Blocks(g, SplitLines(Replace(LineEnds(src), '\0', "\U{FFFD}")), 0)
  }

  // ----- height, and links -----

  function Height(x: Node): nat
    decreases x
  {
    match x
    case Text(_) => 1
    case Element(_, _, kids) => 1 + Heights(kids)
  }

  function Heights(xs: seq<Node>): nat
    decreases xs
  {
    if |xs| == 0 then 0 else Max(Height(xs[0]), Heights(xs[1..]))
  }

  lemma {:induction false} HeightsBelow(xs: seq<Node>, h: nat)
    requires forall x :: x in xs ==> Height(x) <= h
    ensures Heights(xs) <= h
  {
    if |xs| > 0 { HeightsBelow(xs[1..], h); }
  }

  lemma {:induction false} InlineHeight(g: Outside, x: Node, depth: nat)
    requires InlineAt(g, x, depth) && depth <= MAX_DEPTH + 1
    ensures Height(x) <= MAX_DEPTH + 2 - depth
    decreases MAX_DEPTH + 1 - depth
  {
    if x.Element? {
      if x.tag == Code || x.tag == Span {
        assert x.kids == [x.kids[0]] && Heights(x.kids) == Max(Height(x.kids[0]), Heights(x.kids[1..]));
      } else if x.tag != Br {
        forall k | k in x.kids ensures Height(k) <= MAX_DEPTH + 1 - depth { InlineHeight(g, k, depth + 1); }
        HeightsBelow(x.kids, MAX_DEPTH + 1 - depth);
      }
    }
  }

  /** The text of a table's or a paragraph's inside. */
  lemma InlinesHeight(g: Outside, xs: seq<Node>, depth: nat)
    requires depth <= MAX_DEPTH + 1 && forall x :: x in xs ==> InlineAt(g, x, depth)
    ensures Heights(xs) <= MAX_DEPTH + 2 - depth
  {
    forall x | x in xs ensures Height(x) <= MAX_DEPTH + 2 - depth { InlineHeight(g, x, depth); }
    HeightsBelow(xs, MAX_DEPTH + 2 - depth);
  }

  lemma RowHeight(g: Outside, x: Node, cell: Tag, depth: nat)
    requires RowAt(g, x, cell, depth) && depth <= MAX_DEPTH + 1
    ensures Height(x) <= MAX_DEPTH + 4 - depth
  {
    forall k | k in x.kids ensures Height(k) <= MAX_DEPTH + 3 - depth { InlinesHeight(g, k.kids, depth); }
    HeightsBelow(x.kids, MAX_DEPTH + 3 - depth);
  }

  lemma One(x: Node)
    ensures Heights([x]) == Height(x)
  {
    assert [x][1..] == [];
  }

  lemma SectionHeight(g: Outside, x: Node, cell: Tag, depth: nat)
    requires x.Element? && depth <= MAX_DEPTH && forall k :: k in x.kids ==> RowAt(g, k, cell, depth + 1)
    ensures Height(x) <= MAX_DEPTH + 4 - depth
  {
    forall k | k in x.kids ensures Height(k) <= MAX_DEPTH + 3 - depth { RowHeight(g, k, cell, depth + 1); }
    HeightsBelow(x.kids, MAX_DEPTH + 3 - depth);
  }

  lemma TableHeight(g: Outside, x: Node, depth: nat)
    requires BlockAt(g, x, depth) && x.tag == Table
    ensures Height(x) <= MAX_DEPTH + 5 - depth
  {
    var head, body := x.kids[0], x.kids[1];
    assert head.kids == [head.kids[0]];
    SectionHeight(g, head, Th, depth);
    SectionHeight(g, body, Td, depth);
    assert x.kids == [head, body];
    HeightsBelow(x.kids, MAX_DEPTH + 4 - depth);
  }

  lemma CodeHeight(x: Node)
    requires x.Element? && |x.kids| == 1 && x.kids[0].Element? && OneText(x.kids[0].kids)
    ensures Height(x) == 3
  {
    var code := x.kids[0];
    assert x.kids == [code] && code.kids == [code.kids[0]];
    One(code);
    One(code.kids[0]);
  }

  /** Quotes and lists nest two levels at a time, so the height is bounded whatever the text says. */
  lemma {:induction false} BlockHeight(g: Outside, x: Node, depth: nat)
    requires BlockAt(g, x, depth)
    ensures Height(x) <= 2 * (MAX_DEPTH - depth) + 5
    decreases MAX_DEPTH - depth
  {
    var h := 2 * (MAX_DEPTH - depth) + 3;
    if x.tag.H? || x.tag == P {
      InlinesHeight(g, x.kids, depth + 1);
    } else if x.tag == Pre {
      CodeHeight(x);
    } else if x.tag == Table {
      TableHeight(g, x, depth);
    } else if x.tag == Blockquote {
      forall k | k in x.kids ensures Height(k) <= h { BlockHeight(g, k, depth + 1); }
      HeightsBelow(x.kids, h);
    } else if x.tag == Ul || x.tag == Ol {
      forall k | k in x.kids ensures Height(k) <= h + 1 {
        assert ItemAt(g, k, depth);
        forall b | b in k.kids ensures Height(b) <= h {
          if BlockAt(g, b, depth + 1) { BlockHeight(g, b, depth + 1); } else { InlineHeight(g, b, depth + 2); }
        }
        HeightsBelow(k.kids, h);
      }
      HeightsBelow(x.kids, h + 1);
    }
  }

  /** Every target anywhere in a tree is what the URL parser made of some text, with an allowed scheme. */
  ghost predicate LinksSafe(g: Outside, x: Node) {
    x.Element? ==>
      && (Href in x.attrs ==>
            x.tag == A && exists raw, protocol :: SafeScheme(protocol) && g.url(raw) == Some((protocol, x.attrs[Href])))
      && forall k :: k in x.kids ==> LinksSafe(g, k)
  }

  lemma {:induction false} InlineLinksSafe(g: Outside, x: Node, depth: nat)
    requires InlineAt(g, x, depth)
    ensures LinksSafe(g, x)
    decreases MAX_DEPTH + 1 - depth
  {
    if x.Element? {
      if x.tag == A {
        var raw :| SafeHref(g, raw) == Some(x.attrs[Href]);
        assert SafeScheme(g.url(Trim(raw)).value.0);
      }
      forall k | k in x.kids ensures LinksSafe(g, k) {
        if x.tag != Code && x.tag != Span { InlineLinksSafe(g, k, depth + 1); }
      }
    }
  }

  lemma RowLinksSafe(g: Outside, x: Node, cell: Tag, depth: nat)
    requires RowAt(g, x, cell, depth)
    ensures LinksSafe(g, x)
  {
    forall c | c in x.kids ensures LinksSafe(g, c) {
      forall k | k in c.kids ensures LinksSafe(g, k) { InlineLinksSafe(g, k, depth); }
    }
  }

  lemma {:induction false} BlockLinksSafe(g: Outside, x: Node, depth: nat)
    requires BlockAt(g, x, depth)
    ensures LinksSafe(g, x)
    decreases MAX_DEPTH - depth
  {
    if x.tag == Table {
      RowLinksSafe(g, x.kids[0].kids[0], Th, depth + 1);
      forall k | k in x.kids[1].kids ensures LinksSafe(g, k) { RowLinksSafe(g, k, Td, depth + 1); }
    } else if x.tag == Ul || x.tag == Ol {
      forall k | k in x.kids ensures LinksSafe(g, k) {
        assert ItemAt(g, k, depth);
        forall b | b in k.kids ensures LinksSafe(g, b) {
          if BlockAt(g, b, depth + 1) { BlockLinksSafe(g, b, depth + 1); } else { InlineLinksSafe(g, b, depth + 2); }
        }
      }
    } else if x.tag == Blockquote {
      forall k | k in x.kids ensures LinksSafe(g, k) { BlockLinksSafe(g, k, depth + 1); }
    } else if x.tag != Pre {
      forall k | k in x.kids ensures LinksSafe(g, k) { InlineLinksSafe(g, k, depth + 1); }
    }
  }

  /** Whatever the text: blocks of the closed language, no higher than 53, with no target but a safe one. */
  lemma ParsedIsSafe(g: Outside, src: string, x: Node)
    requires x in ParseMarkdown(g, src)
    ensures BlockAt(g, x, 0) && Height(x) <= 2 * MAX_DEPTH + 5 && LinksSafe(g, x)
  {
    BlockHeight(g, x, 0);
    BlockLinksSafe(g, x, 0);
  }
}
