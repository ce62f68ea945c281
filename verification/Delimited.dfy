/** CSV and TSV (`parseDelimited` of the preview; RFC 4180 quoting). */
module Delimited {
  import opened Basics

  type Row = seq<string>

  // ----- the format, one character at a time -----

  /** Quote: a quote was read inside quotes. Return: a row was ended by a carriage return. */
  datatype Mode = Plain | Quoted | Quote | Return

  datatype State = State(rows: seq<Row>, row: Row, field: string, mode: Mode)

  function EndRow(s: State, mode: Mode): State {
    State(s.rows + [s.row + [s.field]], [], "", mode)
  }

  function PlainChar(s: State, c: char, sep: char): State {
    if c == '"' && s.field == "" then s.(mode := Quoted)
    else if c == sep then s.(row := s.row + [s.field], field := "", mode := Plain)
    else if c == '\n' then EndRow(s, Plain)
    else if c == '\r' then EndRow(s, Return)
    else s.(field := s.field + [c], mode := Plain)
  }

  function Next(s: State, c: char, sep: char): State {
    match s.mode
    case Plain => PlainChar(s, c, sep)
    case Quoted => if c == '"' then s.(mode := Quote) else s.(field := s.field + [c])
    case Quote => if c == '"' then s.(field := s.field + ['"'], mode := Quoted) else PlainChar(s, c, sep)
    case Return => if c == '\n' then s.(mode := Plain) else PlainChar(s, c, sep)
  }

  function Run(s: State, t: string, sep: char): State
    decreases |t|
  {
    if |t| == 0 then s else Run(Next(s, t[0], sep), t[1..], sep)
  }

  /** A last row without a terminator counts when anything of it was read. */
  function Finish(s: State): seq<Row> {
    if s.field != "" || |s.row| > 0 || s.mode.Quoted? then s.rows + [s.row + [s.field]] else s.rows
  }

  const START := State([], [], "", Plain)

  /** All rows of a text. */
  function Rows(t: string, sep: char): seq<Row> {
    Finish(Run(START, t, sep))
  }

  // ----- facts about the automaton -----

  /** The rows read before do not matter for those that follow. */
  lemma {:induction false} EarlierRows(pre: seq<Row>, s: State, t: string, sep: char)
    ensures Run(s.(rows := pre + s.rows), t, sep) == Run(s, t, sep).(rows := pre + Run(s, t, sep).rows)
    decreases |t|
  {
    if |t| > 0 {
      var s' := Next(s, t[0], sep);
      assert pre + (s.rows + [s.row + [s.field]]) == pre + s.rows + [s.row + [s.field]];
      assert Next(s.(rows := pre + s.rows), t[0], sep) == s'.(rows := pre + s'.rows);
      EarlierRows(pre, s', t[1..], sep);
    }
  }

  lemma EarlierRowsFinish(pre: seq<Row>, t: string, sep: char)
    ensures Finish(Run(State(pre, [], "", Plain), t, sep)) == pre + Rows(t, sep)
  {
    assert pre + [] == pre;
    EarlierRows(pre, START, t, sep);
    var s := Run(START, t, sep);
    assert pre + (s.rows + [s.row + [s.field]]) == pre + s.rows + [s.row + [s.field]];
  }

  /** Behind a closing quote, or a carriage return that no line feed follows, reading goes on as plain. */
  lemma ClosedIsPlain(s: State, t: string, sep: char)
    requires s.mode.Quote? || s.mode.Return?
    requires |t| > 0 ==> t[0] != (if s.mode.Quote? then '"' else '\n')
    ensures Finish(Run(s, t, sep)) == Finish(Run(s.(mode := Plain), t, sep))
  {
  }

  /** Inside quotes everything up to the next quote is data. */
  lemma {:induction false} CopyQuoted(s: State, a: string, b: string, sep: char)
    requires s.mode.Quoted? && '"' !in a
    ensures Run(s, a + b, sep) == Run(s.(field := s.field + a), b, sep)
    decreases |a|
  {
    if |a| == 0 {
      assert a + b == b && s.field + a == s.field;
    } else {
      assert a[0] in a;
      assert (a + b)[1..] == a[1..] + b;
      CopyQuoted(s.(field := s.field + [a[0]]), a[1..], b, sep);
      assert s.field + [a[0]] + a[1..] == s.field + a;
    }
  }

  // ----- the scanner -----

  function Take(rows: seq<Row>, n: nat): seq<Row> { if |rows| <= n then rows else rows[..n] }

  /** Where the next quote is, or the end. */
  function NextQuote(t: string, i: nat): (r: nat)
    requires i <= |t|
    ensures i <= r <= |t| && '"' !in t[i..r] && (r < |t| ==> t[r] == '"')
    decreases |t| - i
  {
    if i == |t| || t[i] == '"' then i
    else
      var r := NextQuote(t, i + 1);
      assert t[i..r] == [t[i]] + t[i + 1..r];
      r
  }

  /** One pass of the loop: the state after it and how many characters it takes. */
  lemma PassKeeps(s: State, t: string, sep: char)
    requires |t| > 0 && (s.mode.Plain? || s.mode.Quoted?)
    ensures s.mode.Quoted? && t[0] == '"' && |t| > 1 && t[1] == '"' ==>
              Finish(Run(s, t, sep)) == Finish(Run(s.(field := s.field + ['"']), t[2..], sep))
    ensures s.mode.Quoted? && t[0] == '"' && !(|t| > 1 && t[1] == '"') ==>
              Finish(Run(s, t, sep)) == Finish(Run(s.(mode := Plain), t[1..], sep))
    ensures s.mode.Plain? && t[0] == '\r' && '\r' != sep ==>
              Finish(Run(s, t, sep)) ==
                Finish(Run(EndRow(s, Plain), t[if |t| > 1 && t[1] == '\n' then 2 else 1..], sep))
    ensures s.mode.Plain? && (t[0] != '\r' || '\r' == sep) ==>
              Finish(Run(s, t, sep)) == Finish(Run(PlainChar(s, t[0], sep), t[1..], sep))
  {
    if |t| > 1 {
      assert t[1..][0] == t[1] && t[1..][1..] == t[2..];
    }
    if s.mode.Quoted? && t[0] == '"' && !(|t| > 1 && t[1] == '"') {
      ClosedIsPlain(s.(mode := Quote), t[1..], sep);
    }
    if s.mode.Plain? && t[0] == '\r' && '\r' != sep && !(|t| > 1 && t[1] == '\n') {
      ClosedIsPlain(EndRow(s, Return), t[1..], sep);
    }
  }

  /**
   The first `maxRows` rows (at least one), and whether text is left. `rest` is the text left: the rows of the
   whole text are those given and those of `rest`.
   */
  method ParseDelimited(text: string, sep: char, maxRows: int) returns (rows: seq<Row>, more: bool, ghost rest: string)
    ensures Rows(text, sep) == rows + Rows(rest, sep)
    ensures more <==> rest != ""
    ensures rows == Take(Rows(text, sep), Max(1, maxRows))
    ensures !more ==> rows == Rows(text, sep)
  {
    var row, field, quoted, i := [], "", false, 0;
    var n := |text|;
    rows, rest := [], "";
    assert text[0..] == text;
    while i < n
      invariant 0 <= i <= n
      invariant Finish(Run(State(rows, row, field, if quoted then Quoted else Plain), text[i..], sep)) ==
                Rows(text, sep)
      invariant |rows| < Max(1, maxRows)
      decreases n - i
    {
      var c := text[i];
      ghost var s := State(rows, row, field, if quoted then Quoted else Plain);
      PassKeeps(s, text[i..], sep);
      Tails(text, i);
      if quoted {
        if c == '"' {
          if i + 1 < n && text[i + 1] == '"' {
            field := field + ['"'];
            i := i + 2;
          } else {
            quoted := false;
            i := i + 1;
          }
        } else {
          var end := NextQuote(text, i);
          assert text[i..] == text[i..end] + text[end..];
          CopyQuoted(s, text[i..end], text[end..], sep);
          field := field + text[i..end];
          i := end;
        }
      } else if c == '"' && field == "" {
        quoted := true;
        i := i + 1;
      } else if c == sep {
        row := row + [field];
        field := "";
        i := i + 1;
      } else if c == '\n' || c == '\r' {
        rows := rows + [row + [field]];
        row, field := [], "";
        i := i + if c == '\r' && i + 1 < n && text[i + 1] == '\n' then 2 else 1;
        if |rows| >= maxRows {
          rest := text[i..];
          more := i < n;
          EarlierRowsFinish(rows, rest, sep);
          return;
        }
      } else {
        field := field + [c];
        i := i + 1;
      }
    }
    assert text[i..] == "";
    if field != "" || |row| > 0 || quoted {
      rows := rows + [row + [field]];
    }
    more := false;
    assert rows + Rows("", sep) == rows;
  }

  lemma Tails(text: string, i: nat)
    requires i < |text|
    ensures |text[i..]| == |text| - i && text[i..][0] == text[i] && text[i..][1..] == text[i + 1..]
    ensures i + 1 < |text| ==> text[i..][1] == text[i + 1] && text[i..][2..] == text[i + 2..]
  {
  }

  lemma {:induction false} ContentStays(s: State, t: string, sep: char)
    requires s.rows != [] || s.row != [] || s.field != ""
    ensures Finish(Run(s, t, sep)) != []
    decreases |t|
  {
    if |t| > 0 {
      ContentStays(Next(s, t[0], sep), t[1..], sep);
    }
  }

  /**
   Text left over has no row exactly when it is one empty quoted field without a terminator: the only text that
   `more` announces for nothing.
   */
  lemma RestWithoutRows(rest: string, sep: char)
    requires rest != ""
    ensures Rows(rest, sep) == [] <==> rest == "\"\""
  {
    var s1, t1 := Next(START, rest[0], sep), rest[1..];
    var empty := "\"\"";
    assert |empty| == 2 && empty[0] == '"' && empty[1] == '"';
    assert Run(START, rest, sep) == Run(s1, t1, sep);
    if rest[0] != '"' {
      ContentStays(s1, t1, sep);
    } else if |rest| == 1 {
      assert t1 == "" && Run(s1, t1, sep) == s1;
    } else {
      var s2, t2 := Next(s1, t1[0], sep), t1[1..];
      assert t1[0] == rest[1];
      assert Run(s1, t1, sep) == Run(s2, t2, sep);
      if t1[0] != '"' {
        ContentStays(s2, t2, sep);
      } else if |rest| == 2 {
        assert t2 == "" && Run(s2, t2, sep) == s2;
        assert rest == [rest[0], rest[1]] == empty;
      } else {
        assert Run(s2, t2, sep) == Run(Next(s2, t2[0], sep), t2[1..], sep);
        ContentStays(Next(s2, t2[0], sep), t2[1..], sep);
      }
    }
  }

  // ----- printing -----

  /** A field as written: in quotes, or bare. */
  datatype Cell = Cell(text: string, bare: bool)

  function Doubled(f: string): string {
    if |f| == 0 then "" else (if f[0] == '"' then "\"\"" else [f[0]]) + Doubled(f[1..])
  }

  function CellText(c: Cell): string {
    if c.bare then c.text else "\"" + Doubled(c.text) + "\""
  }

  /** A bare field does not begin with a quote and has no separator or line end in it. */
  predicate Writable(c: Cell, sep: char) {
    c.bare ==>
      && (|c.text| > 0 ==> c.text[0] != '"')
      && forall i :: 0 <= i < |c.text| ==> c.text[i] != sep && c.text[i] != '\n' && c.text[i] != '\r'
  }

  /** The cells of a row, at least one, and the end of its line. */
  datatype Line = Line(cells: seq<Cell>, end: string)

  predicate WritableLine(l: Line, sep: char) {
    && |l.cells| > 0
    && (l.end == "\n" || l.end == "\r\n" || l.end == "\r")
    && forall i :: 0 <= i < |l.cells| ==> Writable(l.cells[i], sep)
  }

  function CellsText(cs: seq<Cell>, sep: char): string
    requires |cs| > 0
  {
    if |cs| == 1 then CellText(cs[0]) else CellText(cs[0]) + [sep] + CellsText(cs[1..], sep)
  }

  /** A line with nothing in it but a bare empty field and a line feed. */
  predicate Blank(l: Line) {
    |l.cells| == 1 && l.cells[0].bare && l.cells[0].text == "" && l.end == "\n"
  }

  /** No blank line after one ended by a lone carriage return: the two would read as one line end. */
  predicate WritableLines(ls: seq<Line>, sep: char) {
    |ls| == 0 ||
    (WritableLine(ls[0], sep) && WritableLines(ls[1..], sep) && (ls[0].end == "\r" && |ls| > 1 ==> !Blank(ls[1])))
  }

  lemma LineBegins(l: Line, sep: char)
    requires WritableLine(l, sep) && !Blank(l) && sep != '\n'
    ensures var t := CellsText(l.cells, sep) + l.end; |t| > 0 && t[0] != '\n'
  {
    var c := l.cells[0];
    if c.bare && c.text == "" {
      assert CellText(c) == "";
      if |l.cells| > 1 {
        assert CellsText(l.cells, sep) == "" + [sep] + CellsText(l.cells[1..], sep);
      }
    }
  }

  function Print(ls: seq<Line>, sep: char): string
    requires WritableLines(ls, sep)
  {
    if |ls| == 0 then "" else CellsText(ls[0].cells, sep) + ls[0].end + Print(ls[1..], sep)
  }

  function Texts(cs: seq<Cell>): (r: Row)
    ensures |r| == |cs|
  {
    seq(|cs|, i requires 0 <= i < |cs| => cs[i].text)
  }

  function Table(ls: seq<Line>): (r: seq<Row>)
    ensures |r| == |ls|
  {
    seq(|ls|, i requires 0 <= i < |ls| => Texts(ls[i].cells))
  }

  lemma {:induction false} ReadDoubled(s: State, f: string, rest: string, sep: char)
    requires s.mode.Quoted?
    ensures Run(s, Doubled(f) + rest, sep) == Run(s.(field := s.field + f), rest, sep)
    decreases |f|
  {
    if |f| == 0 {
      assert Doubled(f) + rest == rest && s.field + f == s.field;
    } else {
      var s' := s.(field := s.field + [f[0]]);
      ReadDoubled(s', f[1..], rest, sep);
      assert s'.field + f[1..] == s.field + f;
      DoubledLayout(f, rest);
      ReadOne(s, f[0], Doubled(f[1..]) + rest, sep);
    }
  }

  lemma DoubledLayout(f: string, rest: string)
    requires |f| > 0
    ensures Doubled(f) + rest == (if f[0] == '"' then "\"\"" else [f[0]]) + (Doubled(f[1..]) + rest)
  {
  }

  /** One character of a quoted field, a quote being two. */
  lemma ReadOne(s: State, c: char, more: string, sep: char)
    requires s.mode.Quoted?
    ensures Run(s, (if c == '"' then "\"\"" else [c]) + more, sep) == Run(s.(field := s.field + [c]), more, sep)
  {
    if c == '"' {
      assert ("\"\"" + more)[1..] == "\"" + more && ("\"" + more)[1..] == more;
    } else {
      assert ([c] + more)[1..] == more;
    }
  }

  lemma {:induction false} ReadBare(s: State, f: string, rest: string, sep: char)
    requires s.mode.Plain? && (s.field == "" && |f| > 0 ==> f[0] != '"')
    requires forall i :: 0 <= i < |f| ==> f[i] != sep && f[i] != '\n' && f[i] != '\r'
    ensures Run(s, f + rest, sep) == Run(s.(field := s.field + f), rest, sep)
    decreases |f|
  {
    if |f| == 0 {
      assert f + rest == rest && s.field + f == s.field;
    } else {
      assert (f + rest)[1..] == f[1..] + rest;
      var s' := s.(field := s.field + [f[0]]);
      ReadBare(s', f[1..], rest, sep);
      assert s'.field + f[1..] == s.field + f;
    }
  }

  /** A field ends where anything but a quote follows. */
  lemma ReadCell(s: State, c: Cell, rest: string, sep: char)
    requires s.mode.Plain? && s.field == "" && Writable(c, sep)
    requires |rest| > 0 && rest[0] != '"'
    ensures Run(s, CellText(c) + rest, sep) == Run(PlainChar(s.(field := c.text), rest[0], sep), rest[1..], sep)
  {
    assert "" + c.text == c.text;
    if c.bare {
      ReadBare(s, c.text, rest, sep);
      assert PlainChar(s.(field := c.text), rest[0], sep) == Next(s.(field := c.text), rest[0], sep);
    } else {
      var q := s.(mode := Quoted);
      assert CellText(c) + rest == "\"" + (Doubled(c.text) + ("\"" + rest));
      assert ("\"" + (Doubled(c.text) + ("\"" + rest)))[1..] == Doubled(c.text) + ("\"" + rest);
      ReadDoubled(q, c.text, "\"" + rest, sep);
      assert ("\"" + rest)[1..] == rest;
      var e := State(s.rows, s.row, c.text, Quote);
      assert Run(e, rest, sep) == Run(PlainChar(e, rest[0], sep), rest[1..], sep);
      assert PlainChar(e, rest[0], sep) == PlainChar(s.(field := c.text), rest[0], sep);
    }
  }

  function AfterCells(s: State, cs: seq<Cell>, c: char): State {
    State(s.rows + [s.row + Texts(cs)], [], "", if c == '\r' then Return else Plain)
  }

  lemma {:induction false} ReadCells(s: State, cs: seq<Cell>, rest: string, sep: char)
    requires s.mode.Plain? && s.field == "" && |cs| > 0 && forall i :: 0 <= i < |cs| ==> Writable(cs[i], sep)
    requires sep != '"' && sep != '\n' && sep != '\r'
    requires |rest| > 0 && (rest[0] == '\n' || rest[0] == '\r')
    ensures Run(s, CellsText(cs, sep) + rest, sep) == Run(AfterCells(s, cs, rest[0]), rest[1..], sep)
    decreases |cs|
  {
    var c := cs[0];
    if |cs| == 1 {
      ReadCell(s, c, rest, sep);
      assert Texts(cs) == [c.text];
      assert PlainChar(s.(field := c.text), rest[0], sep) == AfterCells(s, cs, rest[0]);
    } else {
      var s' := s.(row := s.row + [c.text]);
      CellsLayout(cs, rest, sep);
      ReadNotLast(s, c, CellsText(cs[1..], sep) + rest, sep);
      ReadCells(s', cs[1..], rest, sep);
      AfterMoreCells(s, cs, rest[0]);
    }
  }

  /** A field the separator follows. */
  lemma ReadNotLast(s: State, c: Cell, more: string, sep: char)
    requires s.mode.Plain? && s.field == "" && Writable(c, sep) && sep != '"' && sep != '\n' && sep != '\r'
    ensures Run(s, CellText(c) + ([sep] + more), sep) == Run(s.(row := s.row + [c.text]), more, sep)
  {
    ReadCell(s, c, [sep] + more, sep);
    assert ([sep] + more)[1..] == more;
    assert PlainChar(s.(field := c.text), sep, sep) == s.(row := s.row + [c.text]);
  }

  lemma AfterMoreCells(s: State, cs: seq<Cell>, c: char)
    requires |cs| > 0
    ensures AfterCells(s.(row := s.row + [cs[0].text]), cs[1..], c) == AfterCells(s, cs, c)
  {
    assert Texts(cs) == [cs[0].text] + Texts(cs[1..]);
    assert s.row + [cs[0].text] + Texts(cs[1..]) == s.row + Texts(cs);
  }

  lemma CellsLayout(cs: seq<Cell>, rest: string, sep: char)
    requires |cs| > 1
    ensures CellsText(cs, sep) + rest == CellText(cs[0]) + ([sep] + (CellsText(cs[1..], sep) + rest))
  {
  }

  /** Reading a printed table gives back the table, however its fields were quoted and its lines ended. */
  lemma {:induction false} ReadPrinted(ls: seq<Line>, sep: char)
    requires WritableLines(ls, sep) && sep != '"' && sep != '\n' && sep != '\r'
    ensures Rows(Print(ls, sep), sep) == Table(ls)
    decreases |ls|
  {
    if |ls| > 0 {
      var l, more := ls[0], Print(ls[1..], sep);
      ReadPrinted(ls[1..], sep);
      assert Print(ls, sep) == CellsText(l.cells, sep) + (l.end + more);
      ReadCells(START, l.cells, l.end + more, sep);
      var row := Texts(l.cells);
      assert [] + row == row;
      assert [] + [row] == [row];
      if |ls| > 1 && l.end == "\r" { LineBegins(ls[1], sep); }
      LineEnds([row], l.end, more, sep);
      EarlierRowsFinish([row], more, sep);
      assert [row] + Table(ls[1..]) == Table(ls);
    }
  }

  lemma LineEnds(rows: seq<Row>, end: string, more: string, sep: char)
    requires end == "\n" || end == "\r\n" || (end == "\r" && (|more| > 0 ==> more[0] != '\n'))
    ensures Finish(Run(State(rows, [], "", if end[0] == '\r' then Return else Plain), (end + more)[1..], sep)) ==
            Finish(Run(State(rows, [], "", Plain), more, sep))
  {
    if end == "\r\n" {
      assert (end + more)[1..] == "\n" + more && ("\n" + more)[1..] == more;
    } else {
      assert (end + more)[1..] == more;
      if end == "\r" { ClosedIsPlain(State(rows, [], "", Return), more, sep); }
    }
  }
}
