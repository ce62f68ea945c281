/**
 JSON printed again with two spaces of indentation, from its own tokens (`prettyJson` of the preview). Strings and
 numbers keep every character; only the whitespace between the tokens changes.
 */
module PrettyJson {
  import opened Basics
  import opened Texts

  // ----- JSON texts (RFC 8259) -----

  /** A value with the whitespace of one way to write it: `pre` before each part, `post` after. */
  datatype Json =
    | Atom(token: string)
    | Array(empty: string, items: seq<Item>)
    | Object(empty: string, members: seq<Member>)

  datatype Item = Item(pre: string, value: Json, post: string)

  datatype Member = Member(pre: string, name: string, mid: string, pre2: string, value: Json, post: string)

  predicate Ws(s: string) { forall i :: 0 <= i < |s| ==> IsWs(s[i]) }

  predicate Structural(c: char) {
    c == '{' || c == '}' || c == '[' || c == ']' || c == ',' || c == ':' || c == '"'
  }

  /** The rest of a string after its opening quote: escapes take the next character with them. */
  predicate StringRest(s: string) {
    |s| > 0 &&
    if s[0] == '"' then |s| == 1
    else if s[0] == '\\' then |s| > 1 && StringRest(s[2..])
    else StringRest(s[1..])
  }

  predicate IsString(t: string) { |t| > 0 && t[0] == '"' && StringRest(t[1..]) }

  /** A number, `true`, `false` or `null`: no whitespace, no structural character. */
  predicate IsLiteral(t: string) {
    |t| > 0 && forall i :: 0 <= i < |t| ==> !IsSpace(t[i]) && !Structural(t[i])
  }

  predicate WellFormed(j: Json) {
    match j
    case Atom(t) => IsString(t) || IsLiteral(t)
    case Array(e, items) =>
      Ws(e) && forall i :: 0 <= i < |items| ==> Ws(items[i].pre) && Ws(items[i].post) && WellFormed(items[i].value)
    case Object(e, ms) =>
      Ws(e) && forall i :: 0 <= i < |ms| ==>
        && Ws(ms[i].pre) && IsString(ms[i].name) && Ws(ms[i].mid)
        && Ws(ms[i].pre2) && WellFormed(ms[i].value) && Ws(ms[i].post)
  }

  /** The text. */
  function Text(j: Json): string {
    match j
    case Atom(t) => t
    case Array(e, items) => if |items| == 0 then "[" + e + "]" else "[" + ItemsText(items)
    case Object(e, ms) => if |ms| == 0 then "{" + e + "}" else "{" + MembersText(ms)
  }

  function ItemText(i: Item): string { i.pre + Text(i.value) + i.post }

  /** The items and the closing bracket. */
  function ItemsText(items: seq<Item>): string
    requires |items| > 0
  {
    ItemText(items[0]) + if |items| == 1 then "]" else "," + ItemsText(items[1..])
  }

  function MemberText(m: Member): string { m.pre + m.name + m.mid + ":" + m.pre2 + Text(m.value) + m.post }

  function MembersText(ms: seq<Member>): string
    requires |ms| > 0
  {
    MemberText(ms[0]) + if |ms| == 1 then "}" else "," + MembersText(ms[1..])
  }

  // ----- the one indented form -----

  function Indent(depth: nat): string {
    if depth == 0 then "" else "  " + Indent(depth - 1)
  }

  function Newline(depth: nat): string { "\n" + Indent(depth) }

  /** The same value, one token per place, written with the whitespace of the indented form at `depth`. */
  function Pretty(j: Json, depth: nat): Json
    decreases j
  {
    match j
    case Atom(t) => j
    case Array(_, items) => Array("", PrettyItems(items, depth + 1))
    case Object(_, ms) => Object("", PrettyMembers(ms, depth + 1))
  }

  function PrettyItems(items: seq<Item>, depth: nat): (r: seq<Item>)
    requires depth > 0
    ensures |r| == |items|
    decreases items
  {
    if |items| == 0 then []
    else
      [Item(Newline(depth), Pretty(items[0].value, depth), if |items| == 1 then Newline(depth - 1) else "")]
      + PrettyItems(items[1..], depth)
  }

  function PrettyMembers(ms: seq<Member>, depth: nat): (r: seq<Member>)
    requires depth > 0
    ensures |r| == |ms|
    decreases ms
  {
    if |ms| == 0 then []
    else
      var post := if |ms| == 1 then Newline(depth - 1) else "";
      [Member(Newline(depth), ms[0].name, "", " ", Pretty(ms[0].value, depth), post)]
      + PrettyMembers(ms[1..], depth)
  }

  // ----- the scanner -----

  /** Where a string's closing quote is, at or after `j`; past the end when there is none. */
  function StringEnd(t: string, j: nat): (r: nat)
    ensures j <= r
    decreases |t| - j
  {
    if j >= |t| || t[j] == '"' then j
    else if t[j] == '\\' then StringEnd(t, j + 2)
    else StringEnd(t, j + 1)
  }

  /** The first character at or after `j` that is no whitespace. */
  function SkipSpace(t: string, j: nat): (r: nat)
    requires j <= |t|
    ensures j <= r <= |t|
    decreases |t| - j
  {
    if j < |t| && IsSpace(t[j]) then SkipSpace(t, j + 1) else j
  }

  function Closing(c: char): char { if c == '{' then '}' else ']' }

  /** One pass: what it puts out, how many characters it takes, the depth after it. */
  datatype Pass = Pass(out: string, taken: nat, depth: int)

  function OnePass(t: string, depth: nat): (p: Pass)
    requires |t| > 0
    ensures 0 < p.taken <= |t|
  {
    var c := t[0];
    if c == '"' then
      var end := Min(|t|, StringEnd(t, 1) + 1);
      Pass(t[..end], end, depth)
    else if c == '{' || c == '[' then
      var j := SkipSpace(t, 1);
      if j < |t| && t[j] == Closing(c) then Pass([c, Closing(c)], j + 1, depth)
      else Pass([c] + Newline(depth + 1), 1, depth + 1)
    else if c == '}' || c == ']' then
      Pass(if depth == 0 then "" else Newline(depth - 1) + [c], 1, depth - 1)
    else if c == ',' then Pass("," + Newline(depth), 1, depth)
    else if c == ':' then Pass(": ", 1, depth)
    else if IsSpace(c) then Pass("", 1, depth)
    else Pass([c], 1, depth)
  }

  /** What the scan of the rest puts out; None when the depth would fall below 0 (an exception there). */
  function Scan(t: string, depth: nat): Option<string>
    decreases |t|
  {
    if |t| == 0 then Some("")
    else
      var p := OnePass(t, depth);
      if p.depth < 0 then None else Prepend(p.out, Scan(t[p.taken..], p.depth))
  }

  lemma PrependConcat(a: string, b: string, r: Option<string>)
    ensures Prepend(a, Prepend(b, r)) == Prepend(a + b, r)
    ensures Prepend("", r) == r
  {
    if r.Some? {
      assert a + (b + r.value) == a + b + r.value;
      assert "" + r.value == r.value;
    }
  }

  // ----- the scanner on tokens and whitespace -----

  lemma {:induction false} ScanWs(w: string, rest: string, depth: nat)
    requires Ws(w)
    ensures Scan(w + rest, depth) == Scan(rest, depth)
  {
    if |w| == 0 {
      assert w + rest == rest;
    } else {
      assert (w + rest)[1..] == w[1..] + rest;
      ScanWs(w[1..], rest, depth);
      assert OnePass(w + rest, depth) == Pass("", 1, depth);
      PrependConcat("", "", Scan(w[1..] + rest, depth));
    }
  }

  lemma {:induction false} ScanLiteral(t: string, rest: string, depth: nat)
    requires forall i :: 0 <= i < |t| ==> !IsSpace(t[i]) && !Structural(t[i])
    ensures Scan(t + rest, depth) == Prepend(t, Scan(rest, depth))
  {
    if |t| == 0 {
      assert t + rest == rest;
      PrependConcat("", "", Scan(rest, depth));
    } else {
      assert (t + rest)[1..] == t[1..] + rest;
      ScanLiteral(t[1..], rest, depth);
      PrependConcat([t[0]], t[1..], Scan(rest, depth));
      assert t == [t[0]] + t[1..];
    }
  }

  /** The closing quote is the string's last character, whatever follows. */
  lemma {:induction false} StringEndIsLast(t: string, rest: string, j: nat)
    requires j <= |t| && StringRest(t[j..])
    ensures StringEnd(t + rest, j) == |t| - 1
    decreases |t| - j
  {
    assert t[j..][0] == t[j] == (t + rest)[j];
    if t[j] == '"' {
    } else if t[j] == '\\' {
      assert t[j..][2..] == t[j + 2..];
      StringEndIsLast(t, rest, j + 2);
    } else {
      assert t[j..][1..] == t[j + 1..];
      StringEndIsLast(t, rest, j + 1);
    }
  }

  lemma ScanString(t: string, rest: string, depth: nat)
    requires IsString(t)
    ensures Scan(t + rest, depth) == Prepend(t, Scan(rest, depth))
  {
    StringEndIsLast(t, rest, 1);
    assert (t + rest)[..|t|] == t && (t + rest)[|t|..] == rest;
  }

  lemma {:induction false} SkipWs(a: string, w: string, rest: string)
    requires Ws(w) && |rest| > 0 && !IsSpace(rest[0])
    ensures SkipSpace(a + w + rest, |a|) == |a| + |w|
    decreases |w|
  {
    var t := a + w + rest;
    if |w| == 0 {
      assert t[|a|] == rest[0];
    } else {
      assert t[|a|] == w[0];
      assert (a + [w[0]]) + w[1..] + rest == t;
      SkipWs(a + [w[0]], w[1..], rest);
    }
  }

  /** A value's text begins with a quote, a bracket or a literal's character. */
  lemma TextBegins(j: Json)
    requires WellFormed(j)
    ensures |Text(j)| > 0 && !IsSpace(Text(j)[0]) && Text(j)[0] != '}' && Text(j)[0] != ']'
  {
  }

  /** After an opening bracket comes a part that does not begin with the closing one. */
  lemma ScanOpen(c: char, pre: string, part: string, depth: nat)
    requires (c == '{' || c == '[') && Ws(pre)
    requires |part| > 0 && !IsSpace(part[0]) && part[0] != Closing(c)
    ensures Scan([c] + pre + part, depth) == Prepend([c] + Newline(depth + 1), Scan(pre + part, depth + 1))
  {
    var t := [c] + pre + part;
    SkipWs([c], pre, part);
    AfterFirst(c, pre, part);
    assert SkipSpace(t, 1) == 1 + |pre|;
    assert t[1 + |pre|] == part[0];
    assert OnePass(t, depth) == Pass([c] + Newline(depth + 1), 1, depth + 1);
  }

  lemma AfterFirst(c: char, a: string, b: string)
    ensures ([c] + a + b)[1..] == a + b && ([c] + a + b)[0] == c
  {
  }

  lemma ScanEmpty(c: char, e: string, rest: string, depth: nat)
    requires (c == '{' || c == '[') && Ws(e)
    ensures Scan([c] + e + [Closing(c)] + rest, depth) == Prepend([c, Closing(c)], Scan(rest, depth))
  {
    var t := [c] + e + ([Closing(c)] + rest);
    SkipWs([c], e, [Closing(c)] + rest);
    assert t == [c] + e + [Closing(c)] + rest;
    assert t[1 + |e|] == Closing(c);
    assert t[1 + |e| + 1..] == rest;
  }

  lemma ScanChar(c: char, rest: string, depth: nat)
    ensures c == ',' ==> Scan([c] + rest, depth) == Prepend("," + Newline(depth), Scan(rest, depth))
    ensures c == ':' ==> Scan([c] + rest, depth) == Prepend(": ", Scan(rest, depth))
    ensures (c == '}' || c == ']') && depth > 0 ==>
            Scan([c] + rest, depth) == Prepend(Newline(depth - 1) + [c], Scan(rest, depth - 1))
  {
    assert ([c] + rest)[1..] == rest;
  }

  // ----- the scanner on values -----

  /** The scanner turns any way to write a value into the indented form. */
  lemma {:induction false} ScanValue(j: Json, rest: string, depth: nat)
    requires WellFormed(j)
    ensures Scan(Text(j) + rest, depth) == Prepend(Text(Pretty(j, depth)), Scan(rest, depth))
    decreases j
  {
    match j
    case Atom(t) =>
      if IsString(t) { ScanString(t, rest, depth); } else { ScanLiteral(t, rest, depth); }
    case Array(e, items) => ScanArray(e, items, rest, depth);
    case Object(e, ms) => ScanObject(e, ms, rest, depth);
  }

  lemma {:induction false} ScanArray(e: string, items: seq<Item>, rest: string, depth: nat)
    requires Ws(e) && ItemsOk(items)
    ensures Scan(Text(Array(e, items)) + rest, depth) ==
            Prepend(Text(Pretty(Array(e, items), depth)), Scan(rest, depth))
    decreases items, 1
  {
    if |items| == 0 {
      ScanEmpty('[', e, rest, depth);
      assert Text(Pretty(Array(e, items), depth)) == "[]";
    } else {
      ScanItems(items, rest, depth + 1);
      var part := ItemsBegin(items);
      var pre := items[0].pre;
      ScanOpen('[', pre, part + rest, depth);
      Concat3(pre, part, rest);
      Concat3("[", ItemsText(items), rest);
      Concat3("[", pre, part + rest);
      Bracketed('[', Newline(depth + 1), ItemsText(PrettyItems(items, depth + 1)),
        Scan(ItemsText(items) + rest, depth + 1), Scan(rest, depth));
    }
  }

  lemma {:induction false} ScanObject(e: string, ms: seq<Member>, rest: string, depth: nat)
    requires Ws(e) && MembersOk(ms)
    ensures Scan(Text(Object(e, ms)) + rest, depth) == Prepend(Text(Pretty(Object(e, ms), depth)), Scan(rest, depth))
    decreases ms, 1
  {
    if |ms| == 0 {
      ScanEmpty('{', e, rest, depth);
      assert Text(Pretty(Object(e, ms), depth)) == "{}";
    } else {
      ScanMembers(ms, rest, depth + 1);
      var part := MembersBegin(ms);
      var pre := ms[0].pre;
      ScanOpen('{', pre, part + rest, depth);
      Concat3(pre, part, rest);
      Concat3("{", MembersText(ms), rest);
      Concat3("{", pre, part + rest);
      Bracketed('{', Newline(depth + 1), MembersText(PrettyMembers(ms, depth + 1)),
        Scan(MembersText(ms) + rest, depth + 1), Scan(rest, depth));
    }
  }

  /** Puts the opening bracket before what follows it. */
  lemma Bracketed(c: char, line: string, pretty: string, inner: Option<string>, rest: Option<string>)
    requires Prepend(line, inner) == Prepend(pretty, rest)
    ensures Prepend([c] + line, inner) == Prepend([c] + pretty, rest)
  {
    PrependConcat([c], line, inner);
    PrependConcat([c], pretty, rest);
  }

  ghost predicate ItemsOk(items: seq<Item>) {
    forall i :: 0 <= i < |items| ==> Ws(items[i].pre) && Ws(items[i].post) && WellFormed(items[i].value)
  }

  ghost predicate MembersOk(ms: seq<Member>) {
    forall i :: 0 <= i < |ms| ==>
      && Ws(ms[i].pre) && IsString(ms[i].name) && Ws(ms[i].mid)
      && Ws(ms[i].pre2) && WellFormed(ms[i].value) && Ws(ms[i].post)
  }

  lemma ItemsBegin(items: seq<Item>) returns (part: string)
    requires ItemsOk(items) && |items| > 0
    ensures ItemsText(items) == items[0].pre + part
    ensures |part| > 0 && !IsSpace(part[0]) && part[0] != ']'
  {
    TextBegins(items[0].value);
    part := Text(items[0].value) + items[0].post + if |items| == 1 then "]" else "," + ItemsText(items[1..]);
    assert part[0] == Text(items[0].value)[0];
  }

  lemma MembersBegin(ms: seq<Member>) returns (part: string)
    requires MembersOk(ms) && |ms| > 0
    ensures MembersText(ms) == ms[0].pre + part
    ensures |part| > 0 && !IsSpace(part[0]) && part[0] != '}'
  {
    var m := ms[0];
    part := m.name + m.mid + ":" + m.pre2 + Text(m.value) + m.post
            + if |ms| == 1 then "}" else "," + MembersText(ms[1..]);
    assert part[0] == m.name[0];
  }

  lemma {:induction false} ScanItems(items: seq<Item>, rest: string, depth: nat)
    requires ItemsOk(items) && |items| > 0 && depth > 0
    ensures Prepend(Newline(depth), Scan(ItemsText(items) + rest, depth)) ==
            Prepend(ItemsText(PrettyItems(items, depth)), Scan(rest, depth - 1))
    decreases items, 0
  {
    var i := items[0];
    var v := Text(Pretty(i.value, depth));
    if |items| == 1 {
      assert ItemsText(items) + rest == ItemText(i) + ("]" + rest);
      ScanItem(i, "]" + rest, depth);
      ScanChar(']', rest, depth);
      PrependConcat(v, Newline(depth - 1) + "]", Scan(rest, depth - 1));
      PrependConcat(Newline(depth), v + (Newline(depth - 1) + "]"), Scan(rest, depth - 1));
      assert PrettyItems(items, depth) == [Item(Newline(depth), Pretty(i.value, depth), Newline(depth - 1))];
      Concat3(Newline(depth) + v, Newline(depth - 1), "]");
      Concat3(Newline(depth), v, Newline(depth - 1) + "]");
    } else {
      var inner := ItemsText(items[1..]) + rest;
      assert ItemsText(items) + rest == ItemText(i) + ("," + inner);
      ScanItem(i, "," + inner, depth);
      ScanChar(',', inner, depth);
      ScanItems(items[1..], rest, depth);
      var more := ItemsText(PrettyItems(items[1..], depth));
      PrependConcat(",", Newline(depth), Scan(inner, depth));
      PrependConcat(",", more, Scan(rest, depth - 1));
      PrependConcat(v, "," + more, Scan(rest, depth - 1));
      PrependConcat(Newline(depth), v + ("," + more), Scan(rest, depth - 1));
      MoreItems(items, depth);
    }
  }

  lemma MoreItems(items: seq<Item>, depth: nat)
    requires |items| > 1 && depth > 0
    ensures ItemsText(PrettyItems(items, depth)) ==
            Newline(depth) + (Text(Pretty(items[0].value, depth)) + ("," + ItemsText(PrettyItems(items[1..], depth))))
  {
    var p, v := PrettyItems(items, depth), Pretty(items[0].value, depth);
    assert p[0] == Item(Newline(depth), v, "") && p[1..] == PrettyItems(items[1..], depth);
    var more := "," + ItemsText(p[1..]);
    assert ItemText(p[0]) == Newline(depth) + Text(v);
    assert ItemsText(p) == ItemText(p[0]) + more;
    Concat3(Newline(depth), Text(v), more);
  }

  lemma {:induction false} ScanItem(i: Item, rest: string, depth: nat)
    requires Ws(i.pre) && WellFormed(i.value) && Ws(i.post)
    ensures Scan(ItemText(i) + rest, depth) == Prepend(Text(Pretty(i.value, depth)), Scan(rest, depth))
    decreases i
  {
    assert ItemText(i) + rest == i.pre + (Text(i.value) + (i.post + rest));
    ScanWs(i.pre, Text(i.value) + (i.post + rest), depth);
    ScanValue(i.value, i.post + rest, depth);
    ScanWs(i.post, rest, depth);
  }

  lemma {:induction false} ScanMembers(ms: seq<Member>, rest: string, depth: nat)
    requires MembersOk(ms) && |ms| > 0 && depth > 0
    ensures Prepend(Newline(depth), Scan(MembersText(ms) + rest, depth)) ==
            Prepend(MembersText(PrettyMembers(ms, depth)), Scan(rest, depth - 1))
    decreases ms, 0
  {
    if |ms| == 1 {
      ScanMember(ms[0], "}" + rest, depth);
      ScanLastMember(ms[0], rest, depth);
      assert ms == [ms[0]];
    } else {
      var inner := MembersText(ms[1..]) + rest;
      ScanMember(ms[0], "," + inner, depth);
      ScanMembers(ms[1..], rest, depth);
      ScanMoreMembers(ms, rest, depth);
    }
  }

  function MemberHead(m: Member, depth: nat): string {
    m.name + ": " + Text(Pretty(m.value, depth))
  }

  lemma ScanLastMember(m: Member, rest: string, depth: nat)
    requires depth > 0
    requires Scan(MemberText(m) + ("}" + rest), depth) == Prepend(MemberHead(m, depth), Scan("}" + rest, depth))
    ensures Prepend(Newline(depth), Scan(MembersText([m]) + rest, depth)) ==
            Prepend(MembersText(PrettyMembers([m], depth)), Scan(rest, depth - 1))
  {
    var head := MemberHead(m, depth);
    Concat3(MemberText(m), "}", rest);
    ScanChar('}', rest, depth);
    LastMember(m, depth);
    PrependConcat(head, Newline(depth - 1) + "}", Scan(rest, depth - 1));
    PrependConcat(Newline(depth), head + (Newline(depth - 1) + "}"), Scan(rest, depth - 1));
  }

  lemma MoreLayout(ms: seq<Member>, rest: string)
    requires |ms| > 1
    ensures MembersText(ms) + rest == MemberText(ms[0]) + ("," + (MembersText(ms[1..]) + rest))
  {
    var a, b := MemberText(ms[0]), MembersText(ms[1..]);
    Concat3(a, "," + b, rest);
    Concat3(",", b, rest);
  }

  lemma ScanMoreMembers(ms: seq<Member>, rest: string, depth: nat)
    requires |ms| > 1 && depth > 0
    requires var inner := MembersText(ms[1..]) + rest;
             && Scan(MemberText(ms[0]) + ("," + inner), depth) ==
               Prepend(MemberHead(ms[0], depth), Scan("," + inner, depth))
             && Prepend(Newline(depth), Scan(inner, depth)) ==
                Prepend(MembersText(PrettyMembers(ms[1..], depth)), Scan(rest, depth - 1))
    ensures Prepend(Newline(depth), Scan(MembersText(ms) + rest, depth)) ==
            Prepend(MembersText(PrettyMembers(ms, depth)), Scan(rest, depth - 1))
  {
    var inner := MembersText(ms[1..]) + rest;
    var head := MemberHead(ms[0], depth);
    var more := MembersText(PrettyMembers(ms[1..], depth));
    MoreLayout(ms, rest);
    ScanChar(',', inner, depth);
    PrependConcat(",", Newline(depth), Scan(inner, depth));
    PrependConcat(",", more, Scan(rest, depth - 1));
    PrependConcat(head, "," + more, Scan(rest, depth - 1));
    PrependConcat(Newline(depth), head + ("," + more), Scan(rest, depth - 1));
    MoreMembers(ms, depth);
  }

  lemma PrettyMemberText(pre: string, name: string, v: Json, post: string)
    ensures MemberText(Member(pre, name, "", " ", v, post)) == pre + (name + ": " + Text(v)) + post
  {
    var m := Member(pre, name, "", " ", v, post);
    assert m.mid + ":" + m.pre2 == ": ";
    assert name + "" == name;
  }

  lemma LastMember(m: Member, depth: nat)
    requires depth > 0
    ensures MembersText(PrettyMembers([m], depth)) ==
            Newline(depth) + (m.name + ": " + Text(Pretty(m.value, depth)) + (Newline(depth - 1) + "}"))
  {
    var v := Pretty(m.value, depth);
    var p := Member(Newline(depth), m.name, "", " ", v, Newline(depth - 1));
    assert PrettyMembers([m], depth) == [p];
    PrettyMemberText(Newline(depth), m.name, v, Newline(depth - 1));
    var head := m.name + ": " + Text(v);
    Concat3(Newline(depth) + head, Newline(depth - 1), "}");
    Concat3(Newline(depth), head, Newline(depth - 1) + "}");
  }

  lemma MoreMembers(ms: seq<Member>, depth: nat)
    requires |ms| > 1 && depth > 0
    ensures MembersText(PrettyMembers(ms, depth)) ==
            Newline(depth)
            + (ms[0].name + ": " + Text(Pretty(ms[0].value, depth))
               + ("," + MembersText(PrettyMembers(ms[1..], depth))))
  {
    var m, p, v := ms[0], PrettyMembers(ms, depth), Pretty(ms[0].value, depth);
    assert p[0] == Member(Newline(depth), m.name, "", " ", v, "") && p[1..] == PrettyMembers(ms[1..], depth);
    PrettyMemberText(Newline(depth), m.name, v, "");
    var head, more := m.name + ": " + Text(v), "," + MembersText(p[1..]);
    assert MembersText(p) == MemberText(p[0]) + more;
    assert Newline(depth) + head + "" == Newline(depth) + head;
    Concat3(Newline(depth), head, more);
  }

  lemma MemberLayout(m: Member, rest: string)
    ensures MemberText(m) + rest == m.pre + (m.name + (m.mid + (":" + (m.pre2 + (Text(m.value) + (m.post + rest))))))
  {
    var v := Text(m.value);
    assert MemberText(m) == m.pre + m.name + m.mid + ":" + m.pre2 + v + m.post;
  }

  /** A name, the colon and the value. */
  lemma {:induction false} ScanMember(m: Member, rest: string, depth: nat)
    requires Ws(m.pre) && IsString(m.name) && Ws(m.mid) && Ws(m.pre2) && WellFormed(m.value) && Ws(m.post)
    ensures Scan(MemberText(m) + rest, depth) == Prepend(MemberHead(m, depth), Scan(rest, depth))
    decreases m
  {
    var r4 := m.post + rest;
    var r3 := m.pre2 + (Text(m.value) + r4);
    var r2 := m.mid + (":" + r3);
    MemberLayout(m, rest);
    ScanWs(m.pre, m.name + r2, depth);
    ScanString(m.name, r2, depth);
    ScanWs(m.mid, ":" + r3, depth);
    ScanChar(':', r3, depth);
    ScanWs(m.pre2, Text(m.value) + r4, depth);
    ScanValue(m.value, r4, depth);
    ScanWs(m.post, rest, depth);
    var v := Text(Pretty(m.value, depth));
    PrependConcat(": ", v, Scan(rest, depth));
    PrependConcat(m.name, ": " + v, Scan(rest, depth));
    assert m.name + (": " + v) == m.name + ": " + v;
  }

  // ----- what the indented form is -----

  /** The value without the whitespace of its text. */
  function Bare(j: Json): Json
    decreases j
  {
    match j
    case Atom(t) => j
    case Array(_, items) => Array("", BareItems(items))
    case Object(_, ms) => Object("", BareMembers(ms))
  }

  function BareItems(items: seq<Item>): (r: seq<Item>)
    ensures |r| == |items|
    decreases items
  {
    if |items| == 0 then [] else [Item("", Bare(items[0].value), "")] + BareItems(items[1..])
  }

  function BareMembers(ms: seq<Member>): (r: seq<Member>)
    ensures |r| == |ms|
    decreases ms
  {
    if |ms| == 0 then [] else [Member("", ms[0].name, "", "", Bare(ms[0].value), "")] + BareMembers(ms[1..])
  }

  lemma {:induction false} IndentIsWs(depth: nat)
    ensures Ws(Indent(depth)) && Ws(Newline(depth))
  {
    if depth > 0 { IndentIsWs(depth - 1); }
  }

  /** The indented form is JSON of the same value: every string and number as it was. */
  lemma {:induction false} PrettySameValue(j: Json, depth: nat)
    requires WellFormed(j)
    ensures WellFormed(Pretty(j, depth)) && Bare(Pretty(j, depth)) == Bare(j)
    decreases j
  {
    match j
    case Atom(t) =>
    case Array(_, items) => PrettySameItems(items, depth + 1);
    case Object(_, ms) => PrettySameMembers(ms, depth + 1);
  }

  lemma {:induction false} PrettySameItems(items: seq<Item>, depth: nat)
    requires ItemsOk(items) && depth > 0
    ensures ItemsOk(PrettyItems(items, depth)) && BareItems(PrettyItems(items, depth)) == BareItems(items)
    decreases items
  {
    if |items| > 0 {
      var p := PrettyItems(items, depth);
      assert p[1..] == PrettyItems(items[1..], depth);
      PrettySameValue(items[0].value, depth);
      PrettySameItems(items[1..], depth);
      IndentIsWs(depth);
      IndentIsWs(depth - 1);
      forall i | 0 <= i < |p| ensures Ws(p[i].pre) && Ws(p[i].post) && WellFormed(p[i].value) {
        if i > 0 { assert p[i] == p[1..][i - 1]; }
      }
    }
  }

  lemma {:induction false} PrettySameMembers(ms: seq<Member>, depth: nat)
    requires MembersOk(ms) && depth > 0
    ensures MembersOk(PrettyMembers(ms, depth)) && BareMembers(PrettyMembers(ms, depth)) == BareMembers(ms)
    decreases ms
  {
    if |ms| > 0 {
      var p := PrettyMembers(ms, depth);
      assert p[1..] == PrettyMembers(ms[1..], depth);
      PrettySameValue(ms[0].value, depth);
      PrettySameMembers(ms[1..], depth);
      IndentIsWs(depth);
      IndentIsWs(depth - 1);
      forall i | 0 <= i < |p|
        ensures Ws(p[i].pre) && IsString(p[i].name) && Ws(p[i].mid)
        ensures Ws(p[i].pre2) && WellFormed(p[i].value) && Ws(p[i].post)
      {
        if i > 0 { assert p[i] == p[1..][i - 1]; }
      }
    }
  }

  /** It depends on the value only, not on how it was written. */
  lemma {:induction false} PrettyOfBare(j: Json, depth: nat)
    ensures Pretty(Bare(j), depth) == Pretty(j, depth)
    decreases j
  {
    match j
    case Atom(t) =>
    case Array(_, items) => PrettyOfBareItems(items, depth + 1);
    case Object(_, ms) => PrettyOfBareMembers(ms, depth + 1);
  }

  lemma {:induction false} PrettyOfBareItems(items: seq<Item>, depth: nat)
    requires depth > 0
    ensures PrettyItems(BareItems(items), depth) == PrettyItems(items, depth)
    decreases items
  {
    if |items| > 0 {
      assert BareItems(items)[1..] == BareItems(items[1..]);
      PrettyOfBare(items[0].value, depth);
      PrettyOfBareItems(items[1..], depth);
    }
  }

  lemma {:induction false} PrettyOfBareMembers(ms: seq<Member>, depth: nat)
    requires depth > 0
    ensures PrettyMembers(BareMembers(ms), depth) == PrettyMembers(ms, depth)
    decreases ms
  {
    if |ms| > 0 {
      assert BareMembers(ms)[1..] == BareMembers(ms[1..]);
      PrettyOfBare(ms[0].value, depth);
      PrettyOfBareMembers(ms[1..], depth);
    }
  }

  // ----- the whole text -----

  /** One value with whitespace around it. */
  ghost predicate Writes(text: string, pre: string, j: Json, post: string) {
    WellFormed(j) && Ws(pre) && Ws(post) && text == pre + Text(j) + post
  }

  ghost predicate IsJson(text: string) {
    exists pre, j, post :: Writes(text, pre, j, post)
  }

  /** The output for any text of a value is its one indented form; the depth never falls below 0. */
  lemma ScanIsPretty(text: string, pre: string, j: Json, post: string)
    requires Writes(text, pre, j, post)
    ensures Scan(text, 0) == Some(Text(Pretty(j, 0)))
  {
    assert text == pre + (Text(j) + post);
    ScanWs(pre, Text(j) + post, 0);
    ScanValue(j, post, 0);
    assert post + "" == post;
    ScanWs(post, "", 0);
    assert Text(Pretty(j, 0)) + "" == Text(Pretty(j, 0));
  }

  /** Two texts of the same value print the same. */
  lemma SameValueSameOutput(t1: string, pre1: string, j1: Json, post1: string, t2: string, pre2: string, j2: Json,
      post2: string)
    requires Writes(t1, pre1, j1, post1) && Writes(t2, pre2, j2, post2) && Bare(j1) == Bare(j2)
    ensures Scan(t1, 0) == Scan(t2, 0)
  {
    ScanIsPretty(t1, pre1, j1, post1);
    ScanIsPretty(t2, pre2, j2, post2);
    PrettyOfBare(j1, 0);
    PrettyOfBare(j2, 0);
  }

  /** Printing again changes nothing: the output is JSON, and its own output. */
  lemma PrintingTwiceIsOnce(text: string)
    requires IsJson(text)
    ensures Scan(text, 0).Some?
    ensures IsJson(Scan(text, 0).value) && Scan(Scan(text, 0).value, 0) == Scan(text, 0)
  {
    var pre, j, post :| Writes(text, pre, j, post);
    ScanIsPretty(text, pre, j, post);
    var p := Pretty(j, 0);
    PrettySameValue(j, 0);
    assert "" + Text(p) + "" == Text(p);
    assert Writes(Text(p), "", p, "");
    ScanIsPretty(Text(p), "", p, "");
    PrettyOfBare(j, 0);
    PrettyOfBare(p, 0);
  }

  // ----- the loop -----

  /** One pass of the loop, at `text[i]`. */
  method TakeOne(text: string, i: nat, depth: nat) returns (p: Pass)
    requires i < |text|
    ensures p == OnePass(text[i..], depth)
  {
    var n, c := |text|, text[i];
    ghost var t := text[i..];
    if c == '"' {
      var j := i + 1;
      while j < n && text[j] != '"'
        invariant i < j
        invariant StringEnd(t, 1) == StringEnd(t, j - i)
        decreases n - j
      {
        j := j + if text[j] == '\\' then 2 else 1;
      }
      assert text[i..Min(n, j + 1)] == t[..Min(|t|, j + 1 - i)];
      p := Pass(text[i..Min(n, j + 1)], Min(n, j + 1) - i, depth);
    } else if c == '{' || c == '[' {
      var j := i + 1;
      while j < n && IsSpace(text[j])
        invariant i < j <= n
        invariant SkipSpace(t, 1) == SkipSpace(t, j - i)
      {
        j := j + 1;
      }
      p := if j < n && text[j] == Closing(c) then Pass([c, Closing(c)], j + 1 - i, depth)
           else Pass([c] + Newline(depth + 1), 1, depth + 1);
    } else if c == '}' || c == ']' {
      p := Pass(if depth == 0 then "" else Newline(depth - 1) + [c], 1, depth - 1);
    } else {
      var out := if c == ',' then "," + Newline(depth) else if c == ':' then ": " else if IsSpace(c) then "" else [c];
      p := Pass(out, 1, depth);
    }
  }

  /** None when the text does not parse. `parses`: what JSON.parse says; it takes no text that is not of this form. */
  method PrettyJson(text: string, parses: bool) returns (r: Option<string>)
    requires parses ==> IsJson(text)
    ensures r.Some? <==> parses
    ensures parses ==> forall pre, j, post :: Writes(text, pre, j, post) ==> r == Some(Text(Pretty(j, 0)))
  {
    if !parses {
      return None;
    }
    PrintingTwiceIsOnce(text);
    var out := ScanLoop(text);
    r := Some(out);
    forall pre, j, post | Writes(text, pre, j, post) ensures r == Some(Text(Pretty(j, 0))) {
      ScanIsPretty(text, pre, j, post);
    }
  }

  lemma LoopStep(out: string, text: string, i: nat, depth: nat, p: Pass)
    requires i < |text| && p == OnePass(text[i..], depth) && Scan(text[i..], depth).Some?
    ensures 0 < p.taken <= |text| - i && p.depth >= 0
    ensures Prepend(out + p.out, Scan(text[i + p.taken..], p.depth)) == Prepend(out, Scan(text[i..], depth))
  {
    assert text[i..][p.taken..] == text[i + p.taken..];
    PrependConcat(out, p.out, Scan(text[i + p.taken..], p.depth));
  }

  /** What was put out, followed by the scan of the rest, is the scan of the whole. */
  ghost predicate Underway(text: string, i: nat, depth: nat, out: string) {
    i <= |text| && Prepend(out, Scan(text[i..], depth)) == Scan(text, 0)
  }

  /** One pass; the depth stays a natural number. */
  method Advance(text: string, i: nat, depth: nat, out: string) returns (i': nat, depth': nat, out': string)
    requires i < |text| && Underway(text, i, depth, out) && Scan(text, 0).Some?
    ensures i < i' && Underway(text, i', depth', out')
  {
    var p := TakeOne(text, i, depth);
    LoopStep(out, text, i, depth, p);
    i', depth', out' := i + p.taken, p.depth, out + p.out;
  }

  lemma ScanBegins(text: string)
    ensures Underway(text, 0, 0, "")
  {
    assert text[0..] == text;
    PrependConcat("", "", Scan(text, 0));
  }

  lemma ScanEnds(text: string, depth: nat, out: string)
    requires Underway(text, |text|, depth, out)
    ensures Scan(text, 0) == Some(out)
  {
    assert text[|text|..] == "" && out + "" == out;
  }

  method ScanLoop(text: string) returns (out: string)
    requires Scan(text, 0).Some?
    ensures Scan(text, 0) == Some(out)
  {
    var depth: nat, i: nat := 0, 0;
    out := "";
    ScanBegins(text);
    while i < |text|
      invariant Underway(text, i, depth, out)
      decreases |text| - i
    {
      i, depth, out := Advance(text, i, depth, out);
    }
    ScanEnds(text, depth, out);
  }
}
