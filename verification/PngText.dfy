/** Text chunks put into a PNG right after its first chunk (`chunk` and `withText` of the vdisk-thumbs module). */
module PngText {
  import opened Basics
  import opened Crc32

  /** UTF-16 code units. */
  type Units = seq<nat>

  datatype Result = Ok(png: Bytes) | NotPng | TooShort | TooLong

  const SIGNATURE: Bytes := [0x89, 0x50, 0x4e, 0x47, 0x0d, 0x0a, 0x1a, 0x0a]
  const TEXT: Bytes := [0x74, 0x45, 0x58, 0x74]

  // ----- the format: section 3.2 of RFC 2083 -----

  datatype Chunk = Chunk(kind: Bytes, data: Bytes)

  predicate Sendable(c: Chunk) { |c.kind| == 4 && |c.data| < WORD }

  /** Four bytes, the highest first. */
  function U32(n: nat): Bytes
    requires n < WORD
  {
    [(n / 0x100_0000) as byte, (n / 0x1_0000 % 0x100) as byte, (n / 0x100 % 0x100) as byte, (n % 0x100) as byte]
  }

  function ReadU32(b: Bytes): (n: nat)
    requires |b| >= 4
    ensures n < WORD
  {
    (b[0] as nat) * 0x100_0000 + (b[1] as nat) * 0x1_0000 + (b[2] as nat) * 0x100 + (b[3] as nat)
  }

  /** The first chunk and the rest; nothing when it is cut short or its checksum is wrong. */
  function Parse(b: Bytes): (r: Option<(Chunk, Bytes)>)
    ensures r.Some? ==> |r.value.1| < |b| && Sendable(r.value.0)
  {
    if |b| < 12 then None
    else
      var n := ReadU32(b);
      if |b| < 12 + n || ReadU32(b[8 + n..]) != Checksum(b[4..8 + n]) then None
      else Some((Chunk(b[4..8], b[8..8 + n]), b[12 + n..]))
  }

  /** The first `n` chunks and the rest. */
  function ParseMany(b: Bytes, n: nat): Option<(seq<Chunk>, Bytes)>
    decreases n
  {
    if n == 0 then Some(([], b))
    else
      match Parse(b)
      case None => None
      case Some((c, rest)) =>
        match ParseMany(rest, n - 1)
        case None => None
        case Some((cs, end)) => Some(([c] + cs, end))
  }

  /** Keyword and text of a tEXt chunk: Latin-1, up to and after the first zero byte. */
  function TextOf(data: Bytes): Option<(Units, Units)> {
    if |data| == 0 then None
    else if data[0] == 0 then Some(([], Widen(data[1..])))
    else
      match TextOf(data[1..])
      case None => None
      case Some((k, v)) => Some(([data[0] as nat] + k, v))
  }

  function Widen(b: Bytes): Units {
    if |b| == 0 then [] else [b[0] as nat] + Widen(b[1..])
  }

  // ----- what is written -----

  function ChunkBytes(c: Chunk): Bytes
    requires Sendable(c)
  {
    U32(|c.data|) + (c.kind + c.data) + U32(ChecksumWord(c.kind + c.data))
  }

  function ChecksumWord(b: Bytes): (r: nat)
    ensures r == Checksum(b) && r < WORD
  {
    ChecksumIsWord(b);
    Checksum(b)
  }

  lemma {:induction false} RegisterIsWord(c: nat, b: Bytes)
    requires c < WORD
    ensures Register(c, b) < WORD
    decreases |b|
  {
    if |b| > 0 {
      TakeByte(c, b[0] as nat);
      WordByTable(c, b[0] as nat);
      ShiftsAreWords(Xor(c, b[0] as nat), 8);
      RegisterIsWord(TakeBits(c, b[0] as nat, 8), b[1..]);
    }
  }

  lemma ChecksumIsWord(b: Bytes)
    ensures Checksum(b) < WORD
  {
    RegisterIsWord(ONES, b);
    WordByTable(Register(ONES, b), ONES);
  }

  /** The low byte of every code unit. */
  function Latin1(s: Units): (b: Bytes)
    ensures |b| == |s|
  {
    if |s| == 0 then [] else [(s[0] % 256) as byte] + Latin1(s[1..])
  }

  function TextChunk(entry: (Units, Units)): Chunk { Chunk(TEXT, Latin1(entry.0) + [0] + Latin1(entry.1)) }

  function TextChunks(text: seq<(Units, Units)>): seq<Chunk> {
    if |text| == 0 then [] else [TextChunk(text[0])] + TextChunks(text[1..])
  }

  predicate AllSendable(cs: seq<Chunk>) { forall i :: 0 <= i < |cs| ==> Sendable(cs[i]) }

  function AllBytes(cs: seq<Chunk>): Bytes
    requires AllSendable(cs)
  {
    if |cs| == 0 then [] else ChunkBytes(cs[0]) + AllBytes(cs[1..])
  }

  /** `subarray(0, n)`: no more than there is. */
  function Head(b: Bytes, n: nat): Bytes { if n <= |b| then b[..n] else b }
  function Tail(b: Bytes, n: nat): Bytes { if n <= |b| then b[n..] else [] }

  /** Where the first chunk ends by its length field. */
  function FirstEnd(png: Bytes): nat
    requires |png| >= 12
  {
    20 + ReadU32(png[8..])
  }

  class Writer {
    const crc: Crc

    ghost predicate Valid()
      reads crc, crc.table
    {
      crc.Valid()
    }

    constructor ()
      ensures Valid() && fresh(crc) && fresh(crc.table)
    {
      crc := new Crc();
    }

    static method WriteUInt32BE(a: array<byte>, n: nat)
      requires a.Length == 4 && n < WORD
      modifies a
      ensures a[..] == U32(n)
    {
      a[3] := (n % 0x100) as byte;
      a[2] := (n / 0x100 % 0x100) as byte;
      a[1] := (n / 0x1_0000 % 0x100) as byte;
      a[0] := (n / 0x100_0000) as byte;
    }

    /** One chunk; nothing when its length does not fit four bytes. */
    method WriteChunk(kind: Bytes, data: Bytes) returns (r: Option<Bytes>)
      requires Valid() && |kind| == 4
      ensures r == if |data| < WORD then Some(ChunkBytes(Chunk(kind, data))) else None
    {
      if |data| >= WORD { return None; }
      var len := new byte[4];
      WriteUInt32BE(len, |data|);
      var td := kind + data;
      var c := new byte[4];
      var sum := crc.Of(td);
      WriteUInt32BE(c, sum);
      r := Some(len[..] + td + c[..]);
    }

    /** The chunks of all entries; nothing when one is too long. */
    method WriteEntries(text: seq<(Units, Units)>) returns (r: Option<Bytes>)
      requires Valid()
      ensures r == if AllSendable(TextChunks(text)) then Some(AllBytes(TextChunks(text))) else None
    {
      var extra: Bytes := [];
      ghost var done: seq<Chunk> := [];
      for i := 0 to |text|
        invariant AllSendable(done) && extra == AllBytes(done) && done == TextChunks(text[..i])
      {
        var (key, value) := text[i];
        TextChunksNext(text, i);
        var one := WriteChunk(TEXT, Latin1(key) + [0] + Latin1(value));
        if one.None? { return None; }
        AllBytesAppend(done, TextChunk(text[i]));
        done := done + [TextChunk(text[i])];
        extra := extra + one.value;
      }
      assert text[..|text|] == text;
      r := Some(extra);
    }

    /** The PNG with one tEXt chunk per entry after its first chunk. */
    method WithText(png: Bytes, text: seq<(Units, Units)>) returns (r: Result)
      requires Valid()
      ensures r == Annotated(png, text)
    {
      if Head(png, 8) != SIGNATURE { return NotPng; }
      if |png| < 12 { return TooShort; }
      var extra := WriteEntries(text);
      if extra.None? { return TooLong; }
      r := Ok(Head(png, FirstEnd(png)) + extra.value + Tail(png, FirstEnd(png)));
    }
  }

  lemma {:induction false} TextChunksNext(text: seq<(Units, Units)>, i: nat)
    requires i < |text|
    ensures TextChunks(text[..i + 1]) == TextChunks(text[..i]) + [TextChunk(text[i])]
    ensures TextChunk(text[i]) in TextChunks(text)
  {
    if i == 0 {
      assert text[..1][1..] == [];
    } else {
      assert text[..i + 1][1..] == text[1..][..i] && text[..i][1..] == text[1..][..i - 1];
      TextChunksNext(text[1..], i - 1);
    }
  }

  /** What becomes of a file: an error, or the chunks inserted at the end of the first one. */
  function Annotated(png: Bytes, text: seq<(Units, Units)>): Result {
    if Head(png, 8) != SIGNATURE then NotPng
    else if |png| < 12 then TooShort
    else if !AllSendable(TextChunks(text)) then TooLong
    else Ok(Head(png, FirstEnd(png)) + AllBytes(TextChunks(text)) + Tail(png, FirstEnd(png)))
  }

  lemma {:induction false} AllBytesAppend(cs: seq<Chunk>, c: Chunk)
    requires AllSendable(cs) && Sendable(c)
    ensures AllSendable(cs + [c]) && AllBytes(cs + [c]) == AllBytes(cs) + ChunkBytes(c)
  {
    if |cs| > 0 {
      assert (cs + [c])[1..] == cs[1..] + [c];
      AllBytesAppend(cs[1..], c);
    } else {
      assert ([] + [c])[1..] == [];
      assert ChunkBytes(c) + [] == ChunkBytes(c);
    }
  }

  // ----- reading it back -----

  lemma Digits(n: nat)
    ensures n / 0x100_0000 * 0x100_0000 + n / 0x1_0000 % 0x100 * 0x1_0000 + n / 0x100 % 0x100 * 0x100 + n % 0x100 == n
  {
    var n1 := n / 0x100;
    var n2 := n1 / 0x100;
    assert n / 0x1_0000 == n2 && n / 0x100_0000 == n2 / 0x100;
  }

  lemma ReadWritten(n: nat, rest: Bytes)
    requires n < WORD
    ensures ReadU32(U32(n) + rest) == n
  {
    var u, b := U32(n), U32(n) + rest;
    assert b[0] == u[0];
    assert b[1] == u[1];
    assert b[2] == u[2];
    assert b[3] == u[3];
    Digits(n);
  }

  /** The parts of a chunk followed by other bytes. */
  lemma Parts(head: Bytes, kind: Bytes, data: Bytes, sum: Bytes, rest: Bytes)
    requires |head| == 4 && |kind| == 4 && |sum| == 4
    ensures var b, n := head + (kind + data) + sum + rest, |data|;
            && |b| == 12 + n + |rest| && b[..4] == head && b[4..8 + n] == kind + data && b[4..8] == kind
            && b[8..8 + n] == data && b[8 + n..12 + n] == sum && b[12 + n..] == rest
  {
  }

  /** A chunk written is a chunk read. */
  lemma ParseWritten(c: Chunk, rest: Bytes)
    requires Sendable(c)
    ensures Parse(ChunkBytes(c) + rest) == Some((c, rest))
  {
    var n, sum := |c.data|, ChecksumWord(c.kind + c.data);
    var b := ChunkBytes(c) + rest;
    Parts(U32(n), c.kind, c.data, U32(sum), rest);
    ReadWritten(n, b[4..]);
    assert b == U32(n) + b[4..];
    ReadWritten(sum, rest);
    assert b[8 + n..] == U32(sum) + rest;
  }

  lemma ParseNext(b: Bytes, c: Chunk, rest: Bytes, cs: seq<Chunk>, end: Bytes)
    requires Parse(b) == Some((c, rest)) && ParseMany(rest, |cs|) == Some((cs, end))
    ensures ParseMany(b, 1 + |cs|) == Some(([c] + cs, end))
  {
  }

  lemma ParseOneMore(c: Chunk, after: Bytes, cs: seq<Chunk>, end: Bytes)
    requires Sendable(c) && ParseMany(after, |cs|) == Some((cs, end))
    ensures ParseMany(ChunkBytes(c) + after, 1 + |cs|) == Some(([c] + cs, end))
  {
    ParseWritten(c, after);
    ParseNext(ChunkBytes(c) + after, c, after, cs, end);
  }

  lemma FrontChunk(cs: seq<Chunk>, rest: Bytes)
    requires AllSendable(cs) && |cs| > 0
    ensures AllBytes(cs) + rest == ChunkBytes(cs[0]) + (AllBytes(cs[1..]) + rest)
  {
    Concat3(ChunkBytes(cs[0]), AllBytes(cs[1..]), rest);
  }

  lemma ParseFromFront(cs: seq<Chunk>, rest: Bytes)
    requires AllSendable(cs) && |cs| > 0
    requires ParseMany(AllBytes(cs[1..]) + rest, |cs[1..]|) == Some((cs[1..], rest))
    ensures ParseMany(AllBytes(cs) + rest, |cs|) == Some((cs, rest))
  {
    ParseOneMore(cs[0], AllBytes(cs[1..]) + rest, cs[1..], rest);
    FrontChunk(cs, rest);
    assert [cs[0]] + cs[1..] == cs;
  }

  lemma {:induction false} ParseManyWritten(cs: seq<Chunk>, rest: Bytes)
    requires AllSendable(cs)
    ensures ParseMany(AllBytes(cs) + rest, |cs|) == Some((cs, rest))
  {
    if |cs| == 0 {
      assert AllBytes(cs) + rest == rest;
    } else {
      ParseManyWritten(cs[1..], rest);
      ParseFromFront(cs, rest);
    }
  }

  lemma {:induction false} TextChunksLength(text: seq<(Units, Units)>)
    ensures |TextChunks(text)| == |text|
  {
    if |text| > 0 { TextChunksLength(text[1..]); }
  }

  /** A chunk does not depend on what follows it. */
  lemma SameFirst(b: Bytes, after: Bytes)
    requires Parse(b).Some?
    ensures 12 + ReadU32(b) <= |b| && Parse(b[..12 + ReadU32(b)] + after) == Some((Parse(b).value.0, after))
    ensures Parse(b).value.1 == b[12 + ReadU32(b)..]
  {
    SameSlices(b, ReadU32(b), after);
  }

  lemma SameSlices(b: Bytes, n: nat, after: Bytes)
    requires 12 + n <= |b|
    ensures var b' := b[..12 + n] + after;
            && ReadU32(b') == ReadU32(b) && ReadU32(b'[8 + n..]) == ReadU32(b[8 + n..])
            && b'[4..8 + n] == b[4..8 + n] && b'[4..8] == b[4..8] && b'[8..8 + n] == b[8..8 + n]
            && b'[12 + n..] == after
  {
  }

  lemma Inserted(png: Bytes, end: nat, extra: Bytes)
    requires 8 <= end <= |png|
    ensures var r := png[..end] + extra + png[end..];
            |r| >= 8 && r[..8] == png[..8] && r[8..] == png[8..][..end - 8] + (extra + png[8..][end - 8..])
  {
    assert png[8..][end - 8..] == png[end..];
  }

  lemma FirstKept(b: Bytes, cs: seq<Chunk>)
    requires Parse(b).Some? && AllSendable(cs)
    ensures var m := 12 + ReadU32(b);
            m <= |b| && ParseMany(b[..m] + (AllBytes(cs) + b[m..]), 1 + |cs|) == Some(([Parse(b).value.0] + cs, b[m..]))
  {
    var m := 12 + ReadU32(b);
    var after := AllBytes(cs) + b[m..];
    SameFirst(b, after);
    ParseManyWritten(cs, b[m..]);
    ParseNext(b[..m] + after, Parse(b).value.0, after, cs, b[m..]);
  }

  lemma AnnotatedBytes(png: Bytes, text: seq<(Units, Units)>)
    requires Head(png, 8) == SIGNATURE && Parse(png[8..]).Some? && AllSendable(TextChunks(text))
    ensures var b, r := png[8..], Annotated(png, text);
            var m := 12 + ReadU32(b);
            && m <= |b| && Parse(b).value.1 == b[m..]
            && r.Ok? && |r.png| >= 8 && r.png[..8] == SIGNATURE
            && r.png[8..] == b[..m] + (AllBytes(TextChunks(text)) + b[m..])
  {
    SameFirst(png[8..], []);
    Inserted(png, FirstEnd(png), AllBytes(TextChunks(text)));
  }

  /**
   A PNG whose first chunk is whole keeps it; the text chunks follow in order with valid checksums, then every other
   byte unchanged.
   */
  lemma AnnotatedParses(png: Bytes, text: seq<(Units, Units)>)
    requires Head(png, 8) == SIGNATURE && Parse(png[8..]).Some? && AllSendable(TextChunks(text))
    ensures var (first, rest) := Parse(png[8..]).value;
            var r := Annotated(png, text);
            && r.Ok? && |r.png| >= 8 && r.png[..8] == SIGNATURE
            && ParseMany(r.png[8..], 1 + |text|) == Some(([first] + TextChunks(text), rest))
  {
    FirstKept(png[8..], TextChunks(text));
    AnnotatedBytes(png, text);
    TextChunksLength(text);
  }

  predicate IsLatin1(s: Units) { forall i :: 0 <= i < |s| ==> s[i] < 256 }

  lemma {:induction false} WidenLatin1(s: Units)
    ensures Widen(Latin1(s)) == s <==> IsLatin1(s)
  {
    if |s| > 0 {
      WidenLatin1(s[1..]);
      assert Latin1(s)[1..] == Latin1(s[1..]);
      assert Widen(Latin1(s))[1..] == Widen(Latin1(s[1..]));
      assert s == [s[0]] + s[1..];
    }
  }

  lemma TextStep(first: byte, rest: Bytes)
    requires first != 0
    ensures TextOf([first] + rest) ==
            match TextOf(rest) case None => None case Some((k, v)) => Some(([first as nat] + k, v))
  {
    assert ([first] + rest)[1..] == rest;
  }

  lemma {:induction false} TextBack(key: Units, value: Bytes)
    requires forall i :: 0 <= i < |key| ==> key[i] % 256 != 0
    ensures TextOf(Latin1(key) + [0] + value) == Some((Widen(Latin1(key)), Widen(value)))
    decreases |key|
  {
    var data := Latin1(key) + [0] + value;
    if |key| == 0 {
      assert data == [0] + value && data[1..] == value;
    } else {
      TextBack(key[1..], value);
      var b := (key[0] % 256) as byte;
      assert data == [b] + (Latin1(key[1..]) + [0] + value);
      TextStep(b, Latin1(key[1..]) + [0] + value);
      assert ([b] + Latin1(key[1..]))[1..] == Latin1(key[1..]);
    }
  }

  lemma {:induction false} KeywordEnds(key: Units, i: nat, value: Bytes)
    requires i < |key| && key[i] % 256 == 0
    ensures var r := TextOf(Latin1(key) + [0] + value);
            r.Some? && |r.value.0| < |key|
    decreases i
  {
    var data := Latin1(key) + [0] + value;
    var b := (key[0] % 256) as byte;
    assert data == [b] + (Latin1(key[1..]) + [0] + value);
    if b != 0 {
      KeywordEnds(key[1..], i - 1, value);
      TextStep(b, Latin1(key[1..]) + [0] + value);
    }
  }

  /** An entry is read back exactly when both texts are Latin-1 and the keyword holds no zero. */
  lemma TextReadBack(key: Units, value: Units)
    ensures TextOf(TextChunk((key, value)).data) == Some((key, value))
            <==> IsLatin1(key) && IsLatin1(value) && 0 !in key
  {
    if i :| 0 <= i < |key| && key[i] % 256 == 0 {
      KeywordEnds(key, i, Latin1(value));
    } else {
      TextBack(key, Latin1(value));
      WidenLatin1(key);
      WidenLatin1(value);
    }
  }
}
