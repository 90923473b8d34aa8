/**
 The terminal-log codec: the line normaliser and tagger of internal/executor/wrapper.go, whose two state bits survive
 chunk boundaries, against the plain form of its output, and read back through the log splitter.
 */
module LogCodec {
  import opened Bytes
  import opened Seqs
  import opened Splitters

  // ----- The plain form -----

  // A carriage return directly followed by a line feed is one break.
  function BreakLen(s: seq<Byte>, i: nat): nat
    requires i < |s|
  {
    if s[i] == CR && i + 1 < |s| && s[i + 1] == LF then 2 else 1
  }

  // The terminated lines of a text, and what follows the last of them.
  function Lines(s: seq<Byte>): seq<seq<Byte>>
    decreases |s|
  {
    var i := BreakAt(s);
    if i < |s| then [s[..i]] + Lines(s[i + BreakLen(s, i)..]) else []
  }

  function Tail(s: seq<Byte>): seq<Byte>
    decreases |s|
  {
    var i := BreakAt(s);
    if i < |s| then Tail(s[i + BreakLen(s, i)..]) else s
  }

  const OPEN: Byte := 91
  const CLOSE: Byte := 93
  const SPACE: Byte := 32

  function Prefix(tag: seq<Byte>): seq<Byte> {
    [OPEN] + tag + [CLOSE, SPACE]
  }

  function TagLines(tag: seq<Byte>, lines: seq<seq<Byte>>): seq<Byte> {
    if lines == [] then [] else Prefix(tag) + lines[0] + [LF] + TagLines(tag, lines[1..])
  }

  // Every terminated line tagged and ended by a line feed, then a non-empty rest tagged.
  function Tagged(tag: seq<Byte>, s: seq<Byte>): seq<Byte> {
    TagLines(tag, Lines(s)) + (if Tail(s) == [] then [] else Prefix(tag) + Tail(s))
  }

  // ----- The encoder, one byte at a time -----

  datatype Encoder = Encoder(atStart: bool, previousCR: bool)

  const START := Encoder(true, false)

  function Emit(tag: seq<Byte>, e: Encoder, b: Byte): seq<Byte> {
    if b == LF && e.previousCR then []
    else (if e.atStart then Prefix(tag) else []) + [if IsBreak(b) then LF else b]
  }

  function Next(e: Encoder, b: Byte): Encoder {
    if b == LF && e.previousCR then e.(previousCR := false)
    else Encoder(IsBreak(b), b == CR)
  }

  function Encode(tag: seq<Byte>, e: Encoder, s: seq<Byte>): seq<Byte>
    decreases |s|
  {
    if s == [] then [] else Emit(tag, e, s[0]) + Encode(tag, Next(e, s[0]), s[1..])
  }

  function After(e: Encoder, s: seq<Byte>): Encoder
    decreases |s|
  {
    if s == [] then e else After(Next(e, s[0]), s[1..])
  }

  lemma {:induction false} EncodeAppend(tag: seq<Byte>, e: Encoder, a: seq<Byte>, b: seq<Byte>)
    ensures Encode(tag, e, a + b) == Encode(tag, e, a) + Encode(tag, After(e, a), b)
    ensures After(e, a + b) == After(After(e, a), b)
    decreases |a|
  {
    if a == [] {
      assert a + b == b;
    } else {
      assert (a + b)[1..] == a[1..] + b;
      EncodeAppend(tag, Next(e, a[0]), a[1..], b);
    }
  }

  // A stretch without breaks is copied, behind the tag if it starts a line.
  lemma {:induction false} EncodePlain(tag: seq<Byte>, e: Encoder, s: seq<Byte>)
    requires BreakAt(s) == |s| && s != []
    ensures Encode(tag, e, s) == (if e.atStart then Prefix(tag) else []) + s
    ensures After(e, s) == Encoder(false, false)
    decreases |s|
  {
    assert !IsBreak(s[0]);
    if |s| == 1 {
      assert s[1..] == [];
    } else {
      BreakAtUnique(s[1..], |s| - 1);
      EncodePlain(tag, Next(e, s[0]), s[1..]);
      assert s == [s[0]] + s[1..];
    }
  }

  // One line, however it ends: its tag in brackets, a space, its bytes and a line feed.
  lemma OneLineIsTagged(tag: seq<Byte>, line: seq<Byte>)
    requires forall i :: 0 <= i < |line| ==> line[i] != 10 && line[i] != 13
    ensures var tagged := [91] + tag + [93, 32] + line;
            && Encode(tag, START, line + [10]) == tagged + [10]
            && Encode(tag, START, line + [13]) == tagged + [10]
            && Encode(tag, START, line + [13, 10]) == tagged + [10]
            && (line != [] ==> Encode(tag, START, line) == tagged)
  {
    var tagged := [91] + tag + [93, 32] + line;
    assert Prefix(tag) + line == tagged && Prefix(tag) + [10] == [91] + tag + [93, 32] + [10];
    var e := After(START, line);
    EncodeAppend(tag, START, line, [10]);
    EncodeAppend(tag, START, line, [13]);
    EncodeAppend(tag, START, line, [13, 10]);
    assert [10][1..] == [] && [13][1..] == [] && [13, 10][1..] == [10];
    if line != [] {
      BreakAtUnique(line, |line|);
      EncodePlain(tag, START, line);
      assert Encode(tag, e, [10]) == [10] && Encode(tag, e, [13]) == [10] && Encode(tag, e, [13, 10]) == [10];
    } else {
      assert line + [10] == [10] && line + [13] == [13] && line + [13, 10] == [13, 10];
    }
  }

  // At the start of a line a pending carriage return only matters for an immediate line feed, which it absorbs.
  lemma PendingCR(tag: seq<Byte>, s: seq<Byte>)
    ensures Encode(tag, Encoder(true, true), s) ==
            if s != [] && s[0] == LF then Encode(tag, START, s[1..]) else Encode(tag, START, s)
  {
  }

  // What follows a break byte: the rest, less a line feed that belongs to a carriage return.
  function Behind(b: Byte, rest: seq<Byte>): seq<Byte> {
    if b == CR && rest != [] && rest[0] == LF then rest[1..] else rest
  }

  lemma EncodeCons(tag: seq<Byte>, e: Encoder, b: Byte, rest: seq<Byte>)
    ensures Encode(tag, e, [b] + rest) == Emit(tag, e, b) + Encode(tag, Next(e, b), rest)
  {
    assert ([b] + rest)[1..] == rest;
  }

  lemma EncodeBreakByte(tag: seq<Byte>, e: Encoder, b: Byte, rest: seq<Byte>)
    requires IsBreak(b) && !e.previousCR
    ensures e.atStart ==> Encode(tag, e, [b] + rest) == Prefix(tag) + ([LF] + Encode(tag, START, Behind(b, rest)))
    ensures !e.atStart ==> Encode(tag, e, [b] + rest) == [LF] + Encode(tag, START, Behind(b, rest))
  {
    EncodeCons(tag, e, b, rest);
    PendingCR(tag, rest);
    Assoc(Prefix(tag), [LF], Encode(tag, START, Behind(b, rest)));
    assert [] + [LF] == [LF];
  }

  lemma EncodeLine(tag: seq<Byte>, line: seq<Byte>, b: Byte, rest: seq<Byte>)
    requires BreakAt(line) == |line| && IsBreak(b)
    ensures Encode(tag, START, line + ([b] + rest)) == (Prefix(tag) + line) + ([LF] + Encode(tag, START, Behind(b, rest)))
  {
    EncodeAppend(tag, START, line, [b] + rest);
    if line == [] {
      EncodeBreakByte(tag, START, b, rest);
      assert Prefix(tag) + line == Prefix(tag);
      assert line + ([b] + rest) == [b] + rest;
    } else {
      EncodePlain(tag, START, line);
      EncodeBreakByte(tag, Encoder(false, false), b, rest);
    }
  }

  lemma BehindIsSlice(s: seq<Byte>, i: nat)
    requires i < |s|
    ensures Behind(s[i], s[i + 1..]) == s[i + BreakLen(s, i)..]
  {
  }

  lemma EncodeBreak(tag: seq<Byte>, s: seq<Byte>)
    requires BreakAt(s) < |s|
    ensures var i := BreakAt(s);
            Encode(tag, START, s) == Prefix(tag) + s[..i] + [LF] + Encode(tag, START, s[i + BreakLen(s, i)..])
  {
    var i := BreakAt(s);
    var line, rest := s[..i], s[i + 1..];
    SplitAt(s, i);
    BreakAtUnique(line, i);
    BehindIsSlice(s, i);
    EncodeLine(tag, line, s[i], rest);
    Assoc(Prefix(tag) + line, [LF], Encode(tag, START, Behind(s[i], rest)));
  }

  // The encoder computes the plain form.
  lemma {:induction false} EncoderIsTagged(tag: seq<Byte>, s: seq<Byte>)
    ensures Encode(tag, START, s) == Tagged(tag, s)
    decreases |s|
  {
    var i := BreakAt(s);
    if i < |s| {
      var rest := s[i + BreakLen(s, i)..];
      EncodeBreak(tag, s);
      EncoderIsTagged(tag, rest);
      assert Lines(s)[1..] == Lines(rest);
      Assoc(Prefix(tag) + s[..i] + [LF], TagLines(tag, Lines(rest)), if Tail(rest) == [] then [] else Prefix(tag) + Tail(rest));
    } else if s != [] {
      EncodePlain(tag, START, s);
    }
  }

  // ----- The wrapper process -----

  // An append-only log file whose writes may be short.
  class LogFile {
    var data: seq<Byte>

    constructor ()
      ensures data == []
    {
      data := [];
    }

    method SysWrite(bytes: seq<Byte>) returns (written: nat, ok: bool)
      requires bytes != []
      modifies this
      ensures written <= |bytes| && data == old(data) + bytes[..written]
      ensures ok <==> written > 0
    {
      written :| 0 <= written <= |bytes|;
      data := data + bytes[..written];
      ok := written > 0;
    }

    method WriteAll(bytes: seq<Byte>) returns (ok: bool)
      modifies this
      ensures old(data) <= data <= old(data) + bytes && (ok ==> data == old(data) + bytes)
    {
      var offset := 0;
      assert old(data) + bytes[..0] == old(data);
      while offset < |bytes|
        invariant offset <= |bytes| && data == old(data) + bytes[..offset]
      {
        var written, wrote := SysWrite(bytes[offset..]);
        assert bytes[..offset] + bytes[offset..][..written] == bytes[..offset + written];
        offset := offset + written;
        if !wrote {
          return false;
        }
      }
      return true;
    }
  }

  // The chunks before the empty read that marks the end of the input.
  function BeforeEOF(chunks: seq<seq<Byte>>): seq<seq<Byte>> {
    if chunks == [] || chunks[0] == [] then [] else [chunks[0]] + BeforeEOF(chunks[1..])
  }

  lemma {:induction false} BeforeEOFMeans(chunks: seq<seq<Byte>>)
    ensures var read := BeforeEOF(chunks);
            && read <= chunks && (forall i :: 0 <= i < |read| ==> read[i] != [])
            && (|read| < |chunks| ==> chunks[|read|] == [])
  {
    if chunks != [] && chunks[0] != [] {
      BeforeEOFMeans(chunks[1..]);
    }
  }

  method EncodeChunk(tag: seq<Byte>, e: Encoder, chunk: seq<Byte>) returns (encoded: seq<Byte>, e': Encoder)
    ensures encoded == Encode(tag, e, chunk) && e' == After(e, chunk)
  {
    var atStart, previousCR := e.atStart, e.previousCR;
    encoded := [];
    for i := 0 to |chunk|
      invariant encoded == Encode(tag, e, chunk[..i])
      invariant Encoder(atStart, previousCR) == After(e, chunk[..i])
    {
      var b := chunk[i];
      EncodeSnoc(tag, e, chunk[..i], b);
      assert chunk[..i] + [b] == chunk[..i + 1];
      if b == LF && previousCR {
        previousCR := false;
        continue;
      }
      if atStart {
        encoded := encoded + Prefix(tag);
      }
      if b == CR || b == LF {
        encoded := encoded + [LF];
        atStart, previousCR := true, b == CR;
      } else {
        encoded := encoded + [b];
        atStart, previousCR := false, false;
      }
    }
    assert chunk[..|chunk|] == chunk;
    e' := Encoder(atStart, previousCR);
  }

  lemma EncodeSnoc(tag: seq<Byte>, e: Encoder, s: seq<Byte>, b: Byte)
    ensures var last := After(e, s);
            && Encode(tag, e, s + [b]) ==
               if b == LF && last.previousCR then Encode(tag, e, s)
               else if last.atStart then Encode(tag, e, s) + Prefix(tag) + [if IsBreak(b) then LF else b]
               else Encode(tag, e, s) + [if IsBreak(b) then LF else b]
    ensures After(e, s + [b]) == Next(After(e, s), b)
  {
    EncodeAppend(tag, e, s, [b]);
    assert [b][1..] == [];
    assert Encode(tag, After(e, s), [b]) == Emit(tag, After(e, s), b) + [] == Emit(tag, After(e, s), b);
  }

  // What is read so far, what the file holds for it, and what is still to come.
  ghost predicate Streaming(tag: seq<Byte>, base: seq<Byte>, data: seq<Byte>, e: Encoder, read: seq<Byte>, chunks: seq<seq<Byte>>, input: seq<Byte>) {
    && e == After(START, read)
    && data == base + Encode(tag, START, read)
    && read + Flatten(BeforeEOF(chunks)) == input
  }

  lemma StreamStarts(tag: seq<Byte>, base: seq<Byte>, chunks: seq<seq<Byte>>)
    ensures Streaming(tag, base, base, START, [], chunks, Flatten(BeforeEOF(chunks)))
  {
    assert base + [] == base;
    assert [] + Flatten(BeforeEOF(chunks)) == Flatten(BeforeEOF(chunks));
  }

  lemma StreamEnds(tag: seq<Byte>, base: seq<Byte>, data: seq<Byte>, e: Encoder, read: seq<Byte>, chunks: seq<seq<Byte>>, input: seq<Byte>)
    requires Streaming(tag, base, data, e, read, chunks, input) && BeforeEOF(chunks) == []
    ensures data == base + Tagged(tag, input)
  {
    assert read + [] == read;
    EncoderIsTagged(tag, input);
  }

  lemma StreamReads(tag: seq<Byte>, base: seq<Byte>, data: seq<Byte>, e: Encoder, read: seq<Byte>, chunks: seq<seq<Byte>>, input: seq<Byte>)
    requires Streaming(tag, base, data, e, read, chunks, input) && BeforeEOF(chunks) != []
    ensures Streaming(tag, base, data + Encode(tag, e, chunks[0]), After(e, chunks[0]), read + chunks[0], chunks[1..], input)
  {
    EncodeAppend(tag, START, read, chunks[0]);
    Assoc(base, Encode(tag, START, read), Encode(tag, e, chunks[0]));
    assert BeforeEOF(chunks) == [chunks[0]] + BeforeEOF(chunks[1..]);
    assert ([chunks[0]] + BeforeEOF(chunks[1..]))[1..] == BeforeEOF(chunks[1..]);
    Assoc(read, chunks[0], Flatten(BeforeEOF(chunks[1..])));
  }

  lemma StreamBehind(tag: seq<Byte>, base: seq<Byte>, data: seq<Byte>, e: Encoder, read: seq<Byte>, chunks: seq<seq<Byte>>, input: seq<Byte>)
    requires Streaming(tag, base, data, e, read, chunks, input)
    ensures base <= data <= base + Tagged(tag, input)
  {
    var rest := Flatten(BeforeEOF(chunks));
    EncoderIsTagged(tag, input);
    EncodeAppend(tag, START, read, rest);
    Assoc(base, Encode(tag, START, read), Encode(tag, After(START, read), rest));
  }

  // The whole stream: whatever the chunking, the file receives the tagged form of the whole input, or a prefix of it
  // when a write fails.
  method PrefixStream(tag: seq<Byte>, chunks: seq<seq<Byte>>, out: LogFile) returns (ok: bool)
    modifies out
    ensures ok ==> out.data == old(out.data) + Tagged(tag, Flatten(BeforeEOF(chunks)))
    ensures old(out.data) <= out.data <= old(out.data) + Tagged(tag, Flatten(BeforeEOF(chunks)))
  {
    var e, i := START, 0;
    ghost var base, input := out.data, Flatten(BeforeEOF(chunks));
    ghost var read, rest := [], chunks;
    StreamStarts(tag, base, chunks);
    while i < |chunks| && chunks[i] != []
      invariant i <= |chunks| && rest == chunks[i..]
      invariant Streaming(tag, base, out.data, e, read, rest, input)
    {
      StreamReads(tag, base, out.data, e, read, rest, input);
      ghost var before := out.data;
      var encoded, e' := EncodeChunk(tag, e, chunks[i]);
      StreamBehind(tag, base, before, e, read, rest, input);
      StreamBehind(tag, base, before + encoded, e', read + chunks[i], rest[1..], input);
      var wrote := out.WriteAll(encoded);
      if !wrote {
        return false;
      }
      e, i, read, rest := e', i + 1, read + chunks[i], rest[1..];
    }
    StreamEnds(tag, base, out.data, e, read, rest, input);
    return true;
  }

  // ----- Reading the log back -----

  function TaggedLines(tag: seq<Byte>, lines: seq<seq<Byte>>): seq<seq<Byte>> {
    if lines == [] then [] else [Prefix(tag) + lines[0]] + TaggedLines(tag, lines[1..])
  }

  function TaggedTail(tag: seq<Byte>, tail: seq<Byte>): seq<seq<Byte>> {
    if tail == [] then [] else [Prefix(tag) + tail]
  }

  predicate NoBreak(s: seq<Byte>) {
    forall i :: 0 <= i < |s| ==> !IsBreak(s[i])
  }

  lemma TokensOfLine(line: seq<Byte>, rest: seq<Byte>)
    requires NoBreak(line)
    ensures Tokens(line + [LF] + rest) == [line] + Tokens(rest)
  {
    var s := line + [LF] + rest;
    BreakAtUnique(s, |line|);
    assert s[..|line|] == line && s[|line| + 1..] == rest;
  }

  lemma {:induction false} LinesHaveNoBreak(s: seq<Byte>)
    ensures forall i :: 0 <= i < |Lines(s)| ==> NoBreak(Lines(s)[i])
    ensures NoBreak(Tail(s))
    decreases |s|
  {
    if BreakAt(s) < |s| {
      LinesHaveNoBreak(s[BreakAt(s) + BreakLen(s, BreakAt(s))..]);
    }
  }

  function LastLine(tag: seq<Byte>, tail: seq<Byte>): seq<Byte> {
    if tail == [] then [] else Prefix(tag) + tail
  }

  lemma TokensOfLast(tag: seq<Byte>, tail: seq<Byte>)
    requires NoBreak(tag) && NoBreak(tail)
    ensures Tokens(LastLine(tag, tail)) == TaggedTail(tag, tail)
  {
    BreakAtUnique(LastLine(tag, tail), |LastLine(tag, tail)|);
  }

  lemma {:induction false} TokensOfTagged(tag: seq<Byte>, lines: seq<seq<Byte>>, tail: seq<Byte>)
    requires NoBreak(tag) && NoBreak(tail)
    requires forall i :: 0 <= i < |lines| ==> NoBreak(lines[i])
    ensures Tokens(TagLines(tag, lines) + LastLine(tag, tail)) == TaggedLines(tag, lines) + TaggedTail(tag, tail)
    decreases |lines|
  {
    TokensOfLast(tag, tail);
    if lines == [] {
      assert TagLines(tag, lines) + LastLine(tag, tail) == LastLine(tag, tail);
    } else {
      var line, rest := Prefix(tag) + lines[0], TagLines(tag, lines[1..]);
      TokensOfTagged(tag, lines[1..], tail);
      TokensOfLine(line, rest + LastLine(tag, tail));
      Assoc(line + [LF], rest, LastLine(tag, tail));
      Assoc([line], TaggedLines(tag, lines[1..]), TaggedTail(tag, tail));
    }
  }

  // Writing and reading back: a scanner over any chunking of the file yields exactly the tagged lines, and the tagged
  // rest.  The wrapper's own tags, stdout and stderr, contain no break.
  lemma LogRoundTrip(tag: seq<Byte>, input: seq<Byte>, chunks: seq<seq<Byte>>)
    requires NoBreak(tag)
    requires Flatten(chunks) == Encode(tag, START, input)
    ensures Scan(LogTokens, [], chunks) == TaggedLines(tag, Lines(input)) + TaggedTail(tag, Tail(input))
  {
    EncoderIsTagged(tag, input);
    LogScanIgnoresChunks([], chunks);
    assert [] + Flatten(chunks) == Flatten(chunks);
    LinesHaveNoBreak(input);
    TokensOfTagged(tag, Lines(input), Tail(input));
  }
}
