/**
 The scanner split functions of internal/executor/ssh_pool.go, driven by a scanner that receives its input in
 arbitrary chunks.  Records longer than the scanner's buffer are left out.
 */
module Splitters {
  import opened Outcomes
  import opened Bytes
  import opened Seqs

  // What a split function tells the scanner: how far to advance, and the token, if any.
  datatype Split = Split(advance: nat, token: Option<seq<Byte>>)

  function DropTrailingCR(data: seq<Byte>): seq<Byte> {
    if data != [] && data[|data| - 1] == CR then DropTrailingCR(data[..|data| - 1]) else data
  }

  function SplitLogTokens(data: seq<Byte>, atEOF: bool): Split {
    var i := BreakAt(data);
    if i < |data| then Split(i + 1, Some(DropTrailingCR(data[..i])))
    else if atEOF && data != [] then Split(|data|, Some(DropTrailingCR(data)))
    else Split(0, None)
  }

  function LeadingBreaks(data: seq<Byte>): (n: nat)
    ensures n <= |data|
  {
    if data != [] && IsBreak(data[0]) then 1 + LeadingBreaks(data[1..]) else 0
  }

  lemma {:induction false} LeadingBreaksAre(data: seq<Byte>)
    ensures var n := LeadingBreaks(data);
            (forall j :: 0 <= j < n ==> IsBreak(data[j])) && (n < |data| ==> !IsBreak(data[n]))
  {
    if data != [] && IsBreak(data[0]) {
      LeadingBreaksAre(data[1..]);
    }
  }

  function SplitCommandRecords(data: seq<Byte>, atEOF: bool): Split {
    var i := BreakAt(data);
    if i < |data| then Split(i + 1 + LeadingBreaks(data[i + 1..]), Some(data[..i]))
    else if atEOF && data != [] then Split(|data|, Some(data))
    else Split(0, None)
  }

  // The split functions as the loops they are.
  method RunSplitLogTokens(data: seq<Byte>, atEOF: bool) returns (r: Split)
    ensures r == SplitLogTokens(data, atEOF)
  {
    for i := 0 to |data|
      invariant forall j :: 0 <= j < i ==> !IsBreak(data[j])
    {
      if data[i] == LF || data[i] == CR {
        BreakAtUnique(data, i);
        return Split(i + 1, Some(DropTrailingCR(data[..i])));
      }
    }
    BreakAtUnique(data, |data|);
    if atEOF && |data| > 0 {
      return Split(|data|, Some(DropTrailingCR(data)));
    }
    return Split(0, None);
  }

  method RunSplitCommandRecords(data: seq<Byte>, atEOF: bool) returns (r: Split)
    ensures r == SplitCommandRecords(data, atEOF)
  {
    for i := 0 to |data|
      invariant forall j :: 0 <= j < i ==> !IsBreak(data[j])
    {
      if data[i] == LF || data[i] == CR {
        BreakAtUnique(data, i);
        var advance := i + 1;
        while advance < |data| && (data[advance] == LF || data[advance] == CR)
          invariant i + 1 <= advance <= |data|
          invariant forall j :: i + 1 <= j < advance ==> IsBreak(data[j])
        {
          advance := advance + 1;
        }
        LeadingBreaksUnique(data[i + 1..], advance - (i + 1));
        return Split(advance, Some(data[..i]));
      }
    }
    BreakAtUnique(data, |data|);
    if atEOF && |data| > 0 {
      return Split(|data|, Some(data));
    }
    return Split(0, None);
  }

  lemma LeadingBreaksUnique(data: seq<Byte>, n: nat)
    requires n <= |data|
    requires forall j :: 0 <= j < n ==> IsBreak(data[j])
    requires n < |data| ==> !IsBreak(data[n])
    ensures LeadingBreaks(data) == n
  {
    var k := LeadingBreaks(data);
    LeadingBreaksAre(data);
    assert k < |data| ==> !IsBreak(data[k]);
    assert n < |data| ==> !IsBreak(data[n]);
  }

  // Trimming carriage returns has nothing to trim at either call site.
  lemma NothingToTrim(data: seq<Byte>)
    requires forall j :: 0 <= j < |data| ==> !IsBreak(data[j])
    ensures DropTrailingCR(data) == data
  {
  }

  lemma TrimIsIdentityInSplit(data: seq<Byte>, atEOF: bool)
    ensures SplitLogTokens(data, atEOF) ==
            if BreakAt(data) < |data| then Split(BreakAt(data) + 1, Some(data[..BreakAt(data)]))
            else if atEOF && data != [] then Split(|data|, Some(data))
            else Split(0, None)
  {
    NothingToTrim(data[..BreakAt(data)]);
  }

  // ----- The scanner -----

  datatype Splitter = LogTokens | CommandRecords

  function Apply(f: Splitter, data: seq<Byte>, atEOF: bool): (r: Split)
    ensures r.advance <= |data|
    ensures r.token.Some? <==> r.advance > 0
  {
    match f
    case LogTokens => SplitLogTokens(data, atEOF)
    case CommandRecords => SplitCommandRecords(data, atEOF)
  }

  // The scanner asks for a token whenever it holds data, and reads the next chunk when it gets none.
  function Scan(f: Splitter, buffer: seq<Byte>, chunks: seq<seq<Byte>>): seq<seq<Byte>>
    decreases |chunks|, |buffer|
  {
    var r := Apply(f, buffer, chunks == []);
    if r.token.Some? then [r.token.value] + Scan(f, buffer[r.advance..], chunks)
    else if chunks == [] then []
    else Scan(f, buffer + chunks[0], chunks[1..])
  }

  // The lines of a text, each break byte ending one, with an unterminated last line if there is any.
  function Tokens(s: seq<Byte>): seq<seq<Byte>>
    decreases |s|
  {
    var i := BreakAt(s);
    if i < |s| then [s[..i]] + Tokens(s[i + 1..])
    else if s == [] then []
    else [s]
  }

  function NonEmpty(tokens: seq<seq<Byte>>): seq<seq<Byte>> {
    if tokens == [] then []
    else if tokens[0] == [] then NonEmpty(tokens[1..])
    else [tokens[0]] + NonEmpty(tokens[1..])
  }

  lemma BreakInBuffer(buffer: seq<Byte>, rest: seq<Byte>)
    requires BreakAt(buffer) < |buffer|
    ensures BreakAt(buffer + rest) == BreakAt(buffer)
  {
    var i := BreakAt(buffer);
    assert forall j :: 0 <= j <= i ==> (buffer + rest)[j] == buffer[j];
    BreakAtUnique(buffer + rest, i);
  }

  lemma TokensAtBreak(buffer: seq<Byte>, rest: seq<Byte>)
    requires BreakAt(buffer) < |buffer|
    ensures Tokens(buffer + rest) == [buffer[..BreakAt(buffer)]] + Tokens(buffer[BreakAt(buffer) + 1..] + rest)
  {
    var i := BreakAt(buffer);
    BreakInBuffer(buffer, rest);
    CutAt(buffer, rest, i);
    CutAt(buffer, rest, i + 1);
  }

  lemma ScanStep(f: Splitter, buffer: seq<Byte>, chunks: seq<seq<Byte>>, token: seq<Byte>, left: seq<Byte>)
    requires var r := Apply(f, buffer, chunks == []); r.token == Some(token) && buffer[r.advance..] == left
    ensures Scan(f, buffer, chunks) == [token] + Scan(f, left, chunks)
  {
  }

  lemma ScanWithoutBreak(f: Splitter, buffer: seq<Byte>, chunks: seq<seq<Byte>>)
    requires BreakAt(buffer) == |buffer|
    ensures chunks == [] ==> Scan(f, buffer, chunks) == Tokens(buffer)
    ensures chunks != [] ==> Scan(f, buffer, chunks) == Scan(f, buffer + chunks[0], chunks[1..])
  {
    TrimIsIdentityInSplit(buffer, chunks == []);
    if chunks == [] && buffer != [] {
      assert buffer[|buffer|..] == [];
      assert Apply(f, [], true) == Split(0, None);
      assert Scan(f, [], []) == [];
    }
  }

  // The log splitter yields the lines of the whole input, wherever the chunk boundaries fall.
  lemma {:induction false} LogScanIgnoresChunks(buffer: seq<Byte>, chunks: seq<seq<Byte>>)
    ensures Scan(LogTokens, buffer, chunks) == Tokens(buffer + Flatten(chunks))
    decreases |chunks|, |buffer|
  {
    var i := BreakAt(buffer);
    if i < |buffer| {
      TrimIsIdentityInSplit(buffer, chunks == []);
      ScanStep(LogTokens, buffer, chunks, buffer[..i], buffer[i + 1..]);
      TokensAtBreak(buffer, Flatten(chunks));
      LogScanIgnoresChunks(buffer[i + 1..], chunks);
    } else {
      ScanWithoutBreak(LogTokens, buffer, chunks);
      if chunks == [] {
        assert buffer + Flatten(chunks) == buffer;
      } else {
        Assoc(buffer, chunks[0], Flatten(chunks[1..]));
        LogScanIgnoresChunks(buffer + chunks[0], chunks[1..]);
      }
    }
  }

  lemma {:induction false} BreaksAddNothing(breaks: seq<Byte>, rest: seq<Byte>)
    requires forall j :: 0 <= j < |breaks| ==> IsBreak(breaks[j])
    ensures NonEmpty(Tokens(breaks + rest)) == NonEmpty(Tokens(rest))
  {
    if breaks == [] {
      assert breaks + rest == rest;
    } else {
      var s := breaks + rest;
      BreakAtUnique(s, 0);
      assert s[..0] == [] && s[1..] == breaks[1..] + rest;
      BreaksAddNothing(breaks[1..], rest);
      assert ([[]] + Tokens(s[1..]))[1..] == Tokens(s[1..]);
    }
  }

  lemma SwallowedBreaks(after: seq<Byte>, rest: seq<Byte>)
    ensures NonEmpty(Tokens(after[LeadingBreaks(after)..] + rest)) == NonEmpty(Tokens(after + rest))
  {
    var n := LeadingBreaks(after);
    LeadingBreaksAre(after);
    BreaksAddNothing(after[..n], after[n..] + rest);
    Assoc(after[..n], after[n..], rest);
    assert after[..n] + after[n..] == after;
  }

  // What is left behind the first run of breaks.
  function BehindBreaks(buffer: seq<Byte>): (left: seq<Byte>)
    requires BreakAt(buffer) < |buffer|
    ensures |left| < |buffer|
  {
    var after := buffer[BreakAt(buffer) + 1..];
    after[LeadingBreaks(after)..]
  }

  lemma RecordAtBreak(buffer: seq<Byte>, chunks: seq<seq<Byte>>, rest: seq<Byte>)
    requires BreakAt(buffer) < |buffer|
    requires NonEmpty(Scan(CommandRecords, BehindBreaks(buffer), chunks)) == NonEmpty(Tokens(BehindBreaks(buffer) + rest))
    ensures NonEmpty(Scan(CommandRecords, buffer, chunks)) == NonEmpty(Tokens(buffer + rest))
  {
    var head, after := buffer[..BreakAt(buffer)], buffer[BreakAt(buffer) + 1..];
    RecordSplit(buffer, chunks == []);
    ScanStep(CommandRecords, buffer, chunks, head, BehindBreaks(buffer));
    TokensAtBreak(buffer, rest);
    SwallowedBreaks(after, rest);
    SameApartFromEmpty(head, Scan(CommandRecords, BehindBreaks(buffer), chunks), Tokens(after + rest),
                       Scan(CommandRecords, buffer, chunks), Tokens(buffer + rest));
  }

  lemma RecordSplit(buffer: seq<Byte>, atEOF: bool)
    requires BreakAt(buffer) < |buffer|
    ensures var r := Apply(CommandRecords, buffer, atEOF);
            r.token == Some(buffer[..BreakAt(buffer)]) && buffer[r.advance..] == BehindBreaks(buffer)
  {
    var i := BreakAt(buffer);
    var n := LeadingBreaks(buffer[i + 1..]);
    SplitIs(buffer, atEOF, i, n);
    DropDrop(buffer, i + 1, n);
  }

  lemma SplitIs(buffer: seq<Byte>, atEOF: bool, i: nat, n: nat)
    requires i == BreakAt(buffer) < |buffer| && n == LeadingBreaks(buffer[i + 1..])
    ensures Apply(CommandRecords, buffer, atEOF) == Split(i + 1 + n, Some(buffer[..i]))
    ensures BehindBreaks(buffer) == buffer[i + 1..][n..]
  {
  }

  lemma SameApartFromEmpty(head: seq<Byte>, a: seq<seq<Byte>>, b: seq<seq<Byte>>, whole: seq<seq<Byte>>, others: seq<seq<Byte>>)
    requires whole == [head] + a && others == [head] + b && NonEmpty(a) == NonEmpty(b)
    ensures NonEmpty(whole) == NonEmpty(others)
  {
    NonEmptyCons(head, a);
    NonEmptyCons(head, b);
  }

  // The record splitter swallows runs of breaks, as far as they are in its buffer; apart from empty records it
  // yields the same list.
  lemma {:induction false} RecordScanIgnoresChunks(buffer: seq<Byte>, chunks: seq<seq<Byte>>)
    ensures NonEmpty(Scan(CommandRecords, buffer, chunks)) == NonEmpty(Tokens(buffer + Flatten(chunks)))
    decreases |chunks|, |buffer|
  {
    var i := BreakAt(buffer);
    if i < |buffer| {
      RecordScanIgnoresChunks(BehindBreaks(buffer), chunks);
      RecordAtBreak(buffer, chunks, Flatten(chunks));
    } else {
      ScanWithoutBreak(CommandRecords, buffer, chunks);
      if chunks == [] {
        assert buffer + Flatten(chunks) == buffer;
      } else {
        Assoc(buffer, chunks[0], Flatten(chunks[1..]));
        RecordScanIgnoresChunks(buffer + chunks[0], chunks[1..]);
      }
    }
  }

  lemma NonEmptyCons(token: seq<Byte>, tokens: seq<seq<Byte>>)
    ensures NonEmpty([token] + tokens) == if token == [] then NonEmpty(tokens) else [token] + NonEmpty(tokens)
  {
    assert ([token] + tokens)[1..] == tokens;
  }

  // The two splitters agree, in order, on everything but empty lines, each under its own chunking.
  lemma SplittersAgree(chunks: seq<seq<Byte>>, others: seq<seq<Byte>>)
    requires Flatten(chunks) == Flatten(others)
    ensures NonEmpty(Scan(CommandRecords, [], chunks)) == NonEmpty(Scan(LogTokens, [], others))
  {
    LogScanIgnoresChunks([], others);
    RecordScanIgnoresChunks([], chunks);
    assert [] + Flatten(chunks) == [] + Flatten(others);
  }

  // Without dropping empty records, what the record splitter yields depends on where the input was cut.
  lemma RecordsDependOnChunks()
    ensures Scan(CommandRecords, [], [[LF, LF]]) == [[]]
    ensures Scan(CommandRecords, [], [[LF], [LF]]) == [[], []]
  {
    var two := [LF, LF];
    assert BreakAt([]) == 0 && LeadingBreaks([]) == 0;
    assert [] + two == two && [] + [LF] == [LF];
    assert BreakAt(two) == 0 && two[1..] == [LF] && LeadingBreaks([LF]) == 1 by { assert [LF][1..] == []; }
    assert two[..0] == [] && two[2..] == [];
    assert BreakAt([LF]) == 0 && [LF][1..] == [] && [LF][..0] == [];
    assert [[LF, LF]][1..] == [];
    assert [[LF], [LF]][1..] == [[LF]] && [[LF]][1..] == [];
    assert Apply(CommandRecords, [], true) == Split(0, None) && Apply(CommandRecords, [], false) == Split(0, None);
    assert Scan(CommandRecords, [], []) == [];
    assert Scan(CommandRecords, two, []) == [[]] + Scan(CommandRecords, [], []);
    assert Scan(CommandRecords, [LF], []) == [[]] + Scan(CommandRecords, [], []);
    assert Scan(CommandRecords, [], [[LF]]) == Scan(CommandRecords, [LF], []);
    assert Scan(CommandRecords, [LF], [[LF]]) == [[]] + Scan(CommandRecords, [], [[LF]]);
  }
}
