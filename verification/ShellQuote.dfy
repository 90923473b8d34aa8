/**
 The shell printers of cmd/aexp/main.go against a reader of shell words.

 The reader follows sections 2.2.1 to 2.2.3 of the Shell Command Language of POSIX.1-2017: backslash, single quotes
 and double quotes.  It accepts only text that is nothing but words: an operator, an expansion or a pattern character
 outside quotes makes it reject.  Assignments are not told from other words, so '=' is an ordinary character.
 */
module ShellQuote {
  import opened Outcomes
  import opened Text

  // ----- The printers -----

  // strings.ReplaceAll of the single quote.
  function ReplaceQuotes(s: string, patch: string): string {
    if s == "" then "" else (if s[0] == '\'' then patch else [s[0]]) + ReplaceQuotes(s[1..], patch)
  }

  const CLOSE_ESCAPE_OPEN := "'\\''"
  const CLOSE_DOUBLE_OPEN := "'\"'\"'"

  function CliShellQuote(s: string): string {
    "'" + ReplaceQuotes(s, CLOSE_ESCAPE_OPEN) + "'"
  }

  predicate Safe(c: char) {
    || c == '-' || c == '_' || c == '.' || c == '/' || c == ':' || c == '='
    || '0' <= c <= '9' || 'A' <= c <= 'Z' || 'a' <= c <= 'z'
  }

  lemma SafeCharacters(c: char)
    ensures Safe(c) <==>
            || c in {'-', '_', '.', '/', ':', '=', '0', '1', '2', '3', '4', '5', '6', '7', '8', '9'}
            || c in {'a', 'b', 'c', 'd', 'e', 'f', 'g', 'h', 'i', 'j', 'k', 'l', 'm', 'n', 'o', 'p', 'q', 'r', 's', 't', 'u', 'v', 'w', 'x', 'y', 'z'}
            || c in {'A', 'B', 'C', 'D', 'E', 'F', 'G', 'H', 'I', 'J', 'K', 'L', 'M', 'N', 'O', 'P', 'Q', 'R', 'S', 'T', 'U', 'V', 'W', 'X', 'Y', 'Z'}
  {
  }

  function ShellQuoteArg(s: string): string {
    if s == "" then "''"
    else if forall i :: 0 <= i < |s| ==> Safe(s[i]) then s
    else "'" + ReplaceQuotes(s, CLOSE_DOUBLE_OPEN) + "'"
  }

  function QuoteEach(args: seq<string>): (parts: seq<string>)
    ensures |parts| == |args| && forall i :: 0 <= i < |args| ==> parts[i] == CliShellQuote(args[i])
  {
    if args == [] then [] else [CliShellQuote(args[0])] + QuoteEach(args[1..])
  }

  function QuoteArgEach(args: seq<string>): (parts: seq<string>)
    ensures |parts| == |args| && forall i :: 0 <= i < |args| ==> parts[i] == ShellQuoteArg(args[i])
  {
    if args == [] then [] else [ShellQuoteArg(args[0])] + QuoteArgEach(args[1..])
  }

  function BuildExecCommand(args: seq<string>, shellMode: bool): string {
    if shellMode || |args| == 1 then Join(args, " ") else Join(QuoteEach(args), " ")
  }

  method JoinShellArgs(args: seq<string>) returns (command: string)
    ensures command == Join(QuoteEach(args), " ")
  {
    var parts: seq<string> := [];
    for i := 0 to |args|
      invariant |parts| == i && forall j :: 0 <= j < i ==> parts[j] == CliShellQuote(args[j])
    {
      parts := parts + [CliShellQuote(args[i])];
    }
    assert parts == QuoteEach(args);
    return Join(parts, " ");
  }

  method ShellJoin(args: seq<string>) returns (command: string)
    ensures command == Join(QuoteArgEach(args), " ")
  {
    var out: seq<string> := [];
    for i := 0 to |args|
      invariant |out| == i && forall j :: 0 <= j < i ==> out[j] == ShellQuoteArg(args[j])
    {
      out := out + [ShellQuoteArg(args[i])];
    }
    assert out == QuoteArgEach(args);
    return Join(out, " ");
  }

  method JoinArgs(args: seq<string>) returns (result: string)
    ensures result == Join(args, " ")
  {
    result := "";
    for i := 0 to |args|
      invariant result == Join(args[..i], " ")
    {
      assert args[..i + 1] == args[..i] + [args[i]];
      JoinSnoc(args[..i], args[i], " ");
      if i > 0 {
        result := result + " ";
      }
      result := result + args[i];
    }
    assert args[..|args|] == args;
  }

  method RunBuildExecCommand(args: seq<string>, shellMode: bool) returns (command: string)
    ensures command == BuildExecCommand(args, shellMode)
  {
    if shellMode || |args| == 1 {
      command := JoinArgs(args);
    } else {
      command := JoinShellArgs(args);
    }
  }

  // ----- The reader -----

  datatype Mode = Plain | Escaped | Single | Double | DoubleEscaped

  datatype Reader = Rejected | Reader(mode: Mode, inWord: bool, word: string, words: seq<string>)

  predicate Blank(c: char) {
    c == ' ' || c == '\t'
  }

  // Characters that are more than themselves outside quotes, besides the quoting characters and blanks.
  predicate Special(c: char) {
    c in {'|', '&', ';', '<', '>', '(', ')', '$', '`', '\n', '*', '?', '[', '#', '~', '%'}
  }

  function Push(r: Reader, mode: Mode, text: string): Reader
    requires r.Reader?
  {
    Reader(mode, true, r.word + text, r.words)
  }

  function EndWord(r: Reader): Reader
    requires r.Reader?
  {
    Reader(Plain, false, "", if r.inWord then r.words + [r.word] else r.words)
  }

  function Step(r: Reader, c: char): Reader {
    if r.Rejected? then Rejected
    else
      match r.mode
      case Plain =>
        if c == '\'' then Push(r, Single, "")
        else if c == '"' then Push(r, Double, "")
        else if c == '\\' then r.(mode := Escaped)
        else if Blank(c) then EndWord(r)
        else if Special(c) then Rejected
        else Push(r, Plain, [c])
      case Escaped => if c == '\n' then r.(mode := Plain) else Push(r, Plain, [c])
      case Single => if c == '\'' then Push(r, Plain, "") else Push(r, Single, [c])
      case Double =>
        if c == '"' then Push(r, Plain, "")
        else if c == '\\' then r.(mode := DoubleEscaped)
        else if c == '$' || c == '`' then Rejected
        else Push(r, Double, [c])
      case DoubleEscaped =>
        if c == '\n' then r.(mode := Double)
        else if c in {'$', '`', '"', '\\'} then Push(r, Double, [c])
        else Push(r, Double, ['\\', c])
  }

  function Feed(r: Reader, s: string): Reader
    decreases |s|
  {
    if s == "" then r else Feed(Step(r, s[0]), s[1..])
  }

  function Finish(r: Reader): Option<seq<string>> {
    if r.Reader? && r.mode == Plain then Some(EndWord(r).words) else None
  }

  function ReadWords(s: string): Option<seq<string>> {
    Finish(Feed(Reader(Plain, false, "", []), s))
  }

  lemma {:induction false} FeedAppend(r: Reader, a: string, b: string)
    ensures Feed(r, a + b) == Feed(Feed(r, a), b)
    decreases |a|
  {
    if a == "" {
      assert a + b == b;
    } else {
      assert (a + b)[1..] == a[1..] + b;
      FeedAppend(Step(r, a[0]), a[1..], b);
    }
  }

  lemma FeedOne(r: Reader, c: char)
    ensures Feed(r, [c]) == Step(r, c)
  {
    assert [c][1..] == "";
  }

  lemma FeedCons(r: Reader, c: char, rest: string)
    ensures Feed(r, [c] + rest) == Feed(Step(r, c), rest)
  {
    assert ([c] + rest)[1..] == rest;
  }

  // Inside double quotes a backslash takes the meaning from the four characters that have one there.
  function Escape(s: string): string {
    if s == "" then "" else (if s[0] in {'$', '`', '"', '\\'} then ['\\', s[0]] else [s[0]]) + Escape(s[1..])
  }

  lemma {:induction false} EscapedBodyReads(word: string, words: seq<string>, s: string)
    ensures Feed(Reader(Double, true, word, words), Escape(s)) == Reader(Double, true, word + s, words)
    decreases |s|
  {
    var r := Reader(Double, true, word, words);
    if s == "" {
      assert word + s == word;
    } else {
      var c, rest := s[0], Escape(s[1..]);
      EscapedBodyReads(word + [c], words, s[1..]);
      assert word + [c] + s[1..] == word + s;
      if c in {'$', '`', '"', '\\'} {
        assert ['\\', c] + rest == ['\\'] + ([c] + rest);
        FeedCons(r, '\\', [c] + rest);
        FeedCons(Step(r, '\\'), c, rest);
      } else {
        FeedCons(r, c, rest);
      }
    }
  }

  // The reader takes any text in double quotes, escaped so, for one word: that text. At a dollar sign or a backquote that
  // is not escaped it gives up.
  lemma DoubleQuotedReads(s: string)
    ensures ReadWords(['"'] + (Escape(s) + ['"'])) == Some([s])
    ensures forall c :: c in {'$', '`'} ==> Step(Reader(Double, true, s, []), c) == Rejected
  {
    var r := Reader(Plain, false, "", []);
    FeedCons(r, '"', Escape(s) + ['"']);
    FeedAppend(Step(r, '"'), Escape(s), ['"']);
    EscapedBodyReads("", [], s);
    assert "" + "" == "" && "" + s == s && s + "" == s;
    assert Step(r, '"') == Reader(Double, true, "", []);
    FeedOne(Reader(Double, true, s, []), '"');
    assert Step(Reader(Double, true, s, []), '"') == Reader(Plain, true, s, []);
    assert [] + [s] == [s];
  }

  // Both ways of writing a single quote inside single quotes add just that quote.
  lemma WrittenQuotes(word: string, words: seq<string>)
    ensures Feed(Reader(Single, true, word, words), CLOSE_ESCAPE_OPEN) == Reader(Single, true, word + "'", words)
    ensures Feed(Reader(Single, true, word, words), CLOSE_DOUBLE_OPEN) == Reader(Single, true, word + "'", words)
  {
    var r := Reader(Single, true, word, words);
    assert word + "" == word && (word + "'") + "" == word + "'";
    assert CLOSE_ESCAPE_OPEN == ['\''] + (['\\'] + (['\''] + ['\'']));
    FeedCons(r, '\'', ['\\'] + (['\''] + ['\'']));
    FeedCons(Step(r, '\''), '\\', ['\''] + ['\'']);
    FeedCons(Step(Step(r, '\''), '\\'), '\'', ['\'']);
    FeedOne(Step(Step(Step(r, '\''), '\\'), '\''), '\'');
    assert CLOSE_DOUBLE_OPEN == ['\''] + (['"'] + (['\''] + (['"'] + ['\''])));
    FeedCons(r, '\'', ['"'] + (['\''] + (['"'] + ['\''])));
    FeedCons(Step(r, '\''), '"', ['\''] + (['"'] + ['\'']));
    FeedCons(Step(Step(r, '\''), '"'), '\'', ['"'] + ['\'']);
    FeedCons(Step(Step(Step(r, '\''), '"'), '\''), '"', ['\'']);
    FeedOne(Step(Step(Step(Step(r, '\''), '"'), '\''), '"'), '\'');
  }

  lemma {:induction false} QuotedBodyReads(word: string, words: seq<string>, s: string, patch: string)
    requires patch == CLOSE_ESCAPE_OPEN || patch == CLOSE_DOUBLE_OPEN
    ensures Feed(Reader(Single, true, word, words), ReplaceQuotes(s, patch)) == Reader(Single, true, word + s, words)
    decreases |s|
  {
    if s == "" {
      assert word + s == word;
    } else {
      var r := Reader(Single, true, word, words);
      var head := if s[0] == '\'' then patch else [s[0]];
      FeedAppend(r, head, ReplaceQuotes(s[1..], patch));
      if s[0] == '\'' {
        WrittenQuotes(word, words);
      } else {
        FeedOne(r, s[0]);
      }
      QuotedBodyReads(word + [s[0]], words, s[1..], patch);
      assert word + [s[0]] + s[1..] == word + s;
    }
  }

  // A written argument reads as itself, at the start of any word.
  ghost predicate ReadsAs(written: string, arg: string) {
    forall words :: Feed(Reader(Plain, false, "", words), written) == Reader(Plain, true, arg, words)
  }

  lemma QuotedReads(s: string, patch: string)
    requires patch == CLOSE_ESCAPE_OPEN || patch == CLOSE_DOUBLE_OPEN
    ensures ReadsAs("'" + ReplaceQuotes(s, patch) + "'", s)
  {
    forall words
      ensures Feed(Reader(Plain, false, "", words), "'" + ReplaceQuotes(s, patch) + "'") == Reader(Plain, true, s, words)
    {
      var r := Reader(Plain, false, "", words);
      FeedAppend(r, "'" + ReplaceQuotes(s, patch), "'");
      FeedAppend(r, "'", ReplaceQuotes(s, patch));
      FeedOne(r, '\'');
      QuotedBodyReads("", words, s, patch);
      FeedOne(Reader(Single, true, s, words), '\'');
      assert "'" == ['\''] && "" + "" == "" && "" + s == s && s + "" == s;
    }
  }

  lemma {:induction false} OrdinaryReads(word: string, inWord: bool, words: seq<string>, s: string)
    requires forall i :: 0 <= i < |s| ==> Ordinary(s[i])
    ensures Feed(Reader(Plain, inWord, word, words), s) == Reader(Plain, inWord || s != "", word + s, words)
    decreases |s|
  {
    if s == "" {
      assert word + s == word;
    } else {
      OrdinaryReads(word + [s[0]], true, words, s[1..]);
      assert word + [s[0]] + s[1..] == word + s;
    }
  }

  // A character that means itself outside quotes.
  predicate Ordinary(c: char) {
    c != '\'' && c != '"' && c != '\\' && !Blank(c) && !Special(c)
  }

  lemma ShellQuoteArgReads(s: string)
    ensures ReadsAs(ShellQuoteArg(s), s)
  {
    if s == "" {
      QuotedReads(s, CLOSE_DOUBLE_OPEN);
      assert "'" + "" + "'" == "''";
    } else if forall i :: 0 <= i < |s| ==> Safe(s[i]) {
      forall words
        ensures Feed(Reader(Plain, false, "", words), s) == Reader(Plain, true, s, words)
      {
        OrdinaryReads("", false, words, s);
        assert "" + s == s;
      }
    } else {
      QuotedReads(s, CLOSE_DOUBLE_OPEN);
    }
  }

  lemma {:induction false} JoinedReads(parts: seq<string>, args: seq<string>, words: seq<string>)
    requires |parts| == |args| && forall i :: 0 <= i < |args| ==> ReadsAs(parts[i], args[i])
    ensures Finish(Feed(Reader(Plain, false, "", words), Join(parts, " "))) == Some(words + args)
    decreases |parts|
  {
    var r := Reader(Plain, false, "", words);
    if parts == [] {
      assert words + args == words;
    } else if |parts| == 1 {
      assert args == [args[0]];
      assert ReadsAs(parts[0], args[0]);
    } else {
      assert ReadsAs(parts[0], args[0]);
      FeedAppend(r, parts[0] + " ", Join(parts[1..], " "));
      FeedAppend(r, parts[0], " ");
      FeedOne(Reader(Plain, true, args[0], words), ' ');
      JoinedReads(parts[1..], args[1..], words + [args[0]]);
      assert words + [args[0]] + args[1..] == words + args;
    }
  }

  // ----- The main results -----

  // A shell reads back exactly the arguments, whatever they contain.
  lemma JoinShellArgsRoundTrip(args: seq<string>)
    ensures ReadWords(Join(QuoteEach(args), " ")) == Some(args)
  {
    forall i | 0 <= i < |args|
      ensures ReadsAs(QuoteEach(args)[i], args[i])
    {
      QuotedReads(args[i], CLOSE_ESCAPE_OPEN);
    }
    JoinedReads(QuoteEach(args), args, []);
    assert [] + args == args;
  }

  lemma ShellJoinRoundTrip(args: seq<string>)
    ensures ReadWords(Join(QuoteArgEach(args), " ")) == Some(args)
  {
    forall i | 0 <= i < |args|
      ensures ReadsAs(QuoteArgEach(args)[i], args[i])
    {
      ShellQuoteArgReads(args[i]);
    }
    JoinedReads(QuoteArgEach(args), args, []);
    assert [] + args == args;
  }

  // A command inside a command: reading the outer words and then the inner one gives back the inner arguments.
  lemma NestedRoundTrip(outer: seq<string>, k: nat, inner: seq<string>)
    requires k < |outer| && (outer[k] == Join(QuoteEach(inner), " ") || outer[k] == Join(QuoteArgEach(inner), " "))
    ensures ReadWords(Join(QuoteEach(outer), " ")) == ReadWords(Join(QuoteArgEach(outer), " ")) == Some(outer)
    ensures ReadWords(outer[k]) == Some(inner)
  {
    JoinShellArgsRoundTrip(outer);
    ShellJoinRoundTrip(outer);
    JoinShellArgsRoundTrip(inner);
    ShellJoinRoundTrip(inner);
  }

  // ----- The single argument of an exec command is not quoted -----

  // How much of the text read so far can still become part of words.
  function Size(r: Reader): nat {
    if r.Rejected? then 0 else TotalLength(r.words) + |r.word| + (if r.mode == DoubleEscaped then 1 else 0)
  }

  function TotalLength(words: seq<string>): nat {
    if words == [] then 0 else TotalLength(words[..|words| - 1]) + |words[|words| - 1]|
  }

  lemma SizeAfterStep(r: Reader, c: char)
    requires r.Reader? && !r.inWord ==> r.word == ""
    ensures Size(Step(r, c)) <= Size(r) + 1
    ensures r.Reader? && r.mode == Plain && !Ordinary(c) ==> Size(Step(r, c)) <= Size(r)
    ensures Step(r, c).Reader? && !Step(r, c).inWord ==> Step(r, c).word == ""
  {
    if r.Reader? {
      assert (r.words + [r.word])[..|r.words|] == r.words;
    }
  }

  lemma {:induction false} SizeAfterFeed(r: Reader, s: string)
    requires r.Reader? && !r.inWord ==> r.word == ""
    ensures Size(Feed(r, s)) <= Size(r) + |s|
    ensures Feed(r, s).Reader? && !Feed(r, s).inWord ==> Feed(r, s).word == ""
    decreases |s|
  {
    if s != "" {
      SizeAfterStep(r, s[0]);
      SizeAfterFeed(Step(r, s[0]), s[1..]);
    }
  }

  lemma {:induction false} UnquotedLoses(r: Reader, s: string)
    requires r.Reader? && r.mode == Plain && (!r.inWord ==> r.word == "")
    requires exists i :: 0 <= i < |s| && !Ordinary(s[i])
    ensures Size(Feed(r, s)) < Size(r) + |s|
    decreases |s|
  {
    SizeAfterStep(r, s[0]);
    if !Ordinary(s[0]) {
      SizeAfterFeed(Step(r, s[0]), s[1..]);
    } else {
      var i :| 0 <= i < |s| && !Ordinary(s[i]);
      assert s[1..][i - 1] == s[i];
      UnquotedLoses(Step(r, s[0]), s[1..]);
    }
  }

  lemma FinishSize(r: Reader)
    requires r.Reader? && !r.inWord ==> r.word == ""
    ensures Finish(r).Some? ==> TotalLength(Finish(r).value) <= Size(r)
  {
    if r.Reader? {
      assert (r.words + [r.word])[..|r.words|] == r.words;
    }
  }

  lemma ReadsAsItselfIff(s: string)
    ensures ReadWords(s) == Some([s]) <==> s != "" && forall i :: 0 <= i < |s| ==> Ordinary(s[i])
  {
    var r := Reader(Plain, false, "", []);
    if forall i :: 0 <= i < |s| ==> Ordinary(s[i]) {
      OrdinaryReads("", false, [], s);
      assert "" + s == s && [] + [s] == [s];
    } else {
      UnquotedLoses(r, s);
      SizeAfterFeed(r, s);
      FinishSize(Feed(r, s));
      assert [s][..0] == [];
      assert TotalLength([s]) == |s|;
    }
  }

  // Every argument list but a single one round-trips; a single one is passed on as shell text, and reads as itself
  // exactly when it is a word without a character the shell treats specially.
  lemma BuildExecCommandRoundTripIff(args: seq<string>)
    ensures ReadWords(BuildExecCommand(args, false)) == Some(args) <==>
            (|args| == 1 ==> args[0] != "" && forall i :: 0 <= i < |args[0]| ==> Ordinary(args[0][i]))
  {
    if |args| == 1 {
      assert args == [args[0]];
      ReadsAsItselfIff(args[0]);
    } else {
      JoinShellArgsRoundTrip(args);
    }
  }

  // In shell mode the arguments are passed on as they are, one after the other with a blank between them.
  lemma ShellModeIsUnquoted(first: seq<string>, rest: seq<string>, arg: string)
    ensures BuildExecCommand([], true) == "" && BuildExecCommand([arg], true) == arg
    ensures first != [] && rest != [] ==> BuildExecCommand(first + rest, true) == BuildExecCommand(first, true) + " " + BuildExecCommand(rest, true)
  {
    if first != [] && rest != [] {
      JoinAppend(first, rest, " ");
    }
  }
}
