/**
 Reading one field of the project configuration of cmd/aexp/main.go, and what it makes of a printed train section:
 comments, quotes, and the markers that announce a block.
 */
module TrainConfig {
  import opened Outcomes
  import opened Text
  import opened Seqs
  import opened BlockScalar

  // ----- The reader of one line -----

  predicate IsBlankChar(c: char) {
    c == ' ' || c == '\t'
  }

  // Where a comment starts, or the length: at a number sign outside quotes, first or behind a blank.
  function CommentAt(s: string, behindBlank: bool, inSingle: bool, inDouble: bool): (i: nat)
    ensures i <= |s|
    decreases |s|
  {
    if s == "" then 0
    else if s[0] == '\'' then 1 + CommentAt(s[1..], false, if inDouble then inSingle else !inSingle, inDouble)
    else if s[0] == '"' then 1 + CommentAt(s[1..], false, inSingle, if inSingle then inDouble else !inDouble)
    else if s[0] == '#' && !inSingle && !inDouble && behindBlank then 0
    else 1 + CommentAt(s[1..], IsBlankChar(s[0]), inSingle, inDouble)
  }

  function TrimBlanks(s: string): (t: string)
    ensures |t| <= |s|
  {
    if s != "" && IsBlankChar(s[|s| - 1]) then TrimBlanks(s[..|s| - 1]) else s
  }

  function StripComment(line: string): string {
    TrimBlanks(line[..CommentAt(line, true, false, false)])
  }

  // The loop over the characters, with the two quote flags.
  method StripProjectConfigComment(line: string) returns (out: string)
    ensures out == StripComment(line)
  {
    var inSingle, inDouble := false, false;
    assert line[0..] == line;
    for i := 0 to |line|
      invariant CommentAt(line, true, false, false) ==
                i + CommentAt(line[i..], i == 0 || IsBlankChar(line[i - 1]), inSingle, inDouble)
    {
      assert line[i..][1..] == line[i + 1..];
      match line[i] {
        case '\'' =>
          if !inDouble {
            inSingle := !inSingle;
          }
        case '"' =>
          if !inSingle {
            inDouble := !inDouble;
          }
        case '#' =>
          if !inSingle && !inDouble && (i == 0 || line[i - 1] == ' ' || line[i - 1] == '\t') {
            return TrimBlanks(line[..i]);
          }
        case _ =>
      }
    }
    assert line[..|line|] == line;
    return TrimBlanks(line);
  }

  // ----- What a comment is -----

  // The quote that is open behind a text, if any: a quote opens, and closes at the next of its kind.
  function OpenQuote(s: string): (quote: Option<char>)
    ensures quote in {None, Some('"'), Some('\'')}
  {
    if s == "" then None
    else
      var before, c := OpenQuote(s[..|s| - 1]), s[|s| - 1];
      if before == Some(c) then None
      else if before.None? && (c == '"' || c == '\'') then Some(c)
      else before
  }

  // A number sign outside quotes, first in the line or behind a blank.
  ghost predicate CommentStarts(s: string, i: nat) {
    i < |s| && s[i] == '#' && OpenQuote(s[..i]).None? && (i == 0 || s[i - 1] == ' ' || s[i - 1] == '\t')
  }

  lemma {:induction false} CommentFrom(s: string, k: nat)
    requires k <= |s|
    ensures var q := OpenQuote(s[..k]);
            var i := k + CommentAt(s[k..], k == 0 || IsBlankChar(s[k - 1]), q == Some('\''), q == Some('"'));
            i <= |s| && (i < |s| ==> CommentStarts(s, i)) && forall j :: k <= j < i ==> !CommentStarts(s, j)
    decreases |s| - k
  {
    if k < |s| {
      CommentFrom(s, k + 1);
      assert s[..k + 1][..k] == s[..k] && s[k..][1..] == s[k + 1..];
    }
  }

  // The comment that is cut off starts at the first place where one starts.
  lemma CommentAtIsFirst(line: string)
    ensures var i := CommentAt(line, true, false, false);
            i <= |line| && (i < |line| ==> CommentStarts(line, i)) && forall j :: 0 <= j < i ==> !CommentStarts(line, j)
  {
    CommentFrom(line, 0);
    assert line[0..] == line && line[..0] == "";
  }

  lemma {:induction false} TrimBlanksCuts(s: string)
    ensures var t := TrimBlanks(s);
            && |t| <= |s| && t == s[..|t|]
            && (forall i :: |t| <= i < |s| ==> s[i] == ' ' || s[i] == '\t')
            && (t != "" ==> t[|t| - 1] != ' ' && t[|t| - 1] != '\t')
  {
    if s != "" && IsBlankChar(s[|s| - 1]) {
      TrimBlanksCuts(s[..|s| - 1]);
    }
  }

  // What is left of a line: its beginning, up to the first comment or the end, without the blanks in front of that.
  lemma StripCommentMeans(line: string) returns (i: nat)
    ensures i <= |line| && (i < |line| ==> CommentStarts(line, i)) && forall j :: 0 <= j < i ==> !CommentStarts(line, j)
    ensures var out := StripComment(line);
            && |out| <= i && out == line[..|out|]
            && (forall j :: |out| <= j < i ==> line[j] == ' ' || line[j] == '\t')
            && (out != "" ==> out[|out| - 1] != ' ' && out[|out| - 1] != '\t')
  {
    CommentAtIsFirst(line);
    i := CommentAt(line, true, false, false);
    TrimBlanksCuts(line[..i]);
  }

  // ----- Values -----

  predicate Quoted(s: string) {
    |s| >= 2 && s[0] == s[|s| - 1] && (s[0] == '"' || s[0] == '\'')
  }

  function Unquote(s: string): (t: string)
    ensures |t| <= |s| && (Quoted(s) ==> |t| < |s|)
  {
    if Quoted(s) then s[1..|s| - 1] else s
  }

  function CleanValue(value: string): string {
    Unquote(TrimSpace(value))
  }

  function ColonAt(s: string): (i: nat)
    ensures i <= |s|
  {
    if s == "" || s[0] == ':' then 0 else 1 + ColonAt(s[1..])
  }

  predicate IsMarker(value: string) {
    value == "|" || value == "|-" || value == "|+"
  }

  // What one field is read as, and the index of its last line; a line without a colon is an error. Blank lines and list
  // items are not fields.
  datatype Field = Field(key: string, value: string, last: int)

  function ReadField(lines: seq<string>, i: nat): Option<Field>
    requires i < |lines|
  {
    var line := StripComment(lines[i]);
    var trimmed := TrimSpace(line);
    var colon := ColonAt(trimmed);
    if colon == |trimmed| then None
    else
      var key, value := TrimSpace(trimmed[..colon]), CleanValue(trimmed[colon + 1..]);
      if IsMarker(value) then
        var (block, last) := Collect(lines, i + 1, LeadingSpaces(line));
        Some(Field(key, block, last))
      else Some(Field(key, value, i))
  }

  // ----- Trimming what was put together -----

  lemma {:induction false} TrimRightAppend(a: string, b: string)
    ensures TrimRight(a + b) == if IsBlank(b) then TrimRight(a) else a + TrimRight(b)
    decreases |b|
  {
    IsBlankAt(b);
    if b == "" {
      assert a + b == a;
    } else {
      var n := |b| - 1;
      assert (a + b)[|a + b| - 1] == b[n];
      assert (a + b)[..|a + b| - 1] == a + b[..n];
      assert b[..n] + [b[n]] == b;
      if IsSpace(b[n]) {
        TrimRightAppend(a, b[..n]);
        IsBlankAppend(b[..n], [b[n]]);
      }
    }
  }

  // Trimming blanks from the end first makes no difference to trimming all white space.
  lemma {:induction false} TrimBlanksFirst(s: string)
    ensures TrimRight(TrimBlanks(s)) == TrimRight(s)
  {
    if s != "" && IsBlankChar(s[|s| - 1]) {
      TrimBlanksFirst(s[..|s| - 1]);
    }
  }

  lemma {:induction false} BlankTrimsAway(s: string)
    requires IsBlank(s)
    ensures TrimLeft(s) == "" && TrimRight(s) == ""
  {
    IsBlankAt(s);
    if s != "" {
      BlankTrimsAway(s[1..]);
      var n := |s| - 1;
      IsBlankAt(s[..n]);
      BlankRightAway(s);
    }
  }

  lemma {:induction false} BlankRightAway(s: string)
    requires forall i :: 0 <= i < |s| ==> IsSpace(s[i])
    ensures TrimRight(s) == ""
  {
    if s != "" {
      BlankRightAway(s[..|s| - 1]);
    }
  }

  // Left and right trimming may be done in either order.
  lemma {:induction false} TrimOrder(s: string)
    ensures TrimSpace(s) == TrimLeft(TrimRight(s))
  {
    if IsBlank(s) {
      BlankTrimsAway(s);
    } else if IsSpace(s[0]) {
      TrimOrder(s[1..]);
      TrimRightAppend([s[0]], s[1..]);
      assert s == [s[0]] + s[1..];
      assert ([s[0]] + TrimRight(s[1..]))[1..] == TrimRight(s[1..]);
    } else {
      TrimRightEnds(s);
    }
  }

  lemma {:induction false} TrimmedLength(s: string)
    ensures |TrimSpace(s)| <= |s|
    ensures |TrimSpace(s)| == |s| ==> TrimSpace(s) == s
  {
    TrimLeftLength(s);
    TrimRightLength(TrimLeft(s));
  }

  lemma {:induction false} TrimLeftLength(s: string)
    ensures |TrimLeft(s)| == |s| ==> TrimLeft(s) == s
  {
    if s != "" && IsSpace(s[0]) {
      assert |TrimLeft(s[1..])| < |s|;
    }
  }

  lemma {:induction false} TrimRightLength(s: string)
    ensures |TrimRight(s)| == |s| ==> TrimRight(s) == s
  {
    if s != "" && IsSpace(s[|s| - 1]) {
      assert |TrimRight(s[..|s| - 1])| < |s|;
    }
  }

  // ----- A command of one line -----

  // What is read of a command printed on one line: the text before a comment, trimmed, and without outer quotes.
  function Kept(command: string): string {
    command[..CommentAt(command, true, false, false)]
  }

  lemma {:induction false} NoCommentInside(p: string, s: string, behindBlank: bool)
    requires p != "" && Unmarked(p)
    ensures CommentAt(p + s, behindBlank, false, false) == |p| + CommentAt(s, IsBlankChar(p[|p| - 1]), false, false)
    decreases |p|
  {
    assert (p + s)[1..] == p[1..] + s;
    if |p| > 1 {
      NoCommentInside(p[1..], s, IsBlankChar(p[0]));
    } else {
      assert p[1..] + s == s;
    }
  }

  // The start of a field in a section.
  function FieldName(name: string): string {
    "  " + name + ":"
  }

  predicate PlainName(name: string) {
    name != "" && !IsSpace(name[0]) && forall i :: 0 <= i < |name| ==> name[i] !in {':', '\'', '"', '#'}
  }

  // Trimming a text whose front part ends in ink.
  lemma TrimBehind(front: string, x: string)
    requires front != "" && !IsSpace(front[|front| - 1])
    ensures TrimSpace(TrimBlanks(front + x)) == TrimLeft(front + TrimRight(x))
  {
    TrimBlanksFirst(front + x);
    TrimOrder(TrimBlanks(front + x));
    TrimRightAppend(front, x);
    if IsBlank(x) {
      BlankTrimsAway(x);
      assert front + "" == front;
    }
  }

  lemma TwoSpaces(s: string)
    requires s != "" && !IsSpace(s[0])
    ensures TrimLeft("  " + s) == s && LeadingSpaces("  " + s) == 2
  {
    OneSpace(s);
    OneSpace(" " + s);
    assert "  " + s == " " + (" " + s);
  }

  lemma OneSpace(s: string)
    ensures TrimLeft(" " + s) == TrimLeft(s) && LeadingSpaces(" " + s) == 1 + LeadingSpaces(s)
  {
    assert (" " + s)[1..] == s;
  }

  // Holds no character that matters for comments.
  ghost predicate Unmarked(p: string) {
    forall i :: 0 <= i < |p| ==> p[i] != '\'' && p[i] != '"' && p[i] != '#'
  }

  lemma UnmarkedField(name: string)
    requires PlainName(name)
    ensures Unmarked(FieldName(name)) && Unmarked(FieldName(name) + " ")
  {
  }

  lemma CommentBehind(line: string, p: string, text: string)
    requires line == p + text && p != "" && p[|p| - 1] == ' ' && Unmarked(p)
    ensures CommentAt(line, true, false, false) == |p| + CommentAt(text, true, false, false)
  {
    NoCommentInside(p, text, true);
  }

  lemma BeforeComment(front: string, text: string)
    requires Unmarked(front + " ")
    ensures StripComment(front + (" " + text)) == TrimBlanks(front + (" " + Kept(text)))
  {
    SpaceBetween(front, text, CommentAt(text, true, false, false));
    CommentBehind(front + (" " + text), front + " ", text);
  }

  lemma SpaceBetween(front: string, text: string, n: nat)
    requires n <= |text|
    ensures front + (" " + text) == front + " " + text
    ensures (front + (" " + text))[..|front| + 1 + n] == front + (" " + text[..n])
  {
  }

  // A field's line: what is before the comment, then trimmed.
  lemma FieldLine(name: string, text: string)
    requires PlainName(name)
    ensures StripComment(FieldName(name) + (" " + text)) == TrimBlanks(FieldName(name) + (" " + Kept(text)))
    ensures TrimSpace(StripComment(FieldName(name) + (" " + text))) == name + ":" + TrimRight(" " + Kept(text))
  {
    var front, kept := FieldName(name), Kept(text);
    var rest := TrimRight(" " + kept);
    UnmarkedField(name);
    BeforeComment(front, text);
    TrimBehind(front, " " + kept);
    assert front + rest == "  " + (name + ":" + rest);
    assert (name + ":" + rest)[0] == name[0];
    TwoSpaces(name + ":" + rest);
  }

  lemma {:induction false} ColonBehind(name: string, rest: string)
    requires forall i :: 0 <= i < |name| ==> name[i] != ':'
    ensures ColonAt(name + ":" + rest) == |name|
  {
    if name != "" {
      assert (name + ":" + rest)[1..] == name[1..] + ":" + rest;
      ColonBehind(name[1..], rest);
    }
  }

  // The value read from such a line.
  lemma FieldValue(lines: seq<string>, i: nat, name: string, text: string)
    requires i < |lines| && lines[i] == FieldName(name) + (" " + text)
    requires PlainName(name) && TrimSpace(name) == name
    ensures var value := Unquote(TrimSpace(Kept(text)));
            ReadField(lines, i) ==
            if IsMarker(value) then
              var (block, last) := Collect(lines, i + 1, 2);
              Some(Field(name, block, last))
            else Some(Field(name, value, i))
  {
    var rest := TrimRight(" " + Kept(text));
    FieldLine(name, text);
    ColonBehind(name, rest);
    var trimmed := name + ":" + rest;
    assert trimmed[..|name|] == name && trimmed[|name| + 1..] == rest;
    ValueOfRest(Kept(text));
    IndentOfField(name, " " + Kept(text));
  }

  lemma ValueOfRest(kept: string)
    ensures TrimSpace(TrimRight(" " + kept)) == TrimSpace(kept)
  {
    TrimOrder(" " + kept);
    TrimOrder(TrimRight(" " + kept));
    TrimRightEnds(" " + kept);
    assert (" " + kept)[1..] == kept;
    assert TrimRight(TrimRight(" " + kept)) == TrimRight(" " + kept);
  }

  lemma IndentOfField(name: string, x: string)
    requires PlainName(name)
    ensures LeadingSpaces(TrimBlanks(FieldName(name) + x)) == 2
  {
    var line, n := FieldName(name) + x, |FieldName(name)|;
    TrimBlanksKeeps(line, n);
    var out := TrimBlanks(line);
    assert out[2..][0] == name[0];
    assert out == "  " + out[2..];
    TwoSpaces(out[2..]);
  }

  lemma {:induction false} TrimBlanksKeeps(s: string, n: nat)
    requires 0 < n <= |s| && !IsBlankChar(s[n - 1])
    ensures n <= |TrimBlanks(s)| && TrimBlanks(s) == s[..|TrimBlanks(s)|]
  {
    if IsBlankChar(s[|s| - 1]) {
      TrimBlanksKeeps(s[..|s| - 1], n);
    }
  }

  function OneLine(before: seq<string>, command: string, post: seq<string>): seq<string> {
    before + ([FieldName("command") + (" " + command)] + ([FOOTER] + post))
  }

  // A command of one line is read back exactly when it has no white space around it, no comment in it, no quotes around
  // it, and does not look like the marker of a block.
  lemma OneLineRoundTripIff(lines: seq<string>, i: nat, command: string)
    requires i + 1 < |lines| && lines[i] == FieldName("command") + (" " + command) && lines[i + 1] == FOOTER
    requires !IsBlank(command)
    ensures ReadField(lines, i).Some? && ReadField(lines, i).value.key == "command" && ReadField(lines, i).value.last == i
    ensures ReadField(lines, i).value.value == command <==> ReadsBack(command)
  {
    CommandIsPlain();
    FooterEndsBlock();
    NoBlock(lines, i + 1, FOOTER, lines[i + 2..]);
    FieldRoundTripIff(lines, i, "command", command);
  }

  ghost predicate ReadsBack(text: string) {
    && TrimSpace(text) == text
    && (forall i :: 0 <= i < |text| ==> !CommentStarts(text, i))
    && !(|text| >= 2 && text[0] == text[|text| - 1] && text[0] in {'"', '\''})
    && text !in {"|", "|-", "|+"}
  }

  lemma ReadsBackIff(text: string)
    ensures ReadsBack(text) <==> TrimSpace(text) == text && CommentAt(text, true, false, false) == |text| && !Quoted(text) && !IsMarker(text)
  {
    CommentAtIsFirst(text);
  }

  // The same for any field, where no block follows.
  lemma FieldRoundTripIff(lines: seq<string>, i: nat, name: string, text: string)
    requires i < |lines| && lines[i] == FieldName(name) + (" " + text)
    requires PlainName(name) && TrimSpace(name) == name && !IsBlank(text)
    requires Collect(lines, i + 1, 2) == ("", i)
    ensures ReadField(lines, i).Some? && ReadField(lines, i).value.key == name && ReadField(lines, i).value.last == i
    ensures ReadField(lines, i).value.value == text <==> ReadsBack(text)
  {
    FieldValue(lines, i, name, text);
    ValueIsCommandIff(text);
    ReadsBackIff(text);
  }

  lemma ValueIsCommandIff(command: string)
    ensures Unquote(TrimSpace(Kept(command))) == command <==>
            TrimSpace(command) == command && CommentAt(command, true, false, false) == |command| && !Quoted(command)
  {
    TrimmedLength(Kept(command));
    if CommentAt(command, true, false, false) == |command| {
      assert Kept(command) == command;
    }
  }

  lemma CommandIsPlain()
    ensures PlainName("command") && TrimSpace("command") == "command"
  {
    var s := "command";
    assert TrimLeft(s) == s && TrimRight(s) == s;
  }

  // A marker in place of a one-line command announces a block, and the next line ends it at once.
  lemma NoBlock(lines: seq<string>, start: nat, footer: string, post: seq<string>)
    requires start <= |lines| && lines[start..] == [footer] + post && !GoesOn(footer, 2)
    ensures Collect(lines, start, 2) == ("", start - 1)
  {
    assert BlockLength(lines[start..], 2) == 0;
    assert lines[start..start] == [];
  }

  // A command of several lines is announced by its header, and read as the block behind it.
  lemma BlockIsRead(before: seq<string>, post: seq<string>, command: string)
    ensures var lines := Config(before + [HEADER], command, post);
            var (block, last) := Collect(lines, |before| + 1, 2);
            ReadField(lines, |before|) == Some(Field("command", block, last))
  {
    var lines := Config(before + [HEADER], command, post);
    CommandIsPlain();
    assert HEADER == FieldName("command") + (" " + "|");
    assert lines[|before|] == HEADER;
    FieldValue(lines, |before|, "command", "|");
    MarkerIsKept();
  }

  lemma MarkerIsKept()
    ensures Unquote(TrimSpace(Kept("|"))) == "|"
  {
    var s := "|";
    assert s[1..] == "";
    assert CommentAt(s, true, false, false) == 1;
    assert Kept(s) == s && TrimLeft(s) == s && TrimRight(s) == s;
  }

  // So reading the field gives back a command of several lines, up to trailing newlines, exactly when a line with ink
  // starts in column 0 and no line consists of white space only.
  lemma BlockFieldRoundTripIff(before: seq<string>, post: seq<string>, command: string)
    requires !IsBlank(command)
    ensures var lines, field := SplitLines(command), ReadField(Config(before + [HEADER], command, post), |before|);
            field.Some? && field.value.key == "command" &&
            (field.value.value == TrimNewlines(command) <==>
             && (exists i :: 0 <= i < |lines| && !IsBlank(lines[i]) && LeadingSpaces(lines[i]) == 0)
             && (forall i :: 0 <= i < |lines| && IsBlank(lines[i]) ==> lines[i] == ""))
  {
    BlockIsRead(before, post, command);
    BlockScalarRoundTripIff(before + [HEADER], post, command);
  }

  // ----- A section that is only a comment -----

  // A comment line leaves nothing to read.
  lemma CommentReadsAsNothing(line: string)
    requires line != "" && line[0] == '#'
    ensures StripComment(line) == ""
  {
    assert line[..0] == "";
  }

  // Each line of the section for an unsafe or blank command is a comment or empty, so the reader takes nothing from it.
  lemma CommentedReadsAsNothing(safe: bool, command: string)
    requires !safe || IsBlank(command)
    ensures forall line :: line in SplitLines(TrainSection(safe, command)) ==> StripComment(line) == ""
  {
    CommentLinesHoldNoFeed();
    ThreeLines(COMMENT_SECTION, COMMENT_COMMAND, COMMENT_KIND);
  }

  lemma CommentLinesHoldNoFeed()
    ensures '\n' !in COMMENT_SECTION && '\n' !in COMMENT_COMMAND && '\n' !in COMMENT_KIND
    ensures COMMENT_SECTION[0] == '#' && COMMENT_COMMAND[0] == '#' && COMMENT_KIND[0] == '#'
  {
    var a, b, c := "#   command: TODO", " replace with the", " real training command";
    assert '\n' !in a && '\n' !in b && '\n' !in c;
    assert COMMENT_COMMAND == a + (b + c) && COMMENT_COMMAND[0] == a[0];
  }

  lemma ThreeLines(a: string, b: string, c: string)
    requires '\n' !in a && '\n' !in b && '\n' !in c
    requires a != "" && a[0] == '#' && b != "" && b[0] == '#' && c != "" && c[0] == '#'
    ensures forall line :: line in SplitLines(a + "\n" + (b + "\n" + (c + "\n" + ""))) ==> StripComment(line) == ""
  {
    SplitCons(a, '\n', b + "\n" + (c + "\n" + ""));
    SplitCons(b, '\n', c + "\n" + "");
    SplitCons(c, '\n', "");
    CommentReadsAsNothing(a);
    CommentReadsAsNothing(b);
    CommentReadsAsNothing(c);
    assert StripComment("") == "";
  }

  // The section for a command of one line splits into its three lines.
  lemma SplitOneLine(command: string)
    requires Without(command, '\n')
    ensures SplitLines("train:\n  command: " + command + "\n" + FOOTER + "\n") == OneLine(["train:"], command, [""])
  {
    var field := FieldName("command") + (" " + command);
    var text := "train:" + "\n" + (field + "\n" + (FOOTER + "\n" + ""));
    assert "train:\n  command: " + command + "\n" + FOOTER + "\n" == text;
    SplitCons("train:", '\n', field + "\n" + (FOOTER + "\n" + ""));
    assert Without(field, '\n');
    SplitCons(field, '\n', FOOTER + "\n" + "");
    SplitCons(FOOTER, '\n', "");
  }

  // ----- The section as a whole -----

  predicate BlockReadsBack(command: string) {
    var lines := SplitLines(command);
    && (exists i :: 0 <= i < |lines| && !IsBlank(lines[i]) && LeadingSpaces(lines[i]) == 0)
    && (forall i :: 0 <= i < |lines| && IsBlank(lines[i]) ==> lines[i] == "")
  }

  // What is printed for a safe command, read again: the field behind the section's name is the command's, and holds the
  // command up to trailing newlines exactly when the command, of one line or of several, is one that reads back.
  lemma TrainSectionRoundTripIff(command: string)
    requires !IsBlank(command)
    ensures var lines := SplitLines(TrainSection(true, command));
            && |lines| > 1
            && var field := ReadField(lines, 1);
               && field.Some? && field.value.key == "command"
               && (field.value.value == TrimNewlines(command) <==> if '\n' in command then BlockReadsBack(command) else ReadsBack(command))
  {
    if '\n' in command {
      SplitPrinted(command);
      BlockFieldRoundTripIff(["train:"], [""], command);
    } else {
      SplitOneLine(command);
      NoNewlineToTrim(command);
      OneLineRoundTripIff(OneLine(["train:"], command, [""]), 1, command);
    }
  }

  lemma NoNewlineToTrim(s: string)
    requires '\n' !in s
    ensures TrimNewlines(s) == s && Without(s, '\n')
  {
  }
}
