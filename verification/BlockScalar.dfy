/**
 Block scalars of the project configuration in cmd/aexp/main.go: the reader of indented blocks, against the printer
 that writes a multi-line train command as one.
 */
module BlockScalar {
  import opened Outcomes
  import opened Text
  import opened Seqs

  // ----- The reader -----

  function LeadingSpaces(s: string): (n: nat)
    ensures n <= |s|
  {
    if s != "" && s[0] == ' ' then 1 + LeadingSpaces(s[1..]) else 0
  }

  // A block goes on over blank lines and lines indented deeper than its parent.
  predicate GoesOn(line: string, parentIndent: nat) {
    IsBlank(line) || LeadingSpaces(line) > parentIndent
  }

  // How many of these lines belong to a block that starts with them.
  function BlockLength(lines: seq<string>, parentIndent: nat): (n: nat)
    ensures n <= |lines|
  {
    if lines != [] && GoesOn(lines[0], parentIndent) then 1 + BlockLength(lines[1..], parentIndent) else 0
  }

  // The least indentation of the lines that are not blank, or -1 when all are.
  function MinIndent(lines: seq<string>): (m: int)
    ensures -1 <= m
  {
    if lines == [] then -1
    else if IsBlank(lines[0]) then MinIndent(lines[1..])
    else Least(LeadingSpaces(lines[0]), MinIndent(lines[1..]))
  }

  function Least(n: nat, m: int): int {
    if m == -1 || n < m then n else m
  }

  lemma {:induction false} MinIndentIsLeast(lines: seq<string>)
    ensures forall i :: 0 <= i < |lines| && !IsBlank(lines[i]) ==> 0 <= MinIndent(lines) <= LeadingSpaces(lines[i])
    ensures MinIndent(lines) >= 0 ==> exists i :: 0 <= i < |lines| && !IsBlank(lines[i]) && LeadingSpaces(lines[i]) == MinIndent(lines)
  {
    if lines != [] {
      MinIndentIsLeast(lines[1..]);
      assert forall i :: 1 <= i < |lines| ==> lines[1..][i - 1] == lines[i];
    }
  }

  lemma {:induction false} MinIndentSnoc(lines: seq<string>, last: string)
    ensures MinIndent(lines + [last]) == if IsBlank(last) then MinIndent(lines) else Least(LeadingSpaces(last), MinIndent(lines))
  {
    if lines == [] {
      assert lines + [last] == [last];
      assert [last][1..] == [];
    } else {
      assert (lines + [last])[1..] == lines[1..] + [last];
      MinIndentSnoc(lines[1..], last);
    }
  }

  function TrimLeftSpaces(s: string): string {
    s[LeadingSpaces(s)..]
  }

  function Dedent(raw: string, indent: nat): string {
    if IsBlank(raw) then "" else if |raw| >= indent then raw[indent..] else TrimLeftSpaces(raw)
  }

  function DedentAll(lines: seq<string>, indent: nat): (out: seq<string>)
    ensures |out| == |lines| && forall i :: 0 <= i < |lines| ==> out[i] == Dedent(lines[i], indent)
  {
    if lines == [] then [] else [Dedent(lines[0], indent)] + DedentAll(lines[1..], indent)
  }

  function TrimNewlines(s: string): string {
    if s != "" && s[|s| - 1] == '\n' then TrimNewlines(s[..|s| - 1]) else s
  }

  // The newlines at the end go and nothing else.
  lemma {:induction false} TrimNewlinesCuts(s: string)
    ensures var t := TrimNewlines(s);
            && |t| <= |s| && t == s[..|t|]
            && (forall i :: |t| <= i < |s| ==> s[i] == '\n')
            && (t != "" ==> t[|t| - 1] != '\n')
  {
    if s != "" && s[|s| - 1] == '\n' {
      TrimNewlinesCuts(s[..|s| - 1]);
    }
  }

  // The text of a block's lines; None when all of them are blank.
  function BlockValue(block: seq<string>): Option<string> {
    if MinIndent(block) == -1 then None else Some(TrimNewlines(Join(DedentAll(block, MinIndent(block)), "\n")))
  }

  function Collect(lines: seq<string>, start: nat, parentIndent: nat): (string, int)
    requires start <= |lines|
  {
    var length := BlockLength(lines[start..], parentIndent);
    Collected(lines[start..start + length], start)
  }

  function Collected(block: seq<string>, start: nat): (string, int) {
    match BlockValue(block)
    case None => ("", start - 1)
    case Some(value) => (value, start + |block| - 1)
  }

  method FindBlock(lines: seq<string>, start: nat, parentIndent: nat) returns (blockIndent: int, end: nat)
    requires start <= |lines|
    ensures end == start + BlockLength(lines[start..], parentIndent) && blockIndent == MinIndent(lines[start..end])
  {
    blockIndent, end := -1, start;
    while end < |lines|
      invariant start <= end <= |lines|
      invariant start + BlockLength(lines[start..], parentIndent) == end + BlockLength(lines[end..], parentIndent)
      invariant blockIndent == MinIndent(lines[start..end])
    {
      var raw := lines[end];
      assert lines[start..end + 1] == lines[start..end] + [raw];
      MinIndentSnoc(lines[start..end], raw);
      if IsBlank(raw) {
        end := end + 1;
        continue;
      }
      var indent := LeadingSpaces(raw);
      if indent <= parentIndent {
        break;
      }
      if blockIndent == -1 || indent < blockIndent {
        blockIndent := indent;
      }
      end := end + 1;
    }
  }

  method CollectProjectBlockScalar(lines: seq<string>, start: nat, parentIndent: nat) returns (value: string, last: int)
    requires start <= |lines|
    ensures (value, last) == Collect(lines, start, parentIndent)
  {
    var blockIndent, end := FindBlock(lines, start, parentIndent);
    assert Collect(lines, start, parentIndent) == Collected(lines[start..end], start);
    if blockIndent == -1 {
      return "", start - 1;
    }
    var out := DedentBlock(lines[start..end], blockIndent);
    return TrimNewlines(Join(out, "\n")), end - 1;
  }

  method DedentBlock(block: seq<string>, indent: nat) returns (out: seq<string>)
    ensures out == DedentAll(block, indent)
  {
    out := [];
    for i := 0 to |block|
      invariant |out| == i && forall j :: 0 <= j < i ==> out[j] == Dedent(block[j], indent)
    {
      out := out + [Dedent(block[i], indent)];
    }
  }

  // The caller continues at the returned index plus one, so it always moves on, and never past the input.
  lemma CallerProgresses(lines: seq<string>, start: nat, parentIndent: nat)
    requires start <= |lines|
    ensures start - 1 <= Collect(lines, start, parentIndent).1 < |lines|
  {
  }

  // The branch for lines shorter than the block's indentation is never taken: every line that is not blank starts
  // with that many spaces.
  lemma NoLineIsShorterThanIndent(lines: seq<string>, i: nat)
    requires i < |lines| && !IsBlank(lines[i])
    ensures 0 <= MinIndent(lines) <= |lines[i]|
    ensures forall j :: 0 <= j < MinIndent(lines) ==> lines[i][j] == ' '
  {
    MinIndentIsLeast(lines);
    SpacesLead(lines[i]);
  }

  lemma {:induction false} SpacesLead(s: string)
    ensures forall j :: 0 <= j < LeadingSpaces(s) ==> s[j] == ' '
  {
    if s != "" && s[0] == ' ' {
      SpacesLead(s[1..]);
    }
  }

  // ----- The printer -----

  const HEADER := "  command: |"
  const FOOTER := "  kind: formal"

  function PrintLines(lines: seq<string>): string {
    if lines == [] then "" else Indent(lines[0]) + "\n" + PrintLines(lines[1..])
  }

  // What is printed for a command of more than one line.
  function PrintTrain(command: string): string {
    "train:" + "\n" + (HEADER + "\n" + (PrintLines(SplitLines(command)) + (FOOTER + "\n" + "")))
  }

  const COMMENT_SECTION := "# train:"
  const COMMENT_COMMAND := "#   command: TODO" + (" replace with the" + " real training command")
  const COMMENT_KIND := "#   kind: formal"
  const COMMENTED := COMMENT_SECTION + "\n" + (COMMENT_COMMAND + "\n" + (COMMENT_KIND + "\n" + ""))

  // The section for any command: only a safe one with several lines is printed as a block.
  function TrainSection(safe: bool, command: string): string {
    if !safe || IsBlank(command) then COMMENTED
    else if '\n' in command then PrintTrain(command)
    else "train:\n  command: " + command + "\n" + FOOTER + "\n"
  }

  method AppendProjectTrainConfig(text: string, safe: bool, command: string) returns (text': string)
    ensures text' == text + TrainSection(safe, command)
  {
    if !safe || IsBlank(command) {
      text' := text + COMMENTED;
    } else if '\n' in command {
      text' := AppendBlock(text, command);
    } else {
      text' := text + ("train:\n  command: " + command + "\n" + FOOTER + "\n");
    }
  }

  method AppendBlock(text: string, command: string) returns (text': string)
    ensures text' == text + PrintTrain(command)
  {
    text' := text + ("train:" + "\n") + HEADER + "\n";
    var lines := SplitLines(command);
    assert lines[0..] == lines;
    for i := 0 to |lines|
      invariant text' + PrintLines(lines[i..]) == text + ("train:" + "\n") + HEADER + "\n" + PrintLines(lines)
    {
      assert lines[i..][1..] == lines[i + 1..];
      Regroup3(text', Indent(lines[i]), "\n", PrintLines(lines[i + 1..]));
      text' := text' + Indent(lines[i]) + "\n";
    }
    assert text' + "" == text';
    text' := text' + FOOTER + "\n";
    Regroup5(text, "train:", HEADER, PrintLines(lines), FOOTER, "\n");
  }

  lemma Regroup3<X>(text: seq<X>, line: seq<X>, end: seq<X>, rest: seq<X>)
    ensures text + (line + end + rest) == text + line + end + rest
  {
  }

  lemma Regroup5<X>(text: seq<X>, a: seq<X>, b: seq<X>, body: seq<X>, c: seq<X>, end: seq<X>)
    ensures text + (a + end) + b + end + body + c + end == text + (a + end + (b + end + (body + (c + end + []))))
  {
    assert c + end + [] == c + end;
    Assoc(text, a + end, b + end + (body + (c + end)));
    Assoc(text + (a + end), b + end, body + (c + end));
    Assoc(text + (a + end), b, end);
    Assoc(text + (a + end) + b + end, body, c + end);
    Assoc(text + (a + end) + b + end + body, c, end);
  }

  function Indented(lines: seq<string>): (out: seq<string>)
    ensures |out| == |lines|
  {
    if lines == [] then [] else [Indent(lines[0])] + Indented(lines[1..])
  }

  function Indent(line: string): string {
    "    " + line
  }

  lemma {:induction false} SplitPrintedLines(lines: seq<string>, rest: string)
    requires forall i :: 0 <= i < |lines| ==> NoLineFeed(lines[i])
    ensures SplitLines(PrintLines(lines) + rest) == Indented(lines) + SplitLines(rest)
    decreases |lines|
  {
    if lines == [] {
      assert PrintLines(lines) + rest == rest;
    } else {
      SplitPrintedLines(lines[1..], rest);
      SplitCons(Indent(lines[0]), '\n', PrintLines(lines[1..]) + rest);
      Assoc(Indent(lines[0]) + "\n", PrintLines(lines[1..]), rest);
      Assoc([Indent(lines[0])], Indented(lines[1..]), SplitLines(rest));
    }
  }

  // The printed text splits into the header, the indented lines of the command, and a line that ends the block.
  lemma SplitPrinted(command: string)
    ensures SplitLines(PrintTrain(command)) == Config(["train:"] + [HEADER], command, [""])
  {
    var lines := SplitLines(command);
    var footer := FOOTER + "\n" + "";
    PartsWithout(command, '\n');
    SplitCons(FOOTER, '\n', "");
    SplitPrintedLines(lines, footer);
    SplitCons(HEADER, '\n', PrintLines(lines) + footer);
    SplitCons("train:", '\n', HEADER + "\n" + (PrintLines(lines) + footer));
    Regroup("train:", HEADER, Indented(lines) + ([FOOTER] + [""]));
  }

  lemma Regroup(a: string, b: string, rest: seq<string>)
    ensures [a] + ([b] + rest) == ([a] + [b]) + rest
  {
  }

  // ----- Reading back what was printed -----

  lemma OneMoreSpace(s: string)
    ensures LeadingSpaces(" " + s) == 1 + LeadingSpaces(s)
    ensures IsBlank(" " + s) <==> IsBlank(s)
  {
    assert (" " + s)[1..] == s;
  }

  lemma IndentedLine(line: string)
    ensures IsBlank(Indent(line)) <==> IsBlank(line)
    ensures LeadingSpaces(Indent(line)) == 4 + LeadingSpaces(line)
  {
    OneMoreSpace(line);
    OneMoreSpace(" " + line);
    OneMoreSpace(" " + (" " + line));
    OneMoreSpace(" " + (" " + (" " + line)));
    assert " " + (" " + (" " + (" " + line))) == "    " + line;
  }

  lemma {:induction false} MinIndentIndented(lines: seq<string>)
    ensures MinIndent(Indented(lines)) == if MinIndent(lines) == -1 then -1 else 4 + MinIndent(lines)
  {
    if lines != [] {
      MinIndentIndented(lines[1..]);
      IndentedLine(lines[0]);
      assert Indented(lines)[1..] == Indented(lines[1..]);
    }
  }

  lemma FooterEndsBlock()
    ensures !GoesOn(FOOTER, 2)
  {
    var word := "kind: formal";
    assert !IsBlank(word) && LeadingSpaces(word) == 0;
    OneMoreSpace(word);
    OneMoreSpace(" " + word);
    assert " " + (" " + word) == FOOTER;
  }

  lemma {:induction false} BlockEndsBefore(block: seq<string>, rest: seq<string>, parentIndent: nat)
    requires AllGoOn(block, parentIndent)
    requires rest != [] && !GoesOn(rest[0], parentIndent)
    ensures BlockLength(block + rest, parentIndent) == |block|
  {
    if block == [] {
      assert block + rest == rest;
    } else {
      assert (block + rest)[1..] == block[1..] + rest;
      BlockEndsBefore(block[1..], rest, parentIndent);
    }
  }

  // A printed block of lines, with anything before and after it.
  function Framed(before: seq<string>, printed: seq<string>, footer: string, post: seq<string>): seq<string> {
    before + (printed + ([footer] + post))
  }

  function Config(before: seq<string>, command: string, post: seq<string>): seq<string> {
    Framed(before, Indented(SplitLines(command)), FOOTER, post)
  }

  lemma FramedLines(before: seq<string>, printed: seq<string>, footer: string, post: seq<string>)
    ensures var text := Framed(before, printed, footer, post);
            && text[|before|..] == printed + ([footer] + post)
            && text[|before|..|before| + |printed|] == printed
  {
  }

  ghost predicate AllGoOn(lines: seq<string>, parentIndent: nat) {
    forall i :: 0 <= i < |lines| ==> GoesOn(lines[i], parentIndent)
  }

  lemma {:induction false} IndentedGoesOn(lines: seq<string>)
    ensures AllGoOn(Indented(lines), 2)
  {
    if lines != [] {
      IndentedLine(lines[0]);
      IndentedGoesOn(lines[1..]);
    }
  }

  lemma DedentIndentedLine(line: string, m: nat)
    ensures Dedent(Indent(line), 4 + m) == Dedent(line, m)
  {
    IndentedLine(line);
  }

  lemma {:induction false} DedentIndented(lines: seq<string>, m: nat)
    ensures DedentAll(Indented(lines), 4 + m) == DedentAll(lines, m)
  {
    if lines != [] {
      DedentIndentedLine(lines[0], m);
      DedentIndented(lines[1..], m);
      assert Indented(lines)[1..] == Indented(lines[1..]);
    }
  }

  // Indenting every line changes nothing of a block's value.
  lemma IndentedValue(lines: seq<string>, m: nat)
    requires MinIndent(lines) == m
    ensures BlockValue(Indented(lines)) == BlockValue(lines)
  {
    MinIndentIndented(lines);
    DedentIndented(lines, m);
    calc {
      BlockValue(Indented(lines));
      Some(TrimNewlines(Join(DedentAll(Indented(lines), 4 + m), "\n")));
      Some(TrimNewlines(Join(DedentAll(lines, m), "\n")));
      BlockValue(lines);
    }
  }

  lemma CollectBlock(text: seq<string>, start: nat, end: nat, block: seq<string>, value: Option<string>)
    requires start <= end <= |text| && end == start + BlockLength(text[start..], 2)
    requires text[start..end] == block && BlockValue(block) == value && value.Some?
    ensures Collect(text, start, 2) == (value.value, end - 1)
  {
  }

  lemma FramedBlock(before: seq<string>, printed: seq<string>, footer: string, post: seq<string>)
    requires AllGoOn(printed, 2)
    requires !GoesOn(footer, 2)
    ensures var text, end := Framed(before, printed, footer, post), |before| + |printed|;
            end <= |text| && end == |before| + BlockLength(text[|before|..], 2) && text[|before|..end] == printed
  {
    FramedLines(before, printed, footer, post);
    BlockEndsBefore(printed, [footer] + post, 2);
  }

  lemma ReadFramed(before: seq<string>, printed: seq<string>, footer: string, post: seq<string>, value: string)
    requires AllGoOn(printed, 2) && !GoesOn(footer, 2)
    requires BlockValue(printed) == Some(value)
    ensures Collect(Framed(before, printed, footer, post), |before|, 2) == (value, |before| + |printed| - 1)
  {
    FramedBlock(before, printed, footer, post);
    CollectBlock(Framed(before, printed, footer, post), |before|, |before| + |printed|, printed, Some(value));
  }

  lemma IndentedBlock(lines: seq<string>, m: nat)
    requires MinIndent(lines) == m
    ensures BlockValue(lines).Some? && BlockValue(Indented(lines)) == Some(BlockValue(lines).value)
    ensures AllGoOn(Indented(lines), 2)
  {
    IndentedValue(lines, m);
    IndentedGoesOn(lines);
  }

  // The value read back is the command with its blank lines emptied, its common indentation removed and its trailing
  // newlines trimmed; reading resumes at the line behind the block.
  lemma ReadBack(before: seq<string>, post: seq<string>, command: string, value: string)
    requires BlockValue(SplitLines(command)) == Some(value)
    ensures Collect(Config(before, command, post), |before|, 2) == (value, |before| + |SplitLines(command)| - 1)
  {
    FooterEndsBlock();
    ReadLines(before, SplitLines(command), FOOTER, post, value);
  }

  lemma ReadLines(before: seq<string>, lines: seq<string>, footer: string, post: seq<string>, value: string)
    requires BlockValue(lines) == Some(value) && !GoesOn(footer, 2)
    ensures Collect(Framed(before, Indented(lines), footer, post), |before|, 2) == (value, |before| + |lines| - 1)
  {
    IndentedBlock(lines, MinIndent(lines));
    ReadPrinted(before, lines, Indented(lines), footer, post, value);
  }

  lemma ReadPrinted(before: seq<string>, lines: seq<string>, printed: seq<string>, footer: string, post: seq<string>, value: string)
    requires |printed| == |lines| && AllGoOn(printed, 2) && !GoesOn(footer, 2)
    requires BlockValue(printed) == Some(value)
    ensures Collect(Framed(before, printed, footer, post), |before|, 2) == (value, |before| + |lines| - 1)
  {
    ReadFramed(before, printed, footer, post, value);
  }

  // A command with any ink in it has such a value.
  lemma SomeValue(command: string)
    requires !IsBlank(command)
    ensures BlockValue(SplitLines(command)).Some?
  {
    SomeLineNotBlank(command);
  }

  lemma SomeLineNotBlank(s: string)
    requires !IsBlank(s)
    ensures MinIndent(SplitLines(s)) >= 0
  {
    MinIndentIsLeast(SplitLines(s));
    if forall i :: 0 <= i < |SplitLines(s)| ==> IsBlank(SplitLines(s)[i]) {
      BlankLinesBlankText(s);
    }
  }

  lemma {:induction false} BlankLinesBlankText(s: string)
    requires forall i :: 0 <= i < |SplitLines(s)| ==> IsBlank(SplitLines(s)[i])
    ensures IsBlank(s)
  {
    if s != "" {
      var lines, rest := SplitLines(s), SplitLines(s[1..]);
      forall i | 0 <= i < |rest|
        ensures IsBlank(rest[i])
      {
        if s[0] == '\n' {
          assert lines[i + 1] == rest[i];
        } else if i == 0 {
          assert lines[0] == [s[0]] + rest[0];
          assert lines[0][1..] == rest[0];
        } else {
          assert lines[i] == rest[i];
        }
      }
      BlankLinesBlankText(s[1..]);
      assert s[0] != '\n' ==> IsBlank(lines[0]) && lines[0][0] == s[0];
    }
  }

  // ----- Counting characters -----

  // The characters of a text other than line feeds.
  function Ink(s: string): nat {
    if s == "" then 0 else (if s[0] == '\n' then 0 else 1) + Ink(s[1..])
  }

  lemma {:induction false} InkAppend(a: string, b: string)
    ensures Ink(a + b) == Ink(a) + Ink(b)
  {
    if a == "" {
      assert a + b == b;
    } else {
      assert (a + b)[1..] == a[1..] + b;
      InkAppend(a[1..], b);
    }
  }

  lemma {:induction false} InkOfTrimmed(s: string)
    ensures Ink(TrimNewlines(s)) == Ink(s)
  {
    if s != "" && s[|s| - 1] == '\n' {
      InkOfTrimmed(s[..|s| - 1]);
      InkAppend(s[..|s| - 1], "\n");
      assert s[..|s| - 1] + "\n" == s;
      assert "\n"[1..] == "";
    }
  }

  lemma {:induction false} InkOfLine(s: string)
    requires NoLineFeed(s)
    ensures Ink(s) == |s|
  {
    if s != "" {
      InkOfLine(s[1..]);
    }
  }

  lemma InkOfJoin(head: string, rest: seq<string>)
    ensures Ink(Join([head] + rest, "\n")) == Ink(head) + Ink(Join(rest, "\n"))
  {
    if rest == [] {
      assert [head] + rest == [head];
    } else {
      JoinCons(head, rest, "\n");
      InkAppend(head + "\n", Join(rest, "\n"));
      InkAppend(head, "\n");
      assert "\n"[1..] == "";
    }
  }

  // Lines that are no longer, and one of them shorter, join to less ink.
  lemma {:induction false} ShorterLinesLessInk(out: seq<string>, lines: seq<string>)
    requires |out| == |lines|
    requires forall i :: 0 <= i < |lines| ==> NoLineFeed(lines[i]) && NoLineFeed(out[i]) && |out[i]| <= |lines[i]|
    ensures Ink(Join(out, "\n")) <= Ink(Join(lines, "\n"))
    ensures (exists i :: 0 <= i < |lines| && |out[i]| < |lines[i]|) ==> Ink(Join(out, "\n")) < Ink(Join(lines, "\n"))
    decreases |lines|
  {
    if lines != [] {
      ShorterLinesLessInk(out[1..], lines[1..]);
      InkOfJoin(out[0], out[1..]);
      InkOfJoin(lines[0], lines[1..]);
      assert [out[0]] + out[1..] == out && [lines[0]] + lines[1..] == lines;
      InkOfLine(out[0]);
      InkOfLine(lines[0]);
      if i :| 0 <= i < |lines| && |out[i]| < |lines[i]| {
        assert i == 0 || |out[1..][i - 1]| < |lines[1..][i - 1]|;
      }
    }
  }

  // A multi-line command survives printing and reading, up to trailing newlines, exactly when some line that is not
  // blank starts in column 0 and no line consists of white space only.
  lemma BlockScalarRoundTripIff(before: seq<string>, post: seq<string>, command: string)
    requires !IsBlank(command)
    ensures var lines := SplitLines(command);
            Collect(Config(before, command, post), |before|, 2).0 == TrimNewlines(command) <==>
            && (exists i :: 0 <= i < |lines| && !IsBlank(lines[i]) && LeadingSpaces(lines[i]) == 0)
            && (forall i :: 0 <= i < |lines| && IsBlank(lines[i]) ==> lines[i] == "")
  {
    var lines := SplitLines(command);
    SomeValue(command);
    ReadBack(before, post, command, BlockValue(lines).value);
    NeedsNoDedenting(lines);
    if MinIndent(lines) == 0 && forall i :: 0 <= i < |lines| && IsBlank(lines[i]) ==> lines[i] == "" {
      JoinOfSplit(command, '\n');
      assert DedentAll(lines, 0) == lines;
    } else {
      DedentingLosesInk(command);
    }
  }

  lemma NeedsNoDedenting(lines: seq<string>)
    requires MinIndent(lines) >= 0
    ensures MinIndent(lines) == 0 <==> exists i :: 0 <= i < |lines| && !IsBlank(lines[i]) && LeadingSpaces(lines[i]) == 0
  {
    MinIndentIsLeast(lines);
  }

  lemma DedentedIsShorter(lines: seq<string>, i: nat)
    requires i < |lines| && MinIndent(lines) >= 0 && NoLineFeed(lines[i])
    ensures var out := Dedent(lines[i], MinIndent(lines));
            && |out| <= |lines[i]| && NoLineFeed(out)
            && ((if IsBlank(lines[i]) then lines[i] != "" else MinIndent(lines) > 0) ==> |out| < |lines[i]|)
  {
    MinIndentIsLeast(lines);
  }

  lemma DedentingLosesInk(command: string)
    requires var lines := SplitLines(command);
             && MinIndent(lines) >= 0
             && (MinIndent(lines) > 0 || exists i :: 0 <= i < |lines| && IsBlank(lines[i]) && lines[i] != "")
    ensures TrimNewlines(Join(DedentAll(SplitLines(command), MinIndent(SplitLines(command))), "\n")) != TrimNewlines(command)
  {
    var lines := SplitLines(command);
    var out := DedentAll(lines, MinIndent(lines));
    JoinOfSplit(command, '\n');
    PartsWithout(command, '\n');
    MinIndentIsLeast(lines);
    forall i | 0 <= i < |lines|
      ensures |out[i]| <= |lines[i]| && NoLineFeed(out[i])
      ensures (if IsBlank(lines[i]) then lines[i] != "" else MinIndent(lines) > 0) ==> |out[i]| < |lines[i]|
    {
      DedentedIsShorter(lines, i);
    }
    ShorterLinesLessInk(out, lines);
    InkOfTrimmed(Join(out, "\n"));
    InkOfTrimmed(command);
  }
}
