/**
 Where a dataset is materialized: materializationPath of internal/dataset/service.go, with Go's slash-separated path
 cleaning written out.
 */
module DestinationPath {
  import opened Outcomes
  import opened Text
  import opened Seqs

  // ----- Cleaned paths -----

  // A path as its segments from the root or from here.
  datatype Path = Path(absolute: bool, segments: seq<string>)

  predicate Skipped(segment: string) {
    segment == "" || segment == "."
  }

  function IsPlain(segment: string): bool {
    !Skipped(segment)
  }

  // One segment at a time: empty and dot segments go, a parent segment takes back the one before it.
  function Walk(absolute: bool, stack: seq<string>, segments: seq<string>): seq<string>
    decreases |segments|
  {
    if segments == [] then stack else Walk(absolute, Push(absolute, stack, segments[0]), segments[1..])
  }

  function Push(absolute: bool, stack: seq<string>, segment: string): seq<string> {
    if Skipped(segment) then stack
    else if segment != ".." then stack + [segment]
    else if stack != [] && stack[|stack| - 1] != ".." then stack[..|stack| - 1]
    else if absolute then stack
    else stack + [".."]
  }

  predicate IsAbs(path: string) {
    path != "" && path[0] == '/'
  }

  function Parse(path: string): Path {
    Path(IsAbs(path), Walk(IsAbs(path), [], SplitOn(path, '/')))
  }

  function Render(p: Path): string {
    if p.absolute then "/" + Join(p.segments, "/")
    else if p.segments == [] then "."
    else Join(p.segments, "/")
  }

  // path.Clean
  function Clean(path: string): string {
    Render(Parse(path))
  }

  function NonEmpty(parts: seq<string>): seq<string> {
    Filter(parts, NotEmpty)
  }

  predicate NotEmpty(part: string) {
    part != ""
  }

  // path.Join
  function JoinPath(parts: seq<string>): string {
    if NonEmpty(parts) == [] then "" else Clean(Join(NonEmpty(parts), "/"))
  }

  // ----- The destination -----

  datatype Refusal = Escapes | Unsafe

  function TrimRightSlashes(s: string): string {
    if s != "" && s[|s| - 1] == '/' then TrimRightSlashes(s[..|s| - 1]) else s
  }

  predicate HasPrefix(s: string, prefix: string) {
    |prefix| <= |s| && s[..|prefix|] == prefix
  }

  function TrimPrefix(s: string, prefix: string): string {
    if HasPrefix(s, prefix) then s[|prefix|..] else s
  }

  function RootPrefix(root: string): string {
    TrimRightSlashes(Clean(root)) + "/"
  }

  predicate BadChar(c: char) {
    c == '\\' || c == '\0' || c == '\r' || c == '\n'
  }

  predicate HasBadChar(s: string) {
    exists i :: 0 <= i < |s| && BadChar(s[i])
  }

  predicate IsUnsafe(relative: string) {
    relative == "" || relative == "." || IsAbs(relative) || HasBadChar(relative) || ".." in SplitOn(relative, '/')
  }

  // A request relative to the root, before it is checked.
  function Relative(root: string, requested: string): Result<string, Refusal> {
    if !IsAbs(requested) then Ok(requested)
    else if Clean(requested) != Clean(root) && !HasPrefix(Clean(requested), RootPrefix(root)) then Err(Escapes)
    else Ok(TrimPrefix(Clean(requested), RootPrefix(root)))
  }

  // The destination and its path below the root.
  function MaterializationPath(root: string, requested: string, datasetId: string, version: string): Result<(string, string), Refusal> {
    var asked := if requested == "" then JoinPath(["datasets", datasetId, version]) else requested;
    match Relative(root, asked)
    case Err(refusal) => Err(refusal)
    case Ok(relative) =>
      if IsUnsafe(relative) then Err(Unsafe) else Ok((JoinPath([root, Clean(relative)]), Clean(relative)))
  }

  // ----- Walking -----

  lemma {:induction false} WalkAppend(absolute: bool, stack: seq<string>, a: seq<string>, b: seq<string>)
    ensures Walk(absolute, stack, a + b) == Walk(absolute, Walk(absolute, stack, a), b)
    decreases |a|
  {
    if a == [] {
      assert a + b == b;
    } else {
      assert (a + b)[1..] == a[1..] + b;
      WalkAppend(absolute, Push(absolute, stack, a[0]), a[1..], b);
    }
  }

  // Without parent segments, walking appends the segments that are not skipped.
  lemma {:induction false} WalkDown(absolute: bool, stack: seq<string>, segments: seq<string>)
    requires ".." !in segments
    ensures Walk(absolute, stack, segments) == stack + Filter(segments, IsPlain)
    decreases |segments|
  {
    if segments == [] {
      assert stack + [] == stack;
    } else {
      WalkDown(absolute, Push(absolute, stack, segments[0]), segments[1..]);
      if Skipped(segments[0]) {
        assert Filter(segments, IsPlain) == Filter(segments[1..], IsPlain);
      } else {
        Assoc(stack, [segments[0]], Filter(segments[1..], IsPlain));
      }
    }
  }

  predicate PlainSegment(s: string) {
    IsPlain(s) && Without(s, '/')
  }

  // Segments of a cleaned path: none is skipped or holds a slash, and below a root none is a parent segment.
  ghost predicate Cleaned(p: Path) {
    && (forall i :: 0 <= i < |p.segments| ==> PlainSegment(p.segments[i]))
    && (p.absolute ==> ".." !in p.segments)
    && (forall i, j :: 0 <= i < j < |p.segments| && p.segments[j] == ".." ==> p.segments[i] == "..")
  }

  lemma {:induction false} WalkCleans(absolute: bool, stack: seq<string>, segments: seq<string>)
    requires Cleaned(Path(absolute, stack))
    requires forall i :: 0 <= i < |segments| ==> Without(segments[i], '/')
    ensures Cleaned(Path(absolute, Walk(absolute, stack, segments)))
    decreases |segments|
  {
    if segments != [] {
      PushCleans(absolute, stack, segments[0]);
      WalkCleans(absolute, Push(absolute, stack, segments[0]), segments[1..]);
    }
  }

  lemma PushCleans(absolute: bool, stack: seq<string>, segment: string)
    requires Cleaned(Path(absolute, stack)) && Without(segment, '/')
    ensures Cleaned(Path(absolute, Push(absolute, stack, segment)))
  {
    var out := Push(absolute, stack, segment);
    forall i, j | 0 <= i < j < |out| && out[j] == ".."
      ensures out[i] == ".."
    {
      if j == |stack| {
        assert stack[|stack| - 1] == "..";
        assert i < |stack| - 1 ==> stack[i] == "..";
      }
    }
  }

  lemma ParseCleans(path: string)
    ensures Cleaned(Parse(path))
  {
    PartsWithout(path, '/');
    WalkCleans(IsAbs(path), [], SplitOn(path, '/'));
  }

  // ----- Splitting what was joined -----

  lemma {:induction false} SplitOfJoin(segments: seq<string>)
    requires segments != [] && forall i :: 0 <= i < |segments| ==> Without(segments[i], '/')
    ensures SplitOn(Join(segments, "/"), '/') == segments
    decreases |segments|
  {
    if |segments| == 1 {
      SplitWhole(segments[0]);
      assert segments == [segments[0]];
    } else {
      SplitOfJoin(segments[1..]);
      SplitCons(segments[0], '/', Join(segments[1..], "/"));
      assert segments == [segments[0]] + segments[1..];
    }
  }

  lemma {:induction false} SplitWhole(s: string)
    requires Without(s, '/')
    ensures SplitOn(s, '/') == [s]
  {
    if s != "" {
      SplitWhole(s[1..]);
      assert s == [s[0]] + s[1..];
    }
  }

  lemma {:induction false} SplitAppend(a: string, b: string)
    ensures SplitOn(a + "/" + b, '/') == SplitOn(a, '/') + SplitOn(b, '/')
  {
    if a == "" {
      assert a + "/" + b == "/" + b;
      assert ("/" + b)[1..] == b;
    } else {
      assert (a + "/" + b)[1..] == a[1..] + "/" + b;
      SplitAppend(a[1..], b);
      var rest := SplitOn(a[1..], '/');
      assert (rest + SplitOn(b, '/'))[1..] == rest[1..] + SplitOn(b, '/');
      if a[0] == '/' {
        Assoc([""], rest, SplitOn(b, '/'));
      } else {
        Assoc([[a[0]] + rest[0]], rest[1..], SplitOn(b, '/'));
      }
    }
  }

  lemma {:induction false} WalkOfCleaned(absolute: bool, stack: seq<string>, segments: seq<string>)
    requires Cleaned(Path(absolute, stack + segments))
    ensures Walk(absolute, stack, segments) == stack + segments
    decreases |segments|
  {
    if segments == [] {
      assert stack + [] == stack;
    } else {
      var all := stack + segments;
      assert all[|stack|] == segments[0];
      assert segments[0] == ".." && stack != [] ==> all[|stack| - 1] == "..";
      assert segments == [segments[0]] + segments[1..];
      Assoc(stack, [segments[0]], segments[1..]);
      assert segments[0] in all;
      WalkOfCleaned(absolute, stack + [segments[0]], segments[1..]);
    }
  }

  // Rendering a cleaned path and parsing it again gives the path.
  lemma ParseOfRender(p: Path)
    requires Cleaned(p)
    ensures Parse(Render(p)) == p
  {
    assert [] + p.segments == p.segments;
    WalkOfCleaned(p.absolute, [], p.segments);
    if p.segments == [] {
      ParseOfNothing();
      if p.absolute {
        assert Render(p) == "/";
      }
    } else {
      SplitOfJoin(p.segments);
      JoinStarts(p.segments);
      if p.absolute {
        LeadingSlash(Join(p.segments, "/"), p.segments);
      }
    }
  }

  lemma LeadingSlash(joined: string, segments: seq<string>)
    requires SplitOn(joined, '/') == segments
    ensures SplitOn("/" + joined, '/') == [""] + segments
    ensures Walk(true, [], [""] + segments) == Walk(true, [], segments)
  {
    assert "" + "/" + joined == "/" + joined;
    SplitAppend("", joined);
    assert ([""] + segments)[1..] == segments;
  }

  lemma ParseOfNothing()
    ensures Parse("/") == Path(true, []) && Parse(".") == Path(false, []) && Parse("") == Path(false, [])
  {
    assert "/"[1..] == "" && "."[1..] == "";
    assert SplitOn("/", '/') == ["", ""];
    SplitWhole(".");
    assert ["", ""][1..] == [""] && [""][1..] == [] && ["."][1..] == [];
  }

  lemma JoinStarts(segments: seq<string>)
    requires segments != [] && PlainSegment(segments[0])
    ensures Join(segments, "/") != "" && Join(segments, "/")[0] != '/'
  {
  }

  // ----- Staying inside the root -----

  lemma JoinTwo(root: string, relative: string)
    requires relative != ""
    ensures JoinPath([root, relative]) == if root == "" then Clean(relative) else Clean(root + "/" + relative)
  {
    assert [root, relative][1..] == [relative];
    assert [relative][1..] == [];
    assert NonEmpty([relative]) == [relative];
    if root != "" {
      assert NonEmpty([root, relative]) == [root] + [relative];
      JoinCons(root, [relative], "/");
    } else {
      assert NonEmpty([root, relative]) == [] + [relative];
    }
  }

  // Joining a root and a relative path without parent segments goes down from the root.
  lemma JoinGoesDown(root: string, relative: string)
    requires relative != "" && !IsAbs(relative) && ".." !in SplitOn(relative, '/')
    ensures var joined := Path(IsAbs(root), Parse(root).segments + Filter(SplitOn(relative, '/'), IsPlain));
            Parse(JoinPath([root, relative])) == joined && JoinPath([root, relative]) == Render(joined)
  {
    JoinTwo(root, relative);
    var below := Filter(SplitOn(relative, '/'), IsPlain);
    if root == "" {
      ParseOfNothing();
      WalkDown(false, [], SplitOn(relative, '/'));
      assert [] + below == below;
      ParseCleans(relative);
      ParseOfRender(Parse(relative));
    } else {
      var whole := root + "/" + relative;
      assert IsAbs(whole) == IsAbs(root);
      SplitAppend(root, relative);
      WalkAppend(IsAbs(root), [], SplitOn(root, '/'), SplitOn(relative, '/'));
      WalkDown(IsAbs(root), Parse(root).segments, SplitOn(relative, '/'));
      ParseCleans(whole);
      ParseOfRender(Parse(whole));
    }
  }

  // Cleaning a safe relative path keeps exactly its plain segments.
  lemma CleanedRelative(relative: string)
    requires !IsUnsafe(relative)
    ensures var below := Filter(SplitOn(relative, '/'), IsPlain);
            && Parse(Clean(relative)) == Path(false, below) && ".." !in below
            && Clean(relative) != "" && !IsAbs(Clean(relative)) && ".." !in SplitOn(Clean(relative), '/')
            && Filter(SplitOn(Clean(relative), '/'), IsPlain) == below
  {
    var segments := SplitOn(relative, '/');
    var below := Filter(segments, IsPlain);
    WalkDown(false, [], segments);
    assert [] + below == below;
    ParseCleans(relative);
    ParseOfRender(Parse(relative));
    FilterMember(segments, IsPlain, "..");
    if below == [] {
      assert "."[1..] == "" && SplitOn(".", '/') == ["."];
      assert ["."][1..] == [];
    } else {
      JoinStarts(below);
      SplitOfJoin(below);
      FilterTwice(segments, IsPlain, IsPlain, IsPlain);
    }
  }

  // Whatever is requested, the destination lies at or below the root: its path is the root's path followed by that of
  // the result, which has no parent segments. It is the root itself exactly when every segment asked for was empty or
  // a dot.
  lemma DestinationStaysInside(root: string, requested: string, datasetId: string, version: string)
    requires MaterializationPath(root, requested, datasetId, version).Ok?
    ensures var (destination, relative) := MaterializationPath(root, requested, datasetId, version).value;
            && Parse(destination) == Path(IsAbs(root), Parse(root).segments + Parse(relative).segments)
            && !Parse(relative).absolute && ".." !in Parse(relative).segments
    ensures var asked := if requested == "" then JoinPath(["datasets", datasetId, version]) else requested;
            Parse(MaterializationPath(root, requested, datasetId, version).value.0).segments == Parse(root).segments <==>
            forall s :: s in SplitOn(Relative(root, asked).value, '/') ==> Skipped(s)
  {
    var asked := if requested == "" then JoinPath(["datasets", datasetId, version]) else requested;
    var relative := Relative(root, asked).value;
    var below := Filter(SplitOn(relative, '/'), IsPlain);
    CleanedRelative(relative);
    JoinGoesDown(root, Clean(relative));
    assert Parse(root).segments + below == Parse(root).segments <==> below == [] by {
      assert |Parse(root).segments + below| == |Parse(root).segments| + |below|;
      assert Parse(root).segments + [] == Parse(root).segments;
    }
    NothingPlainIff(SplitOn(relative, '/'));
  }

  lemma NothingPlainIff(segments: seq<string>)
    ensures Filter(segments, IsPlain) == [] <==> forall s :: s in segments ==> Skipped(s)
  {
    forall s
      ensures s in Filter(segments, IsPlain) <==> s in segments && !Skipped(s)
    {
      FilterMember(segments, IsPlain, s);
    }
    if Filter(segments, IsPlain) != [] {
      assert Filter(segments, IsPlain)[0] in Filter(segments, IsPlain);
    }
  }

  // A dot and a slash ask for the root itself and get it, although a dot alone is refused.
  lemma DotSlashIsTheRoot()
    ensures MaterializationPath("/data", "./", "d", "v").Ok?
    ensures Parse(MaterializationPath("/data", "./", "d", "v").value.0) == Parse("/data")
    ensures MaterializationPath("/data", ".", "d", "v") == Err(Unsafe)
  {
    assert "./"[1..] == "/" && "/"[1..] == "";
    assert SplitOn("./", '/') == [".", ""] by {
      SplitWhole(".");
      SplitAppend(".", "");
      assert "." + "/" + "" == "./" && SplitOn("", '/') == [""];
    }
    assert !IsUnsafe("./") by {
      assert forall i :: 0 <= i < |"./"| ==> !BadChar("./"[i]);
      assert ".." !in [".", ""];
    }
    DestinationStaysInside("/data", "./", "d", "v");
  }

  // ----- Absolute requests -----

  lemma {:induction false} JoinEnds(segments: seq<string>)
    requires segments != [] && forall i :: 0 <= i < |segments| ==> PlainSegment(segments[i])
    ensures var s := Join(segments, "/"); s != "" && s[|s| - 1] != '/'
    decreases |segments|
  {
    if |segments| > 1 {
      JoinEnds(segments[1..]);
    } else {
      assert PlainSegment(segments[0]);
    }
  }

  ghost predicate Below(root: seq<string>, path: seq<string>) {
    |root| < |path| && path[..|root|] == root
  }

  lemma RootPrefixIs(root: string)
    ensures RootPrefix(root) == if IsAbs(root) && Parse(root).segments == [] then "/" else Clean(root) + "/"
  {
    var p := Parse(root);
    ParseCleans(root);
    if p.segments == [] {
      assert p.absolute ==> Clean(root) == "/" && "/"[..0] == "";
      assert !p.absolute ==> Clean(root) == ".";
    } else {
      JoinEnds(p.segments);
    }
  }

  lemma PrefixMeansBelow(root: seq<string>, path: seq<string>)
    requires root != [] && Cleaned(Path(true, root)) && Cleaned(Path(true, path))
    requires HasPrefix("/" + Join(path, "/"), "/" + Join(root, "/") + "/")
    ensures Below(root, path)
  {
    var r, p := Join(root, "/"), Join(path, "/");
    var x := ("/" + p)[|r| + 2..];
    assert p == r + "/" + x by {
      StripSlash(r, p, x);
    }
    SplitAppend(r, x);
    SplitOfJoin(root);
    assert path != [];
    SplitOfJoin(path);
    assert path == root + SplitOn(x, '/');
  }

  lemma StripSlash(r: string, p: string, x: string)
    requires |p| >= |r| + 1 && ("/" + p)[..|r| + 2] == "/" + r + "/" && x == ("/" + p)[|r| + 2..]
    ensures p == r + "/" + x
  {
    var s := "/" + p;
    assert s == "/" + r + "/" + x;
    assert s[1..] == p && ("/" + r + "/" + x)[1..] == r + "/" + x;
  }

  lemma BelowMeansPrefix(root: seq<string>, path: seq<string>)
    requires root != [] && Below(root, path)
    ensures var s, prefix := "/" + Join(path, "/"), "/" + Join(root, "/") + "/";
            HasPrefix(s, prefix) && s[|prefix|..] == Join(path[|root|..], "/")
  {
    var rest := path[|root|..];
    assert root + rest == path;
    JoinAppend(root, rest, "/");
    var prefix := "/" + Join(root, "/") + "/";
    assert "/" + Join(path, "/") == prefix + Join(rest, "/");
  }

  // Comparing cleaned texts compares segments: the text of one path starts with that of another and a slash exactly
  // when its segments properly extend the other's.
  lemma PrefixIffBelow(root: seq<string>, path: seq<string>)
    requires root != [] && Cleaned(Path(true, root)) && Cleaned(Path(true, path))
    ensures HasPrefix("/" + Join(path, "/"), "/" + Join(root, "/") + "/") <==> Below(root, path)
  {
    if Below(root, path) {
      BelowMeansPrefix(root, path);
    } else if HasPrefix("/" + Join(path, "/"), "/" + Join(root, "/") + "/") {
      PrefixMeansBelow(root, path);
    }
  }

  // What an absolute request is relative to the root.
  lemma RelativeOfAbsolute(root: string, requested: string)
    requires IsAbs(requested)
    ensures var rs, qs := Parse(root).segments, Parse(requested).segments;
            if IsAbs(root) && Below(rs, qs) then Relative(root, requested) == Ok(Join(qs[|rs|..], "/"))
            else if IsAbs(root) && qs == rs then Relative(root, requested).Ok? && IsUnsafe(Relative(root, requested).value)
            else Relative(root, requested) == Err(Escapes)
  {
    var rs, qs := Parse(root).segments, Parse(requested).segments;
    ParseCleans(root);
    ParseCleans(requested);
    RootPrefixIs(root);
    assert Clean(requested) == "/" + Join(qs, "/");
    if !IsAbs(root) {
      if rs != [] {
        JoinStarts(rs);
      }
      assert Clean(root)[0] != '/' && RootPrefix(root)[0] == Clean(root)[0];
    } else if rs == [] {
      assert Clean(requested)[..1] == "/" && Clean(requested)[1..] == Join(qs, "/");
      assert qs[0..] == qs;
    } else {
      PrefixIffBelow(rs, qs);
      if Below(rs, qs) {
        BelowMeansPrefix(rs, qs);
      }
      ParseOfRender(Parse(root));
      ParseOfRender(Parse(requested));
    }
  }

  lemma JoinedIsSafeIff(segments: seq<string>)
    requires segments != [] && Cleaned(Path(true, segments))
    ensures IsUnsafe(Join(segments, "/")) <==> HasBadChar(Join(segments, "/"))
  {
    JoinStarts(segments);
    SplitOfJoin(segments);
    SplitWhole(".");
  }

  // An absolute request is taken exactly when it lies strictly below an absolute root, segment by segment, and what
  // lies below holds no forbidden character; then it is the destination.
  lemma AbsoluteRequestIff(root: string, requested: string, datasetId: string, version: string)
    requires IsAbs(requested)
    ensures var rs, qs := Parse(root).segments, Parse(requested).segments;
            var outcome := MaterializationPath(root, requested, datasetId, version);
            && (outcome.Ok? <==> IsAbs(root) && Below(rs, qs) && !HasBadChar(Join(qs[|rs|..], "/")))
            && (outcome.Ok? ==> outcome.value.0 == Clean(requested))
            && (outcome.Err? ==> outcome.error == if IsAbs(root) && (Below(rs, qs) || qs == rs) then Unsafe else Escapes)
  {
    var rs, qs := Parse(root).segments, Parse(requested).segments;
    RelativeOfAbsolute(root, requested);
    ParseCleans(requested);
    if IsAbs(root) && Below(rs, qs) {
      var rest := qs[|rs|..];
      assert rs + rest == qs;
      assert forall i :: 0 <= i < |rest| ==> rest[i] == qs[|rs| + i];
      JoinedIsSafeIff(rest);
      if !HasBadChar(Join(rest, "/")) {
        JoinedBack(root, rest);
      }
    }
  }

  // Joining the root with what lies below it.
  lemma JoinedBack(root: string, rest: seq<string>)
    requires rest != [] && Cleaned(Path(true, rest)) && !IsUnsafe(Join(rest, "/"))
    ensures JoinPath([root, Clean(Join(rest, "/"))]) == Render(Path(IsAbs(root), Parse(root).segments + rest))
  {
    CleanedRelative(Join(rest, "/"));
    SplitOfJoin(rest);
    AllPlain(rest);
    JoinGoesDown(root, Clean(Join(rest, "/")));
  }

  lemma {:induction false} AllPlain(segments: seq<string>)
    requires forall i :: 0 <= i < |segments| ==> PlainSegment(segments[i])
    ensures Filter(segments, IsPlain) == segments
  {
    if segments != [] {
      assert PlainSegment(segments[0]);
      AllPlain(segments[1..]);
      assert segments == [segments[0]] + segments[1..];
    }
  }

  lemma ForbiddenCharacters(s: string)
    ensures HasBadChar(s) <==> '\\' in s || '\0' in s || '\r' in s || '\n' in s
  {
    if HasBadChar(s) {
      var i :| 0 <= i < |s| && BadChar(s[i]);
      assert s[i] in s;
    }
  }

  // ----- Relative requests, and none -----

  // A relative request is taken exactly when it is not a dot alone, has no parent segment and holds no forbidden
  // character; the destination is then the root followed by its other segments, without the empty ones and the dots.
  lemma RelativeRequestIff(root: string, requested: string, datasetId: string, version: string)
    requires requested != "" && !IsAbs(requested)
    ensures var outcome := MaterializationPath(root, requested, datasetId, version);
            if requested == "." || ".." in SplitOn(requested, '/') || HasBadChar(requested) then outcome == Err(Unsafe)
            else
              && outcome.Ok?
              && var below := Filter(SplitOn(requested, '/'), (s: string) => s != "" && s != ".");
                 && Parse(outcome.value.0) == Path(IsAbs(root), Parse(root).segments + below)
                 && Parse(outcome.value.1) == Path(false, below)
  {
    if !IsUnsafe(requested) {
      CleanedRelative(requested);
      DestinationStaysInside(root, requested, datasetId, version);
      FilterSame(SplitOn(requested, '/'), IsPlain, (s: string) => s != "" && s != ".");
    }
  }

  // Without a request the destination is below the root where the names lead, unless they lead out of it, nowhere or
  // through a forbidden character.
  lemma DefaultDestinationIff(root: string, datasetId: string, version: string)
    ensures var outcome, below := MaterializationPath(root, "", datasetId, version), Parse("datasets/" + datasetId + "/" + version).segments;
            if below == [] || ".." in below || HasBadChar(Join(below, "/")) then outcome == Err(Unsafe)
            else
              && outcome.Ok?
              && Parse(outcome.value.0) == Path(IsAbs(root), Parse(root).segments + below)
              && Parse(outcome.value.1) == Path(false, below)
  {
    var named := "datasets/" + datasetId + "/" + version;
    var asked, below := JoinPath(["datasets", datasetId, version]), Parse(named).segments;
    NamesJoined("datasets", datasetId, version);
    assert "datasets" + "/" + datasetId + "/" + version == named;
    ParseCleans(named);
    assert asked == Render(Path(false, below));
    if below != [] {
      SplitOfJoin(below);
      JoinStarts(below);
      SplitWhole(".");
      if !IsUnsafe(asked) {
        CleanedRelative(asked);
        AllPlain(below);
        DestinationStaysInside(root, "", datasetId, version);
      }
    }
  }

  lemma NamesJoined(d: string, a: string, b: string)
    requires d != "" && d[0] != '/'
    ensures JoinPath([d, a, b]) == Clean(d + "/" + a + "/" + b)
  {
    var names := (if a == "" then [] else [a]) + (if b == "" then [] else [b]);
    NonEmptyNames(d, a, b);
    assert d + "/" + (a + "/" + b) == d + "/" + a + "/" + b;
    SplitAppend(d, a + "/" + b);
    SplitAppend(a, b);
    JoinedSplits(d, a, b, names);
    if names != [] {
      JoinCons(d, names, "/");
    }
  }

  lemma NonEmptyNames(d: string, a: string, b: string)
    requires d != ""
    ensures NonEmpty([d, a, b]) == [d] + ((if a == "" then [] else [a]) + (if b == "" then [] else [b]))
  {
    assert [d, a, b][1..] == [a, b] && [a, b][1..] == [b] && [b][1..] == [];
    assert NonEmpty([b]) == if b == "" then [] else [b];
    assert NonEmpty([a, b]) == (if a == "" then [] else [a]) + NonEmpty([b]);
  }

  // Joining without the empty names reads as the same path as with them.
  lemma JoinedSplits(d: string, a: string, b: string, names: seq<string>)
    requires names == (if a == "" then [] else [a]) + (if b == "" then [] else [b])
    ensures Walk(false, [], SplitOn(Join([d] + names, "/"), '/')) == Walk(false, [], SplitOn(d, '/') + (SplitOn(a, '/') + SplitOn(b, '/')))
  {
    var start := Walk(false, [], SplitOn(d, '/'));
    WalkAppend(false, [], SplitOn(d, '/'), SplitOn(a, '/') + SplitOn(b, '/'));
    WalkAppend(false, start, SplitOn(a, '/'), SplitOn(b, '/'));
    assert SplitOn("", '/') == [""] && forall stack :: Walk(false, stack, [""]) == stack;
    if a == "" && b == "" {
      assert [d] + names == [d];
    } else if a == "" || b == "" {
      var x := if a == "" then b else a;
      assert names == [x];
      JoinCons(d, [x], "/");
      SplitAppend(d, x);
      WalkAppend(false, [], SplitOn(d, '/'), SplitOn(x, '/'));
    } else {
      assert names == [a] + [b];
      JoinCons(d, names, "/");
      JoinCons(a, [b], "/");
      SplitAppend(a, b);
      assert d + "/" + (a + "/" + b) == Join([d] + names, "/");
      SplitAppend(d, a + "/" + b);
    }
  }

  // A parent segment takes back the plain segment before it, and does nothing at the root.
  lemma ParentTakesBack(path: string, segment: string, rest: string)
    requires PlainSegment(segment) && segment != ".."
    ensures path != "" ==> Clean(path + "/" + (segment + "/" + (".." + "/" + rest))) == Clean(path + "/" + rest)
    ensures Clean("/" + (".." + "/" + rest)) == Clean("/" + rest)
  {
    SplitWhole(segment);
    SplitWhole("..");
    SplitAppend("..", rest);
    SplitAppend(segment, ".." + "/" + rest);
    SplitAppend(path, segment + "/" + (".." + "/" + rest));
    SplitAppend(path, rest);
    var abs := IsAbs(path);
    var stack := Walk(abs, [], SplitOn(path, '/'));
    WalkAppend(abs, [], SplitOn(path, '/'), SplitOn(segment + "/" + (".." + "/" + rest), '/'));
    WalkAppend(abs, [], SplitOn(path, '/'), SplitOn(rest, '/'));
    TakesBack(abs, stack, segment, SplitOn(rest, '/'));
    SplitAppend("", ".." + "/" + rest);
    SplitAppend("", rest);
    assert "" + "/" + (".." + "/" + rest) == "/" + (".." + "/" + rest) && "" + "/" + rest == "/" + rest;
    AtTheRoot(SplitOn(rest, '/'));
  }

  lemma TakesBack(absolute: bool, stack: seq<string>, segment: string, rest: seq<string>)
    requires IsPlain(segment) && segment != ".."
    ensures Walk(absolute, stack, [segment] + ([".."] + rest)) == Walk(absolute, stack, rest)
  {
    assert ([segment] + ([".."] + rest))[1..] == [".."] + rest && ([".."] + rest)[1..] == rest;
    assert (stack + [segment])[..|stack|] == stack;
  }

  lemma AtTheRoot(rest: seq<string>)
    ensures Walk(true, [], [""] + ([".."] + rest)) == Walk(true, [], [""] + rest)
  {
    assert ([""] + ([".."] + rest))[1..] == [".."] + rest && ([".."] + rest)[1..] == rest && ([""] + rest)[1..] == rest;
  }
}
