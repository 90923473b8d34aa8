/** Joining and splitting of strings, shared by the printers and readers. */
module Text {

  // strings.Join
  function Join(parts: seq<string>, sep: string): string {
    if parts == [] then ""
    else if |parts| == 1 then parts[0]
    else parts[0] + sep + Join(parts[1..], sep)
  }

  // Appending one more part.
  lemma {:induction false} JoinSnoc(parts: seq<string>, last: string, sep: string)
    ensures Join(parts + [last], sep) == if parts == [] then last else Join(parts, sep) + sep + last
  {
    if |parts| == 1 {
      assert (parts + [last])[1..] == [last];
    } else if parts != [] {
      assert (parts + [last])[1..] == parts[1..] + [last];
      JoinSnoc(parts[1..], last, sep);
      var head := parts[0] + sep;
      assert head + (Join(parts[1..], sep) + sep + last) == head + Join(parts[1..], sep) + sep + last;
    } else {
      assert parts + [last] == [last];
    }
  }

  // strings.Split at one character: always at least one part.
  function SplitOn(s: string, sep: char): (parts: seq<string>)
    ensures |parts| > 0
  {
    if s == "" then [""]
    else
      var rest := SplitOn(s[1..], sep);
      if s[0] == sep then [""] + rest else [[s[0]] + rest[0]] + rest[1..]
  }

  predicate Without(s: string, sep: char) {
    forall i :: 0 <= i < |s| ==> s[i] != sep
  }

  lemma {:induction false} PartsWithout(s: string, sep: char)
    ensures forall i :: 0 <= i < |SplitOn(s, sep)| ==> Without(SplitOn(s, sep)[i], sep)
  {
    if s != "" {
      PartsWithout(s[1..], sep);
    }
  }

  lemma JoinCons(head: string, rest: seq<string>, sep: string)
    requires rest != []
    ensures Join([head] + rest, sep) == head + sep + Join(rest, sep)
  {
    assert ([head] + rest)[1..] == rest;
  }

  lemma {:induction false} JoinAppend(a: seq<string>, b: seq<string>, sep: string)
    requires a != [] && b != []
    ensures Join(a + b, sep) == Join(a, sep) + sep + Join(b, sep)
    decreases |a|
  {
    assert a + b == [a[0]] + (a[1..] + b) && a == [a[0]] + a[1..];
    if |a| == 1 {
      JoinCons(a[0], b, sep);
    } else {
      JoinAppend(a[1..], b, sep);
      JoinCons(a[0], a[1..] + b, sep);
      JoinCons(a[0], a[1..], sep);
      Rejoin(a[0], sep, Join(a[1..], sep), Join(b, sep));
    }
  }

  lemma Rejoin(a: string, sep: string, b: string, c: string)
    ensures a + sep + (b + sep + c) == a + sep + b + sep + c
  {
  }

  lemma {:induction false} JoinOfSplit(s: string, sep: char)
    ensures Join(SplitOn(s, sep), [sep]) == s
  {
    if s != "" {
      var rest := SplitOn(s[1..], sep);
      JoinOfSplit(s[1..], sep);
      assert [s[0]] + s[1..] == s;
      if s[0] == sep {
        JoinCons("", rest, [sep]);
        assert "" + [sep] + s[1..] == s;
      } else if |rest| == 1 {
        assert SplitOn(s, sep) == [[s[0]] + rest[0]];
      } else {
        var c, others := [s[0]], Join(rest[1..], [sep]);
        JoinCons(rest[0], rest[1..], [sep]);
        JoinCons(c + rest[0], rest[1..], [sep]);
        assert [rest[0]] + rest[1..] == rest;
        assert c + rest[0] + [sep] + others == c + (rest[0] + [sep] + others);
      }
    }
  }

  // A part and its separator in front of a text.
  lemma {:induction false} SplitCons(part: string, sep: char, s: string)
    requires Without(part, sep)
    ensures SplitOn(part + [sep] + s, sep) == [part] + SplitOn(s, sep)
  {
    var t := part + [sep] + s;
    if part == "" {
      assert t[1..] == s;
    } else {
      assert t[1..] == part[1..] + [sep] + s;
      SplitCons(part[1..], sep, s);
      assert [part[0]] + part[1..] == part;
      assert ([part[1..]] + SplitOn(s, sep))[1..] == SplitOn(s, sep);
    }
  }

  // Line by line.
  function SplitLines(s: string): (lines: seq<string>)
    ensures |lines| > 0
  {
    SplitOn(s, '\n')
  }

  predicate NoLineFeed(s: string) {
    Without(s, '\n')
  }

  // unicode.IsSpace
  predicate IsSpace(c: char) {
    || c == ' ' || '\t' <= c <= '\r' || c == '\U{85}' || c == '\U{A0}' || c == '\U{1680}' || '\U{2000}' <= c <= '\U{200A}'
    || c == '\U{2028}' || c == '\U{2029}' || c == '\U{202F}' || c == '\U{205F}' || c == '\U{3000}'
  }

  // strings.TrimSpace leaves nothing.
  predicate IsBlank(s: string) {
    s == "" || (IsSpace(s[0]) && IsBlank(s[1..]))
  }

  lemma {:induction false} IsBlankAt(s: string)
    ensures IsBlank(s) <==> forall i :: 0 <= i < |s| ==> IsSpace(s[i])
  {
    if s != "" {
      IsBlankAt(s[1..]);
      if forall i :: 0 <= i < |s[1..]| ==> IsSpace(s[1..][i]) {
        assert forall i :: 1 <= i < |s| ==> s[i] == s[1..][i - 1];
      } else {
        var i :| 0 <= i < |s[1..]| && !IsSpace(s[1..][i]);
        assert !IsSpace(s[i + 1]);
      }
    }
  }

  lemma {:induction false} IsBlankAppend(a: string, b: string)
    ensures IsBlank(a + b) <==> IsBlank(a) && IsBlank(b)
  {
    if a == "" {
      assert a + b == b;
    } else {
      assert (a + b)[1..] == a[1..] + b;
      IsBlankAppend(a[1..], b);
    }
  }

  function TrimLeft(s: string): (t: string)
    ensures |t| <= |s|
  {
    if s != "" && IsSpace(s[0]) then TrimLeft(s[1..]) else s
  }

  function TrimRight(s: string): (t: string)
    ensures |t| <= |s|
  {
    if s != "" && IsSpace(s[|s| - 1]) then TrimRight(s[..|s| - 1]) else s
  }

  // strings.TrimSpace
  function TrimSpace(s: string): string {
    TrimRight(TrimLeft(s))
  }

  lemma {:induction false} TrimLeftStarts(s: string)
    ensures TrimLeft(s) == "" || !IsSpace(TrimLeft(s)[0])
  {
    if s != "" && IsSpace(s[0]) {
      TrimLeftStarts(s[1..]);
    }
  }

  lemma {:induction false} TrimRightEnds(s: string)
    ensures var r := TrimRight(s);
            && (r == "" || !IsSpace(r[|r| - 1]))
            && (s != "" && !IsSpace(s[0]) ==> r != "" && r[0] == s[0])
  {
    if s != "" && IsSpace(s[|s| - 1]) {
      TrimRightEnds(s[..|s| - 1]);
    }
  }

  lemma TrimmedStaysTrimmed(s: string)
    ensures TrimSpace(TrimSpace(s)) == TrimSpace(s)
    ensures TrimSpace(s) == "" || !IsBlank(TrimSpace(s))
  {
    TrimLeftStarts(s);
    TrimRightEnds(TrimLeft(s));
  }

  // A text without the white space around it, told by its place in the text.
  ghost predicate Bared(s: string, t: string, i: nat, j: nat) {
    && i <= j <= |s| && t == s[i..j]
    && (forall k :: 0 <= k < i ==> IsSpace(s[k])) && (forall k :: j <= k < |s| ==> IsSpace(s[k]))
    && (t != "" ==> !IsSpace(t[0]) && !IsSpace(t[|t| - 1]))
  }

  lemma {:induction false} TrimLeftCuts(s: string) returns (i: nat)
    ensures i <= |s| && TrimLeft(s) == s[i..] && forall k :: 0 <= k < i ==> IsSpace(s[k])
  {
    i := 0;
    if s != "" && IsSpace(s[0]) {
      i := TrimLeftCuts(s[1..]);
      i := i + 1;
    }
  }

  lemma {:induction false} TrimRightCuts(s: string) returns (j: nat)
    ensures j <= |s| && TrimRight(s) == s[..j] && forall k :: j <= k < |s| ==> IsSpace(s[k])
  {
    j := |s|;
    if s != "" && IsSpace(s[|s| - 1]) {
      j := TrimRightCuts(s[..|s| - 1]);
    }
  }

  // Trimming takes the white space around a text and nothing else, and that determines it.
  lemma TrimSpaceBares(s: string) returns (i: nat, j: nat)
    ensures Bared(s, TrimSpace(s), i, j)
  {
    i := TrimLeftCuts(s);
    TrimLeftStarts(s);
    TrimRightEnds(s[i..]);
    j := TrimRightCuts(s[i..]);
    j := i + j;
    assert s[i..][..j - i] == s[i..j];
  }

  lemma BaredOnce(s: string, a: string, i: nat, j: nat, b: string, k: nat, l: nat)
    requires Bared(s, a, i, j) && Bared(s, b, k, l)
    ensures a == b
  {
    assert a != "" ==> !IsSpace(s[i]) && !IsSpace(s[j - 1]);
    assert b != "" ==> !IsSpace(s[k]) && !IsSpace(s[l - 1]);
  }
}
