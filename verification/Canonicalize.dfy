/**
 One representative row per text, from integrations/zotero_lightrag/index_revision.py. Rows are ordered by digest and
 source name; the first row of each stripped text is kept.
 */
module Canonicalize {
  import opened Seqs
  import opened Ordering

  // The fields the selection reads, and all others of the row.
  datatype Row = Row(sha256: string, source: string, text: string, others: string)

  type Strip = string -> string
  type Digest = string -> string

  predicate KeyLeq(a: Row, b: Row) {
    if a.sha256 == b.sha256 then StringLeq(a.source, b.source) else StringLeq(a.sha256, b.sha256)
  }

  lemma KeyOrder()
    ensures TotalPreorder(KeyLeq)
  {
    StringOrder();
    forall a, b
      ensures KeyLeq(a, b) || KeyLeq(b, a)
    {
      assert StringLeq(a.source, b.source) || StringLeq(b.source, a.source);
      assert StringLeq(a.sha256, b.sha256) || StringLeq(b.sha256, a.sha256);
    }
    forall a, b, c | KeyLeq(a, b) && KeyLeq(b, c)
      ensures KeyLeq(a, c)
    {
      KeyLeqChains(a, b, c);
    }
  }

  lemma KeyLeqChains(a: Row, b: Row, c: Row)
    requires KeyLeq(a, b) && KeyLeq(b, c)
    ensures KeyLeq(a, c)
  {
    if a.sha256 == b.sha256 == c.sha256 {
      StringLeqChains(a.source, b.source, c.source);
    } else if a.sha256 != b.sha256 && b.sha256 != c.sha256 {
      StringLeqChains(a.sha256, b.sha256, c.sha256);
      if a.sha256 == c.sha256 {
        StringsCompare(a.sha256, b.sha256);
      }
    }
  }

  lemma KeyTies(a: Row, b: Row)
    ensures KeyLeq(a, b) && KeyLeq(b, a) <==> (a.sha256, a.source) == (b.sha256, b.source)
  {
    StringsCompare(a.sha256, b.sha256);
    StringsCompare(a.source, b.source);
  }

  // ----- Keeping the first row of each text -----

  function Stripped(row: Row, strip: Strip): Row {
    row.(text := strip(row.text))
  }

  function ContentKey(row: Row, strip: Strip, digest: Digest): string {
    digest(strip(row.text))
  }

  function FirstOfEach(rows: seq<Row>, strip: Strip, digest: Digest, seen: set<string>): seq<Row>
    decreases |rows|
  {
    if rows == [] then []
    else
      var key := ContentKey(rows[0], strip, digest);
      if key in seen then FirstOfEach(rows[1..], strip, digest, seen)
      else [Stripped(rows[0], strip)] + FirstOfEach(rows[1..], strip, digest, seen + {key})
  }

  function Canonical(rows: seq<Row>, strip: Strip, digest: Digest): seq<Row> {
    FirstOfEach(Sort(rows, KeyLeq), strip, digest, {})
  }

  // The dictionary is its keys, and its values in the order they were added.
  method CanonicalizeRows(rows: seq<Row>, strip: Strip, digest: Digest) returns (out: seq<Row>)
    ensures out == Canonical(rows, strip, digest)
  {
    var sorted := Sort(rows, KeyLeq);
    var keys: set<string> := {};
    out := [];
    assert sorted[0..] == sorted;
    for i := 0 to |sorted|
      invariant out + FirstOfEach(sorted[i..], strip, digest, keys) == FirstOfEach(sorted, strip, digest, {})
    {
      FirstOfEachStep(sorted, i, strip, digest, keys, out);
      var key := ContentKey(sorted[i], strip, digest);
      if key !in keys {
        keys := keys + {key};
        out := out + [Stripped(sorted[i], strip)];
      }
    }
    assert out + [] == out;
  }

  lemma FirstOfEachStep(rows: seq<Row>, i: nat, strip: Strip, digest: Digest, keys: set<string>, out: seq<Row>)
    requires i < |rows|
    ensures var key := ContentKey(rows[i], strip, digest);
            out + FirstOfEach(rows[i..], strip, digest, keys) ==
            if key in keys then out + FirstOfEach(rows[i + 1..], strip, digest, keys)
            else out + [Stripped(rows[i], strip)] + FirstOfEach(rows[i + 1..], strip, digest, keys + {key})
  {
    var key := ContentKey(rows[i], strip, digest);
    assert rows[i..][1..] == rows[i + 1..];
    Assoc(out, [Stripped(rows[i], strip)], FirstOfEach(rows[i + 1..], strip, digest, keys + {key}));
  }

  // ----- What comes out -----

  ghost predicate DigestSeparates(digest: Digest) {
    forall a, b :: digest(a) == digest(b) ==> a == b
  }

  // The result strips row i, the first of its content.
  ghost predicate Keeps(rows: seq<Row>, i: int, result: Row, strip: Strip, digest: Digest) {
    && 0 <= i < |rows|
    && result == Stripped(rows[i], strip)
    && forall j :: 0 <= j < i ==> ContentKey(rows[j], strip, digest) != ContentKey(rows[i], strip, digest)
  }

  lemma {:induction false} ResultIsFirst(rows: seq<Row>, strip: Strip, digest: Digest, seen: set<string>, k: nat) returns (i: nat)
    requires k < |FirstOfEach(rows, strip, digest, seen)|
    ensures Keeps(rows, i, FirstOfEach(rows, strip, digest, seen)[k], strip, digest)
    ensures ContentKey(rows[i], strip, digest) !in seen
    decreases |rows|
  {
    var key := ContentKey(rows[0], strip, digest);
    if key in seen || k > 0 {
      var seen' := if key in seen then seen else seen + {key};
      i := ResultIsFirst(rows[1..], strip, digest, seen', if key in seen then k else k - 1);
      i := i + 1;
      assert forall j :: 1 <= j < i ==> rows[j] == rows[1..][j - 1];
    } else {
      i := 0;
    }
  }

  // Every unseen content gets a result.
  lemma {:induction false} EveryContentAppears(rows: seq<Row>, strip: Strip, digest: Digest, seen: set<string>, row: Row)
    requires row in rows && ContentKey(row, strip, digest) !in seen
    ensures exists k :: 0 <= k < |FirstOfEach(rows, strip, digest, seen)| &&
                        digest(FirstOfEach(rows, strip, digest, seen)[k].text) == ContentKey(row, strip, digest)
    decreases |rows|
  {
    var key, out := ContentKey(rows[0], strip, digest), FirstOfEach(rows, strip, digest, seen);
    if key == ContentKey(row, strip, digest) {
      assert out[0] == Stripped(rows[0], strip);
    } else {
      assert row in rows[1..];
      var seen' := if key in seen then seen else seen + {key};
      EveryContentAppears(rows[1..], strip, digest, seen', row);
      var rest := FirstOfEach(rows[1..], strip, digest, seen');
      var k :| 0 <= k < |rest| && digest(rest[k].text) == ContentKey(row, strip, digest);
      assert key !in seen ==> out[k + 1] == rest[k];
    }
  }

  ghost predicate ContentsDiffer(rows: seq<Row>, digest: Digest) {
    forall i, j :: 0 <= i < j < |rows| ==> digest(rows[i].text) != digest(rows[j].text)
  }

  lemma {:induction false} ResultsDiffer(rows: seq<Row>, strip: Strip, digest: Digest, seen: set<string>)
    ensures ContentsDiffer(FirstOfEach(rows, strip, digest, seen), digest)
    decreases |rows|
  {
    if rows != [] {
      var key := ContentKey(rows[0], strip, digest);
      var seen' := if key in seen then seen else seen + {key};
      var rest := FirstOfEach(rows[1..], strip, digest, seen');
      ResultsDiffer(rows[1..], strip, digest, seen');
      forall k | 0 <= k < |rest|
        ensures digest(rest[k].text) !in seen'
      {
        var i := ResultIsFirst(rows[1..], strip, digest, seen', k);
      }
      if key !in seen {
        assert FirstOfEach(rows, strip, digest, seen) == [Stripped(rows[0], strip)] + rest;
        assert digest(Stripped(rows[0], strip).text) in seen';
      } else {
        assert FirstOfEach(rows, strip, digest, seen) == rest;
      }
    }
  }

  // One result per distinct stripped text, no text twice.
  lemma OneRowPerText(rows: seq<Row>, strip: Strip, digest: Digest)
    requires DigestSeparates(digest)
    ensures var out := Canonical(rows, strip, digest);
            && (forall i, j :: 0 <= i < j < |out| ==> out[i].text != out[j].text)
            && (set result <- out :: result.text) == (set row <- rows :: strip(row.text))
  {
    var sorted, out := Sort(rows, KeyLeq), Canonical(rows, strip, digest);
    KeyOrder();
    SortSorts(rows, KeyLeq);
    ResultsDiffer(sorted, strip, digest, {});
    forall row | row in rows
      ensures strip(row.text) in set result <- out :: result.text
    {
      SameElements(rows, sorted, row);
      EveryContentAppears(sorted, strip, digest, {}, row);
      var k :| 0 <= k < |out| && digest(out[k].text) == ContentKey(row, strip, digest);
      assert out[k] in out && out[k].text == strip(row.text);
    }
    forall result | result in out
      ensures result.text in set row <- rows :: strip(row.text)
    {
      var k :| 0 <= k < |out| && out[k] == result;
      var i := ResultIsFirst(sorted, strip, digest, {}, k);
      SameElements(rows, sorted, sorted[i]);
    }
  }

  // Each result is the least row of its text under the key.
  lemma LeastRowIsKept(rows: seq<Row>, strip: Strip, digest: Digest, k: nat) returns (row: Row)
    requires k < |Canonical(rows, strip, digest)|
    ensures row in rows && Canonical(rows, strip, digest)[k] == Stripped(row, strip)
    ensures forall other :: other in rows && strip(other.text) == strip(row.text) ==> KeyLeq(row, other)
  {
    var sorted := Sort(rows, KeyLeq);
    KeyOrder();
    SortSorts(rows, KeyLeq);
    var i := ResultIsFirst(sorted, strip, digest, {}, k);
    row := sorted[i];
    SameElements(rows, sorted, row);
    forall other | other in rows && strip(other.text) == strip(row.text)
      ensures KeyLeq(row, other)
    {
      SameElements(rows, sorted, other);
      FirstIsLeast(sorted, i, other, strip, digest);
    }
  }

  lemma FirstIsLeast(sorted: seq<Row>, i: nat, other: Row, strip: Strip, digest: Digest)
    requires SortedBy(sorted, KeyLeq) && i < |sorted| && Keeps(sorted, i, Stripped(sorted[i], strip), strip, digest)
    requires other in sorted && ContentKey(other, strip, digest) == ContentKey(sorted[i], strip, digest)
    ensures KeyLeq(sorted[i], other)
  {
    var j :| 0 <= j < |sorted| && sorted[j] == other;
    KeyTies(other, other);
  }

  ghost predicate KeysIdentify(rows: seq<Row>) {
    forall a, b :: a in rows && b in rows && (a.sha256, a.source) == (b.sha256, b.source) ==> a == b
  }

  // The order the rows come in does not matter, as long as the key tells rows apart.
  lemma CanonicalIgnoresOrder(rows: seq<Row>, permuted: seq<Row>, strip: Strip, digest: Digest)
    requires multiset(rows) == multiset(permuted) && KeysIdentify(rows)
    ensures Canonical(rows, strip, digest) == Canonical(permuted, strip, digest)
  {
    KeyOrder();
    forall a, b | a in rows && b in rows && KeyLeq(a, b) && KeyLeq(b, a)
      ensures a == b
    {
      KeyTies(a, b);
    }
    SortIgnoresOrder(rows, permuted, KeyLeq);
  }

  // The rows that may be kept: none of the same content comes before them under the key.
  ghost predicate Leads(rows: seq<Row>, row: Row, strip: Strip, digest: Digest) {
    row in rows && forall other :: other in rows && ContentKey(other, strip, digest) == ContentKey(row, strip, digest) ==> KeyLeq(row, other)
  }

  // Of the rows that may be kept, those that share a key are one row once stripped.
  ghost predicate LeadersAgree(rows: seq<Row>, strip: Strip, digest: Digest) {
    forall a, b :: Leads(rows, a, strip, digest) && Leads(rows, b, strip, digest) && (a.sha256, a.source) == (b.sha256, b.source) ==>
                     Stripped(a, strip) == Stripped(b, strip)
  }

  ghost predicate OrderIgnored(rows: seq<Row>, strip: Strip, digest: Digest) {
    forall permuted :: multiset(permuted) == multiset(rows) ==> Canonical(permuted, strip, digest) == Canonical(rows, strip, digest)
  }

  // The order the rows come in does not matter exactly when the rows that may be kept and share a key are one row once
  // stripped. Ties among other rows do no harm.
  lemma CanonicalIgnoresOrderIff(rows: seq<Row>, strip: Strip, digest: Digest)
    ensures OrderIgnored(rows, strip, digest) <==> LeadersAgree(rows, strip, digest)
  {
    if LeadersAgree(rows, strip, digest) {
      forall permuted | multiset(permuted) == multiset(rows)
        ensures Canonical(permuted, strip, digest) == Canonical(rows, strip, digest)
      {
        SameLeadersSameList(rows, permuted, strip, digest);
      }
    } else {
      var a, b :| && Leads(rows, a, strip, digest) && Leads(rows, b, strip, digest)
                  && (a.sha256, a.source) == (b.sha256, b.source) && Stripped(a, strip) != Stripped(b, strip);
      TiedLeadersShow(rows, a, b, strip, digest);
    }
  }

  lemma LeadsPermuted(rows: seq<Row>, permuted: seq<Row>, row: Row, strip: Strip, digest: Digest)
    requires multiset(rows) == multiset(permuted)
    ensures Leads(rows, row, strip, digest) <==> Leads(permuted, row, strip, digest)
  {
    forall x
      ensures x in rows <==> x in permuted
    {
      SameElements(rows, permuted, x);
    }
  }

  // ----- Leaders that agree -----

  // Each result strips a row that leads.
  lemma ResultLeads(rows: seq<Row>, strip: Strip, digest: Digest, k: nat) returns (row: Row)
    requires k < |Canonical(rows, strip, digest)|
    ensures Leads(rows, row, strip, digest) && Canonical(rows, strip, digest)[k] == Stripped(row, strip)
  {
    var sorted := Sort(rows, KeyLeq);
    KeyOrder();
    SortSorts(rows, KeyLeq);
    var i := ResultIsFirst(sorted, strip, digest, {}, k);
    row := sorted[i];
    SameElements(rows, sorted, row);
    forall other | other in rows && ContentKey(other, strip, digest) == ContentKey(row, strip, digest)
      ensures KeyLeq(row, other)
    {
      SameElements(rows, sorted, other);
      FirstIsLeast(sorted, i, other, strip, digest);
    }
  }

  // When the leaders agree, every leader stripped is a result.
  lemma LeaderIsKept(rows: seq<Row>, row: Row, strip: Strip, digest: Digest)
    requires LeadersAgree(rows, strip, digest) && Leads(rows, row, strip, digest)
    ensures Stripped(row, strip) in Canonical(rows, strip, digest)
  {
    var sorted, out := Sort(rows, KeyLeq), Canonical(rows, strip, digest);
    KeyOrder();
    SortSorts(rows, KeyLeq);
    SameElements(rows, sorted, row);
    EveryContentAppears(sorted, strip, digest, {}, row);
    var k :| 0 <= k < |out| && digest(out[k].text) == ContentKey(row, strip, digest);
    var kept := ResultLeads(rows, strip, digest, k);
    KeyTies(kept, row);
    assert out[k] in out;
  }

  // No two results share a key then.
  lemma ResultsNotTied(rows: seq<Row>, strip: Strip, digest: Digest)
    requires LeadersAgree(rows, strip, digest)
    ensures NoTies(Canonical(rows, strip, digest), KeyLeq)
  {
    var out := Canonical(rows, strip, digest);
    forall x, y | x in out && y in out && KeyLeq(x, y) && KeyLeq(y, x)
      ensures x == y
    {
      var i :| 0 <= i < |out| && out[i] == x;
      var j :| 0 <= j < |out| && out[j] == y;
      var a := ResultLeads(rows, strip, digest, i);
      var b := ResultLeads(rows, strip, digest, j);
      KeyTies(x, y);
    }
  }

  lemma {:induction false} DifferentElementsOnce<X>(s: seq<X>, x: X)
    requires forall i, j :: 0 <= i < j < |s| ==> s[i] != s[j]
    ensures multiset(s)[x] == if x in s then 1 else 0
  {
    if s != [] {
      DifferentElementsOnce(s[1..], x);
      assert s == [s[0]] + s[1..];
    }
  }

  lemma SameLeadersSameList(rows: seq<Row>, permuted: seq<Row>, strip: Strip, digest: Digest)
    requires LeadersAgree(rows, strip, digest) && multiset(permuted) == multiset(rows)
    ensures Canonical(permuted, strip, digest) == Canonical(rows, strip, digest)
  {
    var a, b := Canonical(rows, strip, digest), Canonical(permuted, strip, digest);
    PermutedLeadersAgree(rows, permuted, strip, digest);
    CanonicalSorted(rows, strip, digest);
    CanonicalSorted(permuted, strip, digest);
    ResultsNotTied(rows, strip, digest);
    forall x
      ensures multiset(a)[x] == multiset(b)[x]
    {
      SameResults(rows, permuted, strip, digest, x);
      SameResults(permuted, rows, strip, digest, x);
      DifferentElementsOnce(a, x);
      DifferentElementsOnce(b, x);
    }
    KeyOrder();
    SortedIsUnique(a, b, KeyLeq);
  }

  lemma PermutedLeadersAgree(rows: seq<Row>, permuted: seq<Row>, strip: Strip, digest: Digest)
    requires LeadersAgree(rows, strip, digest) && multiset(permuted) == multiset(rows)
    ensures LeadersAgree(permuted, strip, digest)
  {
    forall row
      ensures Leads(rows, row, strip, digest) <==> Leads(permuted, row, strip, digest)
    {
      LeadsPermuted(rows, permuted, row, strip, digest);
    }
  }

  lemma SameResults(rows: seq<Row>, permuted: seq<Row>, strip: Strip, digest: Digest, x: Row)
    requires LeadersAgree(permuted, strip, digest) && multiset(permuted) == multiset(rows)
    ensures x in Canonical(rows, strip, digest) ==> x in Canonical(permuted, strip, digest)
  {
    var out := Canonical(rows, strip, digest);
    if x in out {
      var k :| 0 <= k < |out| && out[k] == x;
      var row := ResultLeads(rows, strip, digest, k);
      LeadsPermuted(rows, permuted, row, strip, digest);
      LeaderIsKept(permuted, row, strip, digest);
    }
  }

  lemma CanonicalSorted(rows: seq<Row>, strip: Strip, digest: Digest)
    ensures SortedBy(Canonical(rows, strip, digest), KeyLeq)
    ensures var out := Canonical(rows, strip, digest); forall i, j :: 0 <= i < j < |out| ==> out[i] != out[j]
  {
    KeyOrder();
    SortSorts(rows, KeyLeq);
    FirstOfEachSorted(Sort(rows, KeyLeq), strip, digest, {});
    ResultsDiffer(Sort(rows, KeyLeq), strip, digest, {});
  }

  // ----- Leaders that differ -----

  lemma {:induction false} InsertPlace(x: Row, s: seq<Row>) returns (i: nat)
    ensures i <= |s| && Insert(x, s, KeyLeq) == s[..i] + ([x] + s[i..])
    ensures forall j :: 0 <= j < i ==> !KeyLeq(x, s[j])
  {
    i := 0;
    if s != [] && !KeyLeq(x, s[0]) {
      var k := InsertPlace(x, s[1..]);
      i := k + 1;
      assert s[..i] == [s[0]] + s[1..][..k];
      Assoc([s[0]], s[1..][..k], [x] + s[1..][k..]);
      assert s[i..] == s[1..][k..];
    }
  }

  function Contents(rows: seq<Row>, strip: Strip, digest: Digest): set<string> {
    set row <- rows :: ContentKey(row, strip, digest)
  }

  lemma {:induction false} FirstOfEachAppend(a: seq<Row>, b: seq<Row>, strip: Strip, digest: Digest, seen: set<string>)
    ensures FirstOfEach(a + b, strip, digest, seen) ==
            FirstOfEach(a, strip, digest, seen) + FirstOfEach(b, strip, digest, seen + Contents(a, strip, digest))
    decreases |a|
  {
    if a == [] {
      assert a + b == b;
      assert seen + Contents(a, strip, digest) == seen;
    } else {
      var key := ContentKey(a[0], strip, digest);
      var seen' := if key in seen then seen else seen + {key};
      assert (a + b)[1..] == a[1..] + b;
      FirstOfEachAppend(a[1..], b, strip, digest, seen');
      assert seen' + Contents(a[1..], strip, digest) == seen + Contents(a, strip, digest) by {
        assert a == [a[0]] + a[1..];
      }
      Assoc([Stripped(a[0], strip)], FirstOfEach(a[1..], strip, digest, seen'), FirstOfEach(b, strip, digest, seen + Contents(a, strip, digest)));
    }
  }

  // A leader that comes first in the input is kept, behind results that are strictly less than it.
  lemma LeaderInFront(row: Row, rest: seq<Row>, strip: Strip, digest: Digest) returns (k: nat)
    requires Leads([row] + rest, row, strip, digest)
    ensures k < |Canonical([row] + rest, strip, digest)| && Canonical([row] + rest, strip, digest)[k] == Stripped(row, strip)
    ensures forall j :: 0 <= j < k ==> !KeyLeq(row, Canonical([row] + rest, strip, digest)[j])
  {
    var rows, sorted := [row] + rest, Sort(rest, KeyLeq);
    KeyOrder();
    SortSorts(rest, KeyLeq);
    assert rows[1..] == rest;
    var i := InsertPlace(row, sorted);
    var before := sorted[..i];
    forall x | x in before
      ensures ContentKey(x, strip, digest) != ContentKey(row, strip, digest)
    {
      var j :| 0 <= j < i && sorted[j] == x;
      SameElements(rest, sorted, x);
      assert x in rows;
    }
    KeptBehind(before, row, sorted[i..], strip, digest);
    k := |FirstOfEach(before, strip, digest, {})|;
    assert forall n :: 0 <= n < |before| ==> before[n] == sorted[n];
    ResultsAreLess(row, before, strip, digest);
  }

  lemma ResultsAreLess(row: Row, before: seq<Row>, strip: Strip, digest: Digest)
    requires forall n :: 0 <= n < |before| ==> !KeyLeq(row, before[n])
    ensures var results := FirstOfEach(before, strip, digest, {}); forall j :: 0 <= j < |results| ==> !KeyLeq(row, results[j])
  {
    forall j | 0 <= j < |FirstOfEach(before, strip, digest, {})|
      ensures !KeyLeq(row, FirstOfEach(before, strip, digest, {})[j])
    {
      var n := ResultIsFirst(before, strip, digest, {}, j);
    }
  }

  // A row whose content does not come before it is the next result.
  lemma KeptBehind(before: seq<Row>, row: Row, behind: seq<Row>, strip: Strip, digest: Digest)
    requires forall x :: x in before ==> ContentKey(x, strip, digest) != ContentKey(row, strip, digest)
    ensures FirstOfEach(before, strip, digest, {}) + [Stripped(row, strip)] <= FirstOfEach(before + ([row] + behind), strip, digest, {})
  {
    FirstOfEachAppend(before, [row] + behind, strip, digest, {});
    assert ContentKey(row, strip, digest) !in {} + Contents(before, strip, digest);
  }

  lemma TakeOut<X>(s: seq<X>, x: X) returns (rest: seq<X>)
    requires x in s
    ensures multiset(s) == multiset([x] + rest)
  {
    var i :| 0 <= i < |s| && s[i] == x;
    rest := s[..i] + s[i + 1..];
    assert s == s[..i] + ([s[i]] + s[i + 1..]);
  }

  // Two leaders with one key that differ once stripped: put in front by turns, each is the first result of its key.
  lemma TiedLeadersShow(rows: seq<Row>, a: Row, b: Row, strip: Strip, digest: Digest)
    requires Leads(rows, a, strip, digest) && Leads(rows, b, strip, digest)
    requires (a.sha256, a.source) == (b.sha256, b.source) && Stripped(a, strip) != Stripped(b, strip)
    ensures !OrderIgnored(rows, strip, digest)
  {
    var restA := TakeOut(rows, a);
    var restB := TakeOut(rows, b);
    LeadsPermuted(rows, [a] + restA, a, strip, digest);
    LeadsPermuted(rows, [b] + restB, b, strip, digest);
    var i := LeaderInFront(a, restA, strip, digest);
    var j := LeaderInFront(b, restB, strip, digest);
    if Canonical([a] + restA, strip, digest) == Canonical([b] + restB, strip, digest) {
      var out := Canonical([a] + restA, strip, digest);
      KeyTies(a, out[j]);
      KeyTies(b, out[i]);
    }
  }

  // A corpus that passed the check has rows with different base names, so its rows come in any order.
  lemma CheckedRowsIgnoreOrder(rows: seq<Row>, basename: string -> string, strip: Strip, digest: Digest)
    requires forall i, j :: 0 <= i < j < |rows| ==> basename(rows[i].source) != basename(rows[j].source)
    ensures OrderIgnored(rows, strip, digest)
  {
    forall a, b | a in rows && b in rows && (a.sha256, a.source) == (b.sha256, b.source)
      ensures a == b
    {
      var i :| 0 <= i < |rows| && rows[i] == a;
      var j :| 0 <= j < |rows| && rows[j] == b;
      assert basename(rows[i].source) == basename(rows[j].source);
    }
    CanonicalIgnoresOrderIff(rows, strip, digest);
  }

  // The smallest witness: of two rows with one key and one stripped text, whichever comes first is kept.
  lemma TiedRowsKeepTheFirst(a: Row, b: Row, strip: Strip, digest: Digest)
    requires (a.sha256, a.source) == (b.sha256, b.source) && strip(a.text) == strip(b.text)
    ensures Canonical([a, b], strip, digest) == [Stripped(a, strip)]
    ensures Canonical([a, b], strip, digest) == Canonical([b, a], strip, digest) <==> a.others == b.others
  {
    SortTied(a, b);
    SortTied(b, a);
    FirstOfTwo(a, b, strip, digest);
    FirstOfTwo(b, a, strip, digest);
  }

  lemma SortTied(a: Row, b: Row)
    requires (a.sha256, a.source) == (b.sha256, b.source)
    ensures Sort([a, b], KeyLeq) == [a, b]
  {
    KeyTies(a, b);
    assert [a, b][1..] == [b];
    assert [b][1..] == [];
  }

  lemma FirstOfTwo(a: Row, b: Row, strip: Strip, digest: Digest)
    requires strip(a.text) == strip(b.text)
    ensures FirstOfEach([a, b], strip, digest, {}) == [Stripped(a, strip)]
  {
    var key := ContentKey(a, strip, digest);
    assert [a, b][1..] == [b];
    assert [b][1..] == [];
    assert FirstOfEach([b], strip, digest, {} + {key}) == [];
    assert {} + {key} == {key};
  }

  // ----- Doing it again -----

  lemma {:induction false} FirstOfEachAgain(rows: seq<Row>, strip: Strip, digest: Digest, seen: set<string>)
    requires forall i :: 0 <= i < |rows| ==> strip(rows[i].text) == rows[i].text && digest(rows[i].text) !in seen
    requires ContentsDiffer(rows, digest)
    ensures FirstOfEach(rows, strip, digest, seen) == rows
    decreases |rows|
  {
    if rows != [] {
      assert rows[0] == Stripped(rows[0], strip);
      assert forall i :: 1 <= i < |rows| ==> rows[i] == rows[1..][i - 1];
      FirstOfEachAgain(rows[1..], strip, digest, seen + {digest(rows[0].text)});
    }
  }

  lemma {:induction false} SortedStays(rows: seq<Row>)
    requires SortedBy(rows, KeyLeq)
    ensures Sort(rows, KeyLeq) == rows
  {
    if rows != [] {
      TailSorted(rows, KeyLeq);
      SortedStays(rows[1..]);
      assert |rows| > 1 ==> KeyLeq(rows[0], rows[1]);
      assert rows == [rows[0]] + rows[1..];
    }
  }

  lemma {:induction false} FirstOfEachSorted(rows: seq<Row>, strip: Strip, digest: Digest, seen: set<string>)
    requires SortedBy(rows, KeyLeq)
    ensures SortedBy(FirstOfEach(rows, strip, digest, seen), KeyLeq)
    decreases |rows|
  {
    if rows != [] {
      TailSorted(rows, KeyLeq);
      var key := ContentKey(rows[0], strip, digest);
      var seen' := if key in seen then seen else seen + {key};
      FirstOfEachSorted(rows[1..], strip, digest, seen');
      var rest := FirstOfEach(rows[1..], strip, digest, seen');
      forall k | 0 <= k < |rest|
        ensures KeyLeq(Stripped(rows[0], strip), rest[k])
      {
        var i := ResultIsFirst(rows[1..], strip, digest, seen', k);
        assert KeyLeq(rows[0], rows[i + 1]);
      }
      SortedCons(Stripped(rows[0], strip), rest, KeyLeq);
    }
  }

  lemma FirstOfEachTwice(sorted: seq<Row>, strip: Strip, digest: Digest)
    requires forall s :: strip(strip(s)) == strip(s)
    ensures var out := FirstOfEach(sorted, strip, digest, {});
            FirstOfEach(out, strip, digest, {}) == out
  {
    var out := FirstOfEach(sorted, strip, digest, {});
    ResultsDiffer(sorted, strip, digest, {});
    forall k | 0 <= k < |out|
      ensures strip(out[k].text) == out[k].text
    {
      var i := ResultIsFirst(sorted, strip, digest, {}, k);
    }
    FirstOfEachAgain(out, strip, digest, {});
  }

  // The result is its own canonical form: results come in key order, already stripped and with distinct texts.
  lemma CanonicalTwice(rows: seq<Row>, strip: Strip, digest: Digest)
    requires forall s :: strip(strip(s)) == strip(s)
    ensures Canonical(Canonical(rows, strip, digest), strip, digest) == Canonical(rows, strip, digest)
  {
    var sorted := Sort(rows, KeyLeq);
    KeyOrder();
    SortSorts(rows, KeyLeq);
    FirstOfEachSorted(sorted, strip, digest, {});
    SortedStays(FirstOfEach(sorted, strip, digest, {}));
    FirstOfEachTwice(sorted, strip, digest);
  }
}
