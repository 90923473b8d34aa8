/**
 Reading the collections below a root, from integrations/zotero_lightrag/publish_corpus.py: the pages of one listing,
 and the worklist over a child relation that may have cycles. Each request is answered from one unchanging library.
 */
module CollectionTree {
  import opened Outcomes
  import opened Seqs
  import opened Ordering

  // ----- Pages -----

  // Asks for a hundred at a time until a page comes back short. The server never sends more than its own limit.
  method AllPages<X>(items: seq<X>, serverLimit: nat) returns (output: seq<X>)
    ensures output == AsListed(items, serverLimit)
  {
    output := [];
    var start := 0;
    while true
      invariant start == |output| <= |items| && output == items[..start]
      invariant serverLimit < 100 ==> start == 0
      decreases |items| - start
    {
      var asked := if serverLimit < 100 then serverLimit else 100;
      var end := if |items| < start + asked then |items| else start + asked;
      var payload := items[start..end];
      output := output + payload;
      if |payload| < 100 {
        return;
      }
      start := start + |payload|;
    }
  }

  function AsListed<X>(items: seq<X>, serverLimit: nat): seq<X> {
    if serverLimit < 100 && serverLimit < |items| then items[..serverLimit] else items
  }

  // The whole listing comes back unless the server's pages are shorter than asked for and the listing is longer.
  lemma ListingIsCompleteIff<X>(items: seq<X>, serverLimit: nat)
    ensures AsListed(items, serverLimit) == items <==> serverLimit >= 100 || |items| <= serverLimit
  {
    if serverLimit < 100 && serverLimit < |items| {
      assert |items[..serverLimit]| != |items|;
    }
  }

  // ----- Collections -----

  // A key may stand at the top of the record, in its data, or be missing.
  datatype Collection = Collection(key: Option<string>, dataKey: Option<string>, name: string)

  function ItemKey(c: Collection): (key: string)
    ensures c.key.Some? && c.key.value != "" ==> key == c.key.value
    ensures c.key in {None, Some("")} ==> c.dataKey == Some(key) || (c.dataKey == None && key == "")
  {
    if c.key.Some? && c.key.value != "" then c.key.value
    else if c.dataKey.Some? then c.dataKey.value
    else ""
  }

  type Library = string -> seq<Collection>

  predicate HasChild(library: Library, parent: string, child: string) {
    child != "" && exists c :: c in library(parent) && ItemKey(c) == child
  }

  // There is a chain of exactly n steps from the root down to the key.
  ghost predicate ReachIn(library: Library, root: string, key: string, n: nat)
    decreases n
  {
    if n == 0 then key == root
    else exists parent :: ReachIn(library, root, parent, n - 1) && HasChild(library, parent, key)
  }

  // The keys that can turn up are finitely many.
  ghost predicate Closed(library: Library, root: string, universe: set<string>) {
    && root in universe
    && forall parent, child :: parent in universe && HasChild(library, parent, child) ==> child in universe
  }

  // ----- The worklist -----

  // Visited keys and waiting keys, each with the number of steps it was found at.
  datatype Walk = Walk(visited: seq<string>, levels: seq<nat>, waiting: seq<string>, depths: seq<nat>)

  ghost predicate Listed(keys: seq<string>, steps: seq<nat>, key: string, bound: nat)
    requires |keys| == |steps|
  {
    exists i :: 0 <= i < |keys| && keys[i] == key && steps[i] <= bound
  }

  ghost predicate Paired(w: Walk) {
    |w.visited| == |w.levels| && |w.waiting| == |w.depths|
  }

  ghost predicate Found(w: Walk, key: string, bound: nat)
    requires Paired(w)
  {
    Listed(w.visited, w.levels, key, bound) || Listed(w.waiting, w.depths, key, bound)
  }

  ghost predicate Reached(library: Library, root: string, keys: seq<string>, steps: seq<nat>)
    requires |keys| == |steps|
  {
    forall i :: 0 <= i < |keys| && keys[i] != "" ==> ReachIn(library, root, keys[i], steps[i])
  }

  ghost predicate NonDecreasing(s: seq<nat>) {
    forall i, j :: 0 <= i < j < |s| ==> s[i] <= s[j]
  }

  // Steps never go down along the visited keys and on through the waiting ones, which span two levels at most.
  ghost predicate InLevels(w: Walk)
    requires Paired(w)
  {
    && NonDecreasing(w.levels + w.depths)
    && forall i :: 0 <= i < |w.depths| ==> w.depths[i] <= w.depths[0] + 1
  }

  ghost predicate ChildrenFound(library: Library, w: Walk)
    requires Paired(w)
  {
    forall i, child :: 0 <= i < |w.visited| && HasChild(library, w.visited[i], child) ==> Found(w, child, w.levels[i] + 1)
  }

  ghost predicate Inv(library: Library, root: string, w: Walk) {
    && Paired(w)
    && Reached(library, root, w.visited, w.levels) && Reached(library, root, w.waiting, w.depths)
    && InLevels(w)
    && (forall i :: 0 <= i < |w.visited| ==> w.visited[i] != "")
    && (forall i, j :: 0 <= i < j < |w.visited| ==> w.visited[i] != w.visited[j])
    && (root != "" ==> Found(w, root, 0))
    && ChildrenFound(library, w)
  }

  function Skip(w: Walk): Walk
    requires w.waiting != [] && w.depths != []
  {
    w.(waiting := w.waiting[1..], depths := w.depths[1..])
  }

  function Visit(w: Walk, children: seq<string>): Walk
    requires w.waiting != [] && w.depths != []
  {
    Walk(w.visited + [w.waiting[0]], w.levels + [w.depths[0]],
         w.waiting[1..] + children, w.depths[1..] + seq(|children|, _ => w.depths[0] + 1))
  }

  lemma VisitedEarlier(library: Library, root: string, w: Walk)
    requires Inv(library, root, w) && w.waiting != [] && w.waiting[0] in w.visited
    ensures Listed(w.visited, w.levels, w.waiting[0], w.depths[0])
  {
    var j :| 0 <= j < |w.visited| && w.visited[j] == w.waiting[0];
    var all := w.levels + w.depths;
    assert all[j] <= all[|w.levels|];
  }

  lemma SkipKeepsFound(library: Library, root: string, w: Walk, key: string, bound: nat)
    requires Inv(library, root, w) && w.waiting != [] && w.waiting[0] in w.visited
    requires Found(w, key, bound)
    ensures Found(Skip(w), key, bound)
  {
    if !Listed(w.visited, w.levels, key, bound) {
      var i :| 0 <= i < |w.waiting| && w.waiting[i] == key && w.depths[i] <= bound;
      if i == 0 {
        VisitedEarlier(library, root, w);
      } else {
        assert w.waiting[1..][i - 1] == key && w.depths[1..][i - 1] <= bound;
      }
    }
  }

  lemma DropHeadKeepsLevels(w: Walk)
    requires Paired(w) && InLevels(w) && w.waiting != []
    ensures InLevels(Skip(w))
  {
    var all, rest := w.levels + w.depths, w.levels + w.depths[1..];
    forall i, j | 0 <= i < j < |rest|
      ensures rest[i] <= rest[j]
    {
      var i', j' := if i < |w.levels| then i else i + 1, if j < |w.levels| then j else j + 1;
      assert rest[i] == all[i'] && rest[j] == all[j'];
    }
    if |w.depths| > 1 {
      assert all[|w.levels|] <= all[|w.levels| + 1];
    }
  }

  // A waiting key that was visited already, or that is empty, is dropped.
  lemma SkipKeepsInv(library: Library, root: string, w: Walk)
    requires Inv(library, root, w) && w.waiting != [] && (w.waiting[0] == "" || w.waiting[0] in w.visited)
    ensures Inv(library, root, Skip(w))
  {
    var out := Skip(w);
    DropHeadKeepsLevels(w);
    forall key, bound | key != "" && Found(w, key, bound)
      ensures Found(out, key, bound)
    {
      if w.waiting[0] == "" {
        DropEmpty(w, key, bound);
      } else {
        SkipKeepsFound(library, root, w, key, bound);
      }
    }
  }

  lemma DropEmpty(w: Walk, key: string, bound: nat)
    requires Paired(w) && w.waiting != [] && w.waiting[0] == "" && key != "" && Found(w, key, bound)
    ensures Found(Skip(w), key, bound)
  {
    if !Listed(w.visited, w.levels, key, bound) {
      var i :| 0 <= i < |w.waiting| && w.waiting[i] == key && w.depths[i] <= bound;
      assert w.waiting[1..][i - 1] == key && w.depths[1..][i - 1] <= bound;
    }
  }

  lemma VisitKeepsFound(w: Walk, children: seq<string>, key: string, bound: nat)
    requires Paired(w) && w.waiting != [] && Found(w, key, bound)
    ensures Found(Visit(w, children), key, bound)
  {
    var out := Visit(w, children);
    if Listed(w.visited, w.levels, key, bound) {
      var i :| 0 <= i < |w.visited| && w.visited[i] == key && w.levels[i] <= bound;
      assert out.visited[i] == key && out.levels[i] <= bound;
    } else {
      var i :| 0 <= i < |w.waiting| && w.waiting[i] == key && w.depths[i] <= bound;
      if i == 0 {
        assert out.visited[|w.visited|] == key && out.levels[|w.visited|] <= bound;
      } else {
        assert out.waiting[i - 1] == key && out.depths[i - 1] <= bound;
      }
    }
  }

  lemma VisitKeepsLevels(w: Walk, children: seq<string>)
    requires Paired(w) && InLevels(w) && w.waiting != []
    ensures InLevels(Visit(w, children))
  {
    var out := Visit(w, children);
    var all, more := w.levels + w.depths, out.levels + out.depths;
    var n := |all|;
    forall i | 0 <= i < |more|
      ensures more[i] == if i < n then all[i] else w.depths[0] + 1
    {
    }
    assert all[|w.levels|] == w.depths[0];
    forall i, j | 0 <= i < j < |more|
      ensures more[i] <= more[j]
    {
      if i < n && j >= n {
        assert i < |w.levels| ==> all[i] <= all[|w.levels|];
        assert i >= |w.levels| ==> all[i] == w.depths[i - |w.levels|];
      }
    }
    forall i | 0 <= i < |out.depths|
      ensures w.depths[0] <= out.depths[i] <= w.depths[0] + 1
    {
      assert out.depths[i] == more[|w.levels| + 1 + i];
      assert all[|w.levels|] <= more[|w.levels| + 1 + i];
    }
  }

  // A new key is visited and all its children wait.
  lemma VisitKeepsInv(library: Library, root: string, w: Walk, children: seq<string>)
    requires Inv(library, root, w) && w.waiting != [] && w.waiting[0] != "" && w.waiting[0] !in w.visited
    requires forall key :: key != "" ==> (key in children <==> HasChild(library, w.waiting[0], key))
    ensures Inv(library, root, Visit(w, children))
  {
    var out := Visit(w, children);
    VisitKeepsLevels(w, children);
    VisitReaches(library, root, w, children);
    forall key, bound | Found(w, key, bound)
      ensures Found(out, key, bound)
    {
      VisitKeepsFound(w, children, key, bound);
    }
    forall i, child | 0 <= i < |out.visited| && HasChild(library, out.visited[i], child)
      ensures Found(out, child, out.levels[i] + 1)
    {
      if i < |w.visited| {
        assert HasChild(library, w.visited[i], child);
      } else {
        var k :| 0 <= k < |children| && children[k] == child;
        assert out.waiting[|w.waiting| - 1 + k] == child && out.depths[|w.waiting| - 1 + k] == out.levels[i] + 1;
      }
    }
  }

  lemma VisitReaches(library: Library, root: string, w: Walk, children: seq<string>)
    requires Inv(library, root, w) && w.waiting != [] && w.waiting[0] != ""
    requires forall key :: key != "" ==> (key in children <==> HasChild(library, w.waiting[0], key))
    ensures var out := Visit(w, children);
            Reached(library, root, out.visited, out.levels) && Reached(library, root, out.waiting, out.depths)
  {
    var out := Visit(w, children);
    var head, d := w.waiting[0], w.depths[0];
    forall i | 0 <= i < |out.waiting| && out.waiting[i] != ""
      ensures ReachIn(library, root, out.waiting[i], out.depths[i])
    {
      if i < |w.waiting| - 1 {
        assert out.waiting[i] == w.waiting[i + 1] && out.depths[i] == w.depths[i + 1];
      } else {
        assert out.waiting[i] in children && out.depths[i] == d + 1;
        assert ReachIn(library, root, head, d) && HasChild(library, head, out.waiting[i]);
      }
    }
  }

  // ----- What a finished walk has found -----

  lemma {:induction false} AllReachableFound(library: Library, root: string, w: Walk, key: string, n: nat)
    requires Inv(library, root, w) && w.waiting == [] && root != ""
    requires ReachIn(library, root, key, n)
    ensures Listed(w.visited, w.levels, key, n)
    decreases n
  {
    if n == 0 {
      assert Found(w, root, 0);
    } else {
      var parent :| ReachIn(library, root, parent, n - 1) && HasChild(library, parent, key);
      AllReachableFound(library, root, w, parent, n - 1);
      var i :| 0 <= i < |w.visited| && w.visited[i] == parent && w.levels[i] <= n - 1;
      assert Found(w, key, w.levels[i] + 1);
    }
  }

  // Exactly the keys below the root, each once, each at its distance from the root, nearer ones first.
  ghost predicate BreadthFirst(library: Library, root: string, keys: seq<string>, levels: seq<nat>) {
    && |keys| == |levels|
    && (forall key :: key in keys <==> exists n :: ReachIn(library, root, key, n))
    && (forall i, j :: 0 <= i < j < |keys| ==> keys[i] != keys[j])
    && (forall i, n :: 0 <= i < |keys| && ReachIn(library, root, keys[i], n) ==> levels[i] <= n)
    && (forall i :: 0 <= i < |keys| ==> ReachIn(library, root, keys[i], levels[i]))
    && NonDecreasing(levels)
  }

  lemma FinishedWalk(library: Library, root: string, w: Walk)
    requires Inv(library, root, w) && w.waiting == [] && root != ""
    ensures BreadthFirst(library, root, w.visited, w.levels)
  {
    assert w.levels + w.depths == w.levels;
    forall key
      ensures key in w.visited <==> exists n :: ReachIn(library, root, key, n)
    {
      VisitedIffReachable(library, root, w, key);
    }
    forall i, n | 0 <= i < |w.visited| && ReachIn(library, root, w.visited[i], n)
      ensures w.levels[i] <= n
    {
      AllReachableFound(library, root, w, w.visited[i], n);
    }
  }

  lemma VisitedIffReachable(library: Library, root: string, w: Walk, key: string)
    requires Inv(library, root, w) && w.waiting == [] && root != ""
    ensures key in w.visited <==> exists n :: ReachIn(library, root, key, n)
  {
    if key in w.visited {
      var i :| 0 <= i < |w.visited| && w.visited[i] == key;
      assert ReachIn(library, root, key, w.levels[i]);
    }
    if n :| ReachIn(library, root, key, n) {
      AllReachableFound(library, root, w, key, n);
      var i :| 0 <= i < |w.visited| && w.visited[i] == key;
    }
  }

  // ----- The loop -----

  function ItemKeys(cs: seq<Collection>): (keys: seq<string>)
    ensures |keys| == |cs|
    ensures forall i :: 0 <= i < |cs| ==> keys[i] == ItemKey(cs[i])
  {
    seq(|cs|, i requires 0 <= i < |cs| => ItemKey(cs[i]))
  }

  predicate KeyLeq(a: Collection, b: Collection) {
    StringLeq(ItemKey(a), ItemKey(b))
  }

  // Siblings go by key.
  lemma SiblingsInOrder(children: seq<Collection>)
    ensures var sorted := Sort(children, KeyLeq);
            && multiset(sorted) == multiset(children)
            && forall i, j :: 0 <= i < j < |sorted| ==> StringLeq(ItemKey(sorted[i]), ItemKey(sorted[j]))
  {
    StringOrder();
    assert TotalPreorder(KeyLeq);
    SortSorts(children, KeyLeq);
  }

  lemma SortedChildren(library: Library, parent: string)
    ensures forall key :: key != "" ==> (key in ItemKeys(Sort(library(parent), KeyLeq)) <==> HasChild(library, parent, key))
  {
    var children, sorted := library(parent), Sort(library(parent), KeyLeq);
    StringOrder();
    assert TotalPreorder(KeyLeq);
    SortSorts(children, KeyLeq);
    forall c
      ensures c in children <==> c in sorted
    {
      SameElements(children, sorted, c);
    }
    forall key | key in ItemKeys(sorted)
      ensures exists c :: c in children && ItemKey(c) == key
    {
      var i :| 0 <= i < |sorted| && ItemKeys(sorted)[i] == key;
      assert sorted[i] in sorted;
    }
    forall c | c in children
      ensures ItemKey(c) in ItemKeys(sorted)
    {
      var i :| 0 <= i < |sorted| && sorted[i] == c;
      assert ItemKeys(sorted)[i] == ItemKey(c);
    }
  }

  method ReadTree(root: Collection, library: Library, ghost universe: set<string>) returns (result: seq<Collection>, ghost levels: seq<nat>)
    requires ItemKey(root) != "" ==> Closed(library, ItemKey(root), universe)
    ensures ItemKey(root) == "" ==> result == []
    ensures ItemKey(root) != "" ==> BreadthFirst(library, ItemKey(root), ItemKeys(result), levels)
  {
    ghost var top := ItemKey(root);
    ghost var w := Walk([], [], [top], [0]);
    var pending, seen: set<string> := [root], {};
    result := [];
    StartOfWalk(library, top, universe);
    while pending != []
      invariant Walking(library, top, universe, w)
      invariant w.visited == ItemKeys(result) && w.waiting == ItemKeys(pending)
      invariant seen == VisitedKeys(w)
      decreases |universe - seen|, |pending|
    {
      var collection := pending[0];
      ItemKeysTail(pending);
      pending := pending[1..];
      var key := ItemKey(collection);
      if key == "" || key in seen {
        SkipStep(library, top, universe, w);
        w := Skip(w);
        continue;
      }
      var children := Sort(library(key), KeyLeq);
      SortedChildren(library, key);
      VisitStep(library, top, universe, w, ItemKeys(children));
      ItemKeysAppend(result, [collection]);
      ItemKeysAppend(pending, children);
      w := Visit(w, ItemKeys(children));
      seen := seen + {key};
      result := result + [collection];
      pending := pending + children;
    }
    levels := w.levels;
    if top != "" {
      FinishedWalk(library, top, w);
    }
  }

  ghost function VisitedKeys(w: Walk): set<string> {
    set key <- w.visited
  }

  lemma ItemKeysTail(cs: seq<Collection>)
    requires cs != []
    ensures ItemKeys(cs[1..]) == ItemKeys(cs)[1..] && ItemKeys(cs)[0] == ItemKey(cs[0])
  {
  }

  lemma ItemKeysAppend(a: seq<Collection>, b: seq<Collection>)
    ensures ItemKeys(a + b) == ItemKeys(a) + ItemKeys(b)
    ensures |b| == 1 ==> ItemKeys(b) == [ItemKey(b[0])]
  {
  }

  // Everything met lies in the universe; an empty root leads nowhere.
  ghost predicate Walking(library: Library, root: string, universe: set<string>, w: Walk) {
    && Inv(library, root, w)
    && (root != "" ==> Closed(library, root, universe))
    && (root == "" ==> w.visited == [] && forall i :: 0 <= i < |w.waiting| ==> w.waiting[i] == "")
    && Inside(universe, w)
  }

  lemma StartOfWalk(library: Library, root: string, universe: set<string>)
    requires root != "" ==> Closed(library, root, universe)
    ensures Walking(library, root, universe, Walk([], [], [root], [0]))
  {
    var w := Walk([], [], [root], [0]);
    assert w.waiting[0] == root && w.depths[0] <= 0;
    assert w.levels + w.depths == [0];
  }

  lemma SkipStep(library: Library, root: string, universe: set<string>, w: Walk)
    requires Walking(library, root, universe, w) && w.waiting != [] && (w.waiting[0] == "" || w.waiting[0] in VisitedKeys(w))
    ensures Walking(library, root, universe, Skip(w))
  {
    SkipKeepsInv(library, root, w);
  }

  lemma VisitStep(library: Library, root: string, universe: set<string>, w: Walk, children: seq<string>)
    requires Walking(library, root, universe, w) && w.waiting != [] && w.waiting[0] != "" && w.waiting[0] !in VisitedKeys(w)
    requires forall key :: key != "" ==> (key in children <==> HasChild(library, w.waiting[0], key))
    ensures Walking(library, root, universe, Visit(w, children))
    ensures VisitedKeys(Visit(w, children)) == VisitedKeys(w) + {w.waiting[0]}
    ensures |universe - VisitedKeys(Visit(w, children))| < |universe - VisitedKeys(w)|
  {
    VisitKeepsInv(library, root, w, children);
    StaysInside(library, universe, w, children);
    OneMoreVisited(universe, w, children);
  }

  ghost predicate Inside(universe: set<string>, w: Walk) {
    && (forall i :: 0 <= i < |w.visited| ==> w.visited[i] in universe)
    && (forall i :: 0 <= i < |w.waiting| && w.waiting[i] != "" ==> w.waiting[i] in universe)
  }

  lemma StaysInside(library: Library, universe: set<string>, w: Walk, children: seq<string>)
    requires Inside(universe, w) && w.waiting != [] && w.depths != [] && w.waiting[0] != ""
    requires forall key :: key in children && key != "" ==> HasChild(library, w.waiting[0], key)
    requires forall parent, child :: parent in universe && HasChild(library, parent, child) ==> child in universe
    ensures Inside(universe, Visit(w, children))
  {
    var out := Visit(w, children);
    forall i | 0 <= i < |out.waiting| && out.waiting[i] != ""
      ensures out.waiting[i] in universe
    {
      if i < |w.waiting| - 1 {
        assert out.waiting[i] == w.waiting[i + 1];
      } else {
        assert out.waiting[i] in children;
      }
    }
  }

  lemma OneMoreVisited(universe: set<string>, w: Walk, children: seq<string>)
    requires w.waiting != [] && w.depths != [] && w.waiting[0] in universe && w.waiting[0] !in VisitedKeys(w)
    ensures VisitedKeys(Visit(w, children)) == VisitedKeys(w) + {w.waiting[0]}
    ensures |universe - VisitedKeys(Visit(w, children))| < |universe - VisitedKeys(w)|
  {
    var left, left' := universe - VisitedKeys(w), universe - VisitedKeys(Visit(w, children));
    assert VisitedKeys(Visit(w, children)) == VisitedKeys(w) + {w.waiting[0]};
    assert left' == left - {w.waiting[0]} && w.waiting[0] in left;
  }
}
