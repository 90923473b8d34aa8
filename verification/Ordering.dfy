/** Sorting by a key, as Python's sorted does, and the lexicographic order of strings. */
module Ordering {
  import opened Seqs

  type Order<!X> = (X, X) -> bool

  // Any two elements compare, and comparisons chain.
  ghost predicate TotalPreorder<X(!new)>(leq: Order<X>) {
    && (forall a, b :: leq(a, b) || leq(b, a))
    && (forall a, b, c :: leq(a, b) && leq(b, c) ==> leq(a, c))
  }

  ghost predicate SortedBy<X>(s: seq<X>, leq: Order<X>) {
    forall i, j :: 0 <= i < j < |s| ==> leq(s[i], s[j])
  }

  // In front of the first element that is not smaller.
  function Insert<X>(x: X, s: seq<X>, leq: Order<X>): (out: seq<X>)
    ensures |out| == |s| + 1
  {
    if s == [] || leq(x, s[0]) then [x] + s else [s[0]] + Insert(x, s[1..], leq)
  }

  function Sort<X>(s: seq<X>, leq: Order<X>): (out: seq<X>)
    ensures |out| == |s|
  {
    if s == [] then [] else Insert(s[0], Sort(s[1..], leq), leq)
  }

  lemma SortedCons<X(!new)>(x: X, s: seq<X>, leq: Order<X>)
    ensures SortedBy([x] + s, leq) <==> (forall j :: 0 <= j < |s| ==> leq(x, s[j])) && SortedBy(s, leq)
  {
    var all := [x] + s;
    assert forall j :: 0 <= j < |s| ==> all[j + 1] == s[j];
    if SortedBy(all, leq) {
      forall j | 0 <= j < |s|
        ensures leq(x, s[j])
      {
        assert leq(all[0], all[j + 1]);
      }
      forall i, j | 0 <= i < j < |s|
        ensures leq(s[i], s[j])
      {
        assert leq(all[i + 1], all[j + 1]);
      }
    }
  }

  lemma {:induction false} InsertMember<X>(x: X, s: seq<X>, leq: Order<X>)
    ensures multiset(Insert(x, s, leq)) == multiset(s) + multiset{x}
  {
    if s != [] {
      InsertMember(x, s[1..], leq);
      assert s == [s[0]] + s[1..];
    }
  }

  lemma {:induction false} InsertSorts<X(!new)>(x: X, s: seq<X>, leq: Order<X>)
    requires TotalPreorder(leq) && SortedBy(s, leq)
    ensures SortedBy(Insert(x, s, leq), leq)
  {
    if s != [] {
      assert [s[0]] + s[1..] == s;
      SortedCons(s[0], s[1..], leq);
      if leq(x, s[0]) {
        SortedCons(x, s, leq);
      } else {
        var rest := Insert(x, s[1..], leq);
        InsertSorts(x, s[1..], leq);
        InsertMember(x, s[1..], leq);
        forall j | 0 <= j < |rest|
          ensures leq(s[0], rest[j])
        {
          assert rest[j] in multiset(rest);
          assert rest[j] in s[1..] || rest[j] == x;
        }
        SortedCons(s[0], rest, leq);
      }
    }
  }

  // Sorting gives the same elements, as often, in order.
  lemma {:induction false} SortSorts<X(!new)>(s: seq<X>, leq: Order<X>)
    requires TotalPreorder(leq)
    ensures SortedBy(Sort(s, leq), leq) && multiset(Sort(s, leq)) == multiset(s)
  {
    if s != [] {
      SortSorts(s[1..], leq);
      InsertSorts(s[0], Sort(s[1..], leq), leq);
      InsertMember(s[0], Sort(s[1..], leq), leq);
      assert s == [s[0]] + s[1..];
    }
  }

  function Tied<X>(y: X, leq: Order<X>): X -> bool {
    (x: X) => leq(x, y) && leq(y, x)
  }

  lemma {:induction false} InsertIsStable<X(!new)>(x: X, s: seq<X>, leq: Order<X>, y: X)
    requires TotalPreorder(leq) && SortedBy(s, leq)
    ensures Filter(Insert(x, s, leq), Tied(y, leq)) == Filter([x] + s, Tied(y, leq))
  {
    var tied := Tied(y, leq);
    if s != [] && !leq(x, s[0]) {
      InsertIsStable(x, s[1..], leq, y);
      var rest := Insert(x, s[1..], leq);
      assert ([s[0]] + rest)[1..] == rest;
      assert ([x] + s)[1..] == s;
      assert ([x] + s[1..])[1..] == s[1..];
      assert !(tied(x) && tied(s[0]));
    }
  }

  // Elements that tie keep the order they came in.
  lemma {:induction false} SortIsStable<X(!new)>(s: seq<X>, leq: Order<X>, y: X)
    requires TotalPreorder(leq)
    ensures Filter(Sort(s, leq), Tied(y, leq)) == Filter(s, Tied(y, leq))
  {
    if s != [] {
      SortSorts(s[1..], leq);
      SortIsStable(s[1..], leq, y);
      InsertIsStable(s[0], Sort(s[1..], leq), leq, y);
      assert ([s[0]] + Sort(s[1..], leq))[1..] == Sort(s[1..], leq);
    }
  }

  ghost predicate NoTies<X>(s: seq<X>, leq: Order<X>) {
    forall x, y :: x in s && y in s && leq(x, y) && leq(y, x) ==> x == y
  }

  // Without ties there is one way to sort.
  lemma {:induction false} SortedIsUnique<X(!new)>(a: seq<X>, b: seq<X>, leq: Order<X>)
    requires TotalPreorder(leq) && SortedBy(a, leq) && SortedBy(b, leq)
    requires multiset(a) == multiset(b) && NoTies(a, leq)
    ensures a == b
    decreases |a|
  {
    assert |a| == |multiset(a)| == |multiset(b)| == |b|;
    if a != [] {
      SameElements(a, b, b[0]);
      SameElements(a, b, a[0]);
      HeadIsLeast(a, leq, b[0]);
      HeadIsLeast(b, leq, a[0]);
      assert a[0] == b[0];
      assert a == [a[0]] + a[1..] && b == [b[0]] + b[1..];
      TailSorted(a, leq);
      TailSorted(b, leq);
      assert multiset(a[1..]) == multiset(b[1..]) by {
        TailElements(a);
        TailElements(b);
      }
      SortedIsUnique(a[1..], b[1..], leq);
    }
  }

  lemma SameElements<X>(a: seq<X>, b: seq<X>, x: X)
    requires multiset(a) == multiset(b)
    ensures x in a <==> x in b
  {
    assert x in a <==> x in multiset(a);
    assert x in b <==> x in multiset(b);
  }

  lemma TailElements<X>(s: seq<X>)
    requires s != []
    ensures multiset(s[1..]) == multiset(s) - multiset{s[0]}
  {
    assert s == [s[0]] + s[1..];
  }

  lemma TailSorted<X(!new)>(s: seq<X>, leq: Order<X>)
    requires s != [] && SortedBy(s, leq)
    ensures SortedBy(s[1..], leq)
  {
    assert [s[0]] + s[1..] == s;
    SortedCons(s[0], s[1..], leq);
  }

  lemma HeadIsLeast<X(!new)>(s: seq<X>, leq: Order<X>, x: X)
    requires TotalPreorder(leq) && SortedBy(s, leq) && x in s
    ensures leq(s[0], x)
  {
    var i :| 0 <= i < |s| && s[i] == x;
    if i == 0 {
      assert leq(x, x) || leq(x, x);
    }
  }

  lemma SortIgnoresOrder<X(!new)>(a: seq<X>, b: seq<X>, leq: Order<X>)
    requires TotalPreorder(leq) && multiset(a) == multiset(b) && NoTies(a, leq)
    ensures Sort(a, leq) == Sort(b, leq)
  {
    SortSorts(a, leq);
    SortSorts(b, leq);
    forall x | x in Sort(a, leq)
      ensures x in a
    {
      assert x in multiset(Sort(a, leq));
    }
    SortedIsUnique(Sort(a, leq), Sort(b, leq), leq);
  }

  // ----- Strings in lexicographic order -----

  predicate StringLeq(a: string, b: string) {
    a == "" || (b != "" && (a[0] < b[0] || (a[0] == b[0] && StringLeq(a[1..], b[1..]))))
  }

  lemma {:induction false} StringsCompare(a: string, b: string)
    ensures StringLeq(a, b) || StringLeq(b, a)
    ensures StringLeq(a, b) && StringLeq(b, a) ==> a == b
  {
    if a != "" && b != "" {
      StringsCompare(a[1..], b[1..]);
      assert a == [a[0]] + a[1..] && b == [b[0]] + b[1..];
    }
  }

  lemma {:induction false} StringLeqChains(a: string, b: string, c: string)
    requires StringLeq(a, b) && StringLeq(b, c)
    ensures StringLeq(a, c)
  {
    if a != "" && b != "" && c != "" {
      if a[0] == b[0] == c[0] {
        StringLeqChains(a[1..], b[1..], c[1..]);
      }
    }
  }

  lemma StringOrder()
    ensures TotalPreorder(StringLeq)
  {
    forall a, b
      ensures StringLeq(a, b) || StringLeq(b, a)
    {
      StringsCompare(a, b);
    }
    forall a, b, c | StringLeq(a, b) && StringLeq(b, c)
      ensures StringLeq(a, c)
    {
      StringLeqChains(a, b, c);
    }
  }
}
