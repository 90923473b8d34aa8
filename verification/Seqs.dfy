/** Sequences: regrouping, cutting, and keeping the elements that satisfy a condition, in their order. */
module Seqs {

  lemma Assoc<X>(a: seq<X>, b: seq<X>, c: seq<X>)
    ensures (a + b) + c == a + (b + c)
  {
  }

  lemma CutAt<X>(a: seq<X>, b: seq<X>, n: nat)
    requires n <= |a|
    ensures (a + b)[..n] == a[..n] && (a + b)[n..] == a[n..] + b
  {
  }

  lemma SplitAt<X>(s: seq<X>, i: nat)
    requires i < |s|
    ensures s == s[..i] + ([s[i]] + s[i + 1..])
  {
  }

  lemma DropDrop<X>(s: seq<X>, i: nat, j: nat)
    requires i + j <= |s|
    ensures s[i..][j..] == s[i + j..]
  {
  }

  function Filter<X>(xs: seq<X>, keep: X -> bool): (out: seq<X>)
    ensures |out| <= |xs|
  {
    if xs == [] then [] else (if keep(xs[0]) then [xs[0]] else []) + Filter(xs[1..], keep)
  }

  lemma {:induction false} FilterAppend<X>(a: seq<X>, b: seq<X>, keep: X -> bool)
    ensures Filter(a + b, keep) == Filter(a, keep) + Filter(b, keep)
  {
    if a == [] {
      assert a + b == b;
    } else {
      assert (a + b)[1..] == a[1..] + b;
      FilterAppend(a[1..], b, keep);
      Assoc(if keep(a[0]) then [a[0]] else [], Filter(a[1..], keep), Filter(b, keep));
    }
  }

  lemma FilterSnoc<X>(a: seq<X>, x: X, keep: X -> bool)
    ensures Filter(a + [x], keep) == if keep(x) then Filter(a, keep) + [x] else Filter(a, keep)
  {
    FilterAppend(a, [x], keep);
    assert [x][1..] == [];
  }

  lemma FilterPrefix<X>(xs: seq<X>, i: nat, keep: X -> bool)
    requires i < |xs|
    ensures Filter(xs[..i + 1], keep) == if keep(xs[i]) then Filter(xs[..i], keep) + [xs[i]] else Filter(xs[..i], keep)
  {
    assert xs[..i + 1] == xs[..i] + [xs[i]];
    FilterSnoc(xs[..i], xs[i], keep);
  }

  lemma {:induction false} FilterMember<X>(xs: seq<X>, keep: X -> bool, x: X)
    ensures x in Filter(xs, keep) <==> x in xs && keep(x)
  {
    if xs != [] {
      FilterMember(xs[1..], keep, x);
      assert x in xs <==> x == xs[0] || x in xs[1..];
    }
  }

  // Filtering twice keeps what satisfies both conditions.
  lemma {:induction false} FilterTwice<X>(xs: seq<X>, first: X -> bool, second: X -> bool, both: X -> bool)
    requires forall x :: both(x) <==> first(x) && second(x)
    ensures Filter(Filter(xs, first), second) == Filter(xs, both)
  {
    if xs != [] {
      FilterTwice(xs[1..], first, second, both);
      var rest := Filter(xs[1..], first);
      if first(xs[0]) {
        assert ([xs[0]] + rest)[1..] == rest;
      } else {
        assert Filter(xs, first) == rest;
      }
    }
  }

  lemma {:induction false} FilterNone<X>(xs: seq<X>, keep: X -> bool)
    requires forall x :: !keep(x)
    ensures Filter(xs, keep) == []
  {
    if xs != [] {
      FilterNone(xs[1..], keep);
    }
  }

  lemma {:induction false} FilterSame<X>(xs: seq<X>, p: X -> bool, q: X -> bool)
    requires forall x :: p(x) <==> q(x)
    ensures Filter(xs, p) == Filter(xs, q)
  {
    if xs != [] {
      FilterSame(xs[1..], p, q);
    }
  }
}
