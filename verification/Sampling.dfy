/**
 Evenly spaced positions in a list, from the selection of integrations/zotero_lightrag/index_revision.py. Quotients are
 exact rationals, rounded to the nearest integer and halves to the even one.
 */
module Sampling {
  import opened Arithmetic

  // round(numerator / denominator)
  function RoundHalfEven(numerator: nat, denominator: nat): (r: nat)
    requires denominator > 0
  {
    var q, rest := numerator / denominator, numerator % denominator;
    if 2 * rest < denominator || (2 * rest == denominator && q % 2 == 0) then q else q + 1
  }

  // How far an integer is from a quotient, in halves of one over the denominator.
  function TwiceOff(numerator: nat, denominator: nat, r: int): int {
    2 * numerator - 2 * (denominator * r)
  }

  // The result is a nearest integer, and the even one of two; that determines it.
  lemma RoundsToNearest(numerator: nat, denominator: nat, r: int)
    requires denominator > 0
    ensures var off: int, den: int := TwiceOff(numerator, denominator, r), denominator;
            r == RoundHalfEven(numerator, denominator) <==> -den < off < den || ((off == den || off == -den) && r % 2 == 0)
  {
    var q, rest := numerator / denominator, numerator % denominator;
    assert numerator == denominator * q + rest;
    var d := r - q;
    Distribute(denominator, q, d);
    assert q + d == r;
    if d <= -1 {
      TimesAtMost(denominator, d, -1);
    } else if d >= 2 {
      TimesAtMost(denominator, 2, d);
    } else {
      assert denominator * d == if d == 0 then 0 else denominator;
    }
  }

  function Position(i: nat, n: nat, count: nat): nat
    requires 2 <= count <= n
  {
    RoundHalfEven(i * (n - 1), count - 1)
  }

  function Positions(n: nat, wanted: int): seq<nat> {
    var count := if wanted < n then wanted else n;
    if count == 1 then [n / 2]
    else if count <= 0 then []
    else seq(count, i requires 0 <= i => Position(i, n, count))
  }

  lemma PositionEnds(n: nat, count: nat)
    requires 2 <= count <= n
    ensures Position(0, n, count) == 0 && Position(count - 1, n, count) == n - 1
  {
    RoundsToNearest(0, count - 1, 0);
    assert (count - 1) * (n - 1) == (n - 1) * (count - 1);
    WholeStaysWhole(n - 1, count - 1);
  }

  // Quotients more than one apart round to different integers.
  lemma FartherRoundsHigher(a: nat, b: nat, denominator: nat)
    requires denominator > 0 && b - a > denominator
    ensures RoundHalfEven(a, denominator) < RoundHalfEven(b, denominator)
  {
    var x, y := RoundHalfEven(a, denominator), RoundHalfEven(b, denominator);
    RoundsToNearest(a, denominator, x);
    RoundsToNearest(b, denominator, y);
    if y <= x {
      TimesAtMost(denominator, y, x);
    }
  }

  lemma WholeStaysWhole(i: nat, denominator: nat)
    requires denominator > 0
    ensures RoundHalfEven(i * denominator, denominator) == i
  {
    assert i * denominator == denominator * i;
    RoundsToNearest(i * denominator, denominator, i);
  }

  // A step of at least one position moves on. With a step of exactly one there are no halves to round.
  lemma PositionMovesOn(i: nat, n: nat, count: nat)
    requires 2 <= count <= n
    ensures Position(i, n, count) < Position(i + 1, n, count)
  {
    if count == n {
      WholeStaysWhole(i, n - 1);
      WholeStaysWhole(i + 1, n - 1);
    } else {
      Distribute(n - 1, i, 1);
      assert (n - 1) * (i + 1) == (i + 1) * (n - 1) && (n - 1) * i == i * (n - 1);
      FartherRoundsHigher(i * (n - 1), (i + 1) * (n - 1), count - 1);
    }
  }

  lemma {:induction false} PositionsApart(i: nat, j: nat, n: nat, count: nat)
    requires 2 <= count <= n && i < j
    ensures Position(i, n, count) < Position(j, n, count)
    decreases j
  {
    PositionMovesOn(j - 1, n, count);
    if i < j - 1 {
      PositionsApart(i, j - 1, n, count);
    }
  }

  // Nearest to its even share of the way from the first to the last.
  predicate NearestShare(p: nat, i: nat, n: nat, count: nat)
    requires 2 <= count <= n
  {
    var den: int := count - 1;
    -den <= TwiceOff(i * (n - 1), count - 1, p) <= den
  }

  lemma PositionIsNearest(i: nat, n: nat, count: nat)
    requires 2 <= count <= n && i < count
    ensures Position(i, n, count) < n && NearestShare(Position(i, n, count), i, n, count)
  {
    PositionEnds(n, count);
    RoundsToNearest(i * (n - 1), count - 1, Position(i, n, count));
    if i < count - 1 {
      PositionsApart(i, count - 1, n, count);
    }
  }

  lemma FewPositions(n: nat, wanted: int)
    requires wanted < 2 || n < 2
    ensures Positions(n, wanted) == if wanted < 1 || n < 1 then [] else [n / 2]
  {
  }

  // As many positions as wanted and available, strictly increasing and in range, from the first to the last when
  // there are at least two, each nearest to its even share of the way; a single one has as many before it as behind it,
  // or one more.
  lemma PositionsAreEven(n: nat, wanted: int)
    ensures var p := Positions(n, wanted);
            && |p| == (if wanted <= 0 then 0 else if wanted < n then wanted else n)
            && (forall i, j :: 0 <= i < j < |p| ==> p[i] < p[j])
            && (forall i :: 0 <= i < |p| ==> p[i] < n)
            && (|p| >= 2 ==> p[0] == 0 && p[|p| - 1] == n - 1 && forall i :: 0 <= i < |p| ==> NearestShare(p[i], i, n, |p|))
            && (|p| == 1 ==> n - 1 - p[0] <= p[0] <= n - p[0])
  {
    var p := Positions(n, wanted);
    var count := if wanted < n then wanted else n;
    if count < 2 {
      FewPositions(n, wanted);
    } else {
      assert |p| == count && forall i :: 0 <= i < count ==> p[i] == Position(i, n, count);
      PositionEnds(n, |p|);
      forall i, j | 0 <= i < j < |p|
        ensures p[i] < p[j]
      {
        PositionsApart(i, j, n, |p|);
      }
      forall i | 0 <= i < |p|
        ensures p[i] < n && NearestShare(p[i], i, n, |p|)
      {
        PositionIsNearest(i, n, |p|);
      }
    }
  }
}
