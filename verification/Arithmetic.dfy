/** Facts about products, kept apart from the reasoning that needs them. */
module Arithmetic {

  lemma Distribute(a: int, b: int, c: int)
    ensures a * (b + c) == a * b + a * c
  {
  }

  lemma TimesAtMost(factor: nat, a: int, b: int)
    requires a <= b
    ensures factor * a <= factor * b
  {
  }

  lemma QuotientIs(a: nat, b: nat, q: nat)
    requires b > 0 && b * q <= a < b * q + b
    ensures a / b == q
  {
    assert a == b * (a / b) + a % b;
    if a / b < q {
      TimesAtMost(b, a / b, q - 1);
      Distribute(b, q, -1);
    } else {
      TimesAtMost(b, q, a / b);
      Distribute(b, q, a / b - q);
      if a / b > q {
        TimesAtMost(b, 1, a / b - q);
      }
    }
  }

  function CeilDiv(a: nat, b: nat): nat
    requires b > 0
  {
    (a + b - 1) / b
  }

  lemma CeilDivStep(a: nat, b: nat)
    requires b > 0 && a >= b
    ensures CeilDiv(a, b) == 1 + CeilDiv(a - b, b)
  {
    var x := a - 1;
    assert x == b * (x / b) + x % b;
    Distribute(b, x / b, 1);
    QuotientIs(x + b, b, x / b + 1);
  }

  lemma CeilDivOne(a: nat, b: nat)
    requires 0 < a <= b
    ensures CeilDiv(a, b) == 1
  {
    QuotientIs(a + b - 1, b, 1);
  }
}
