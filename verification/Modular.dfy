/** Division with remainder, and arithmetic modulo m. */
module Modular {

  lemma MulMonotone(a: int, b: int, m: nat)
    requires a <= b
    ensures a * m <= b * m
  {
  }

  /** Quotient and remainder are determined by a == q * m + r with 0 <= r < m. */
  lemma DivModUnique(a: int, m: nat, q: int, r: int)
    requires m > 0 && a == q * m + r && 0 <= r < m
    ensures a / m == q && a % m == r
  {
    var q', r' := a / m, a % m;
    assert a == q' * m + r';
    if q < q' {
      MulMonotone(q + 1, q', m);
    } else if q' < q {
      MulMonotone(q' + 1, q, m);
    }
  }

  lemma MultipleModulo(k: int, m: nat)
    requires m > 0
    ensures (k * m) % m == 0
  {
    DivModUnique(k * m, m, k, 0);
  }

  /** a and b leave the same remainder. */
  predicate Congruent(a: int, b: int, m: nat)
    requires m > 0
  {
    a % m == b % m
  }

  lemma CongruentByMultiple(a: int, b: int, k: int, m: nat)
    requires m > 0 && a == b + k * m
    ensures Congruent(a, b, m)
  {
    var q, r := b / m, b % m;
    assert a == (q + k) * m + r;
    DivModUnique(a, m, q + k, r);
  }

  lemma MultipleOfCongruent(a: int, b: int, m: nat) returns (k: int)
    requires m > 0 && Congruent(a, b, m)
    ensures a == b + k * m
  {
    k := a / m - b / m;
    assert a == (a / m) * m + a % m && b == (b / m) * m + b % m;
  }

  lemma CongruentScale(a: int, a': int, b: int, m: nat)
    requires m > 0 && Congruent(a, a', m)
    ensures Congruent(a * b, a' * b, m)
  {
    var k := MultipleOfCongruent(a, a', m);
    assert a * b == a' * b + (k * b) * m by {
      assert (a' + k * m) * b == a' * b + (k * m) * b;
      assert (k * m) * b == (k * b) * m;
    }
    CongruentByMultiple(a * b, a' * b, k * b, m);
  }

  lemma CongruentAdd(a: int, a': int, b: int, b': int, m: nat)
    requires m > 0 && Congruent(a, a', m) && Congruent(b, b', m)
    ensures Congruent(a + b, a' + b', m)
  {
    var k := MultipleOfCongruent(a, a', m);
    var l := MultipleOfCongruent(b, b', m);
    assert a + b == a' + b' + (k + l) * m;
    CongruentByMultiple(a + b, a' + b', k + l, m);
  }

  lemma CongruentMod(a: int, m: nat)
    requires m > 0
    ensures 0 <= a % m < m && Congruent(a % m, a, m)
  {
  }
}
