/** Arithmetic modulo a prime: inverses and cancellation. */
module PrimeField {
  import opened Modular

  predicate Prime(q: nat) {
    q > 1 && forall d :: 2 <= d < q ==> q % d != 0
  }

  function Mul(a: int, b: int, q: nat): (r: nat)
    requires q > 0
    ensures r < q
  {
    (a * b) % q
  }

  function Plus(a: int, b: int, q: nat): (r: nat)
    requires q > 0
    ensures r < q
  {
    (a + b) % q
  }

  /** The multiplicative inverse, by descent: q == (q / a) * a + q % a turns an inverse of the
      remainder into an inverse of a. */
  function Inverse(a: nat, q: nat): (r: nat)
    requires Prime(q) && 0 < a < q
    ensures r < q && Mul(a, r, q) == 1
    decreases a
  {
    if a == 1 then
      DivModUnique(1, q, 0, 1);
      1
    else
      var k, rem := q / a, q % a;
      var y := Inverse(rem, q);
      assert q == k * a + rem;
      DivModUnique(1, q, 0, 1);
      InverseStep(a, q, k, rem, y);
      (-k * y) % q
  }

  lemma InverseStep(a: int, q: nat, k: int, rem: int, y: int)
    requires q > 1 && q == k * a + rem && Congruent(rem * y, 1, q)
    ensures Mul(a, (-k * y) % q, q) == 1
  {
    var t := -k * y;
    CongruentMod(t, q);
    CongruentScale(t % q, t, a, q);
    Descent(q, a, k, rem, y);
    CongruentByMultiple(a * t, rem * y, -y, q);
    DivModUnique(1, q, 0, 1);
    assert t * a == a * t && (t % q) * a == a * (t % q);
  }

  lemma Descent(q: int, a: int, k: int, rem: int, y: int)
    requires q == k * a + rem
    ensures a * (-k * y) == rem * y + (-y) * q
  {
  }

  lemma Reorder(a: int, b: int, c: int)
    ensures a * (b * c) == b * a * c && a * b * c == b * c * a && a * b * c == a * c * b
  {
  }

  /** A non-zero factor can be cancelled. */
  lemma Cancel(a: int, x: int, y: int, q: nat)
    requires Prime(q) && a % q != 0 && Congruent(a * x, a * y, q)
    ensures Congruent(x, y, q)
  {
    var a' := a % q;
    var i := Inverse(a', q);
    CongruentMod(a, q);
    Unmultiply(a, i, x, q);
    Unmultiply(a, i, y, q);
    CongruentScale(a * x, a * y, i, q);
  }

  lemma Unmultiply(a: int, i: nat, x: int, q: nat)
    requires q > 1 && Mul(a % q, i, q) == 1
    ensures Congruent(a * x * i, x, q)
  {
    CongruentMod(a, q);
    CongruentScale(a % q, a, i, q);
    DivModUnique(1, q, 0, 1);
    assert Congruent(a * i, 1, q);
    CongruentScale(a * i, 1, x, q);
    Reorder(a, x, i);
  }

  /** Multiplying by a and then by its inverse is the identity on residues. */
  lemma MulInverse(p: nat, a: nat, q: nat)
    requires Prime(q) && 0 < a < q && p < q
    ensures Mul(Mul(p, a, q), Inverse(a, q), q) == p
  {
    var i := Inverse(a, q);
    DivModUnique(a, q, 0, a);
    Unmultiply(a, i, p, q);
    CongruentMod(p * a, q);
    CongruentScale(Mul(p, a, q), p * a, i, q);
    assert p * a == a * p;
    DivModUnique(p, q, 0, p);
  }

  lemma MulAssoc(a: int, b: int, c: int, q: nat)
    requires q > 0
    ensures Mul(Mul(a, b, q), c, q) == Mul(a, Mul(b, c, q), q)
  {
    CongruentMod(a * b, q);
    CongruentScale(Mul(a, b, q), a * b, c, q);
    CongruentMod(b * c, q);
    CongruentScale(Mul(b, c, q), b * c, a, q);
    Reorder(a, b, c);
    assert Mul(b, c, q) * a == a * Mul(b, c, q);
  }

  lemma MulComm(a: int, b: int, q: nat)
    requires q > 0
    ensures Mul(a, b, q) == Mul(b, a, q)
  {
  }
}
