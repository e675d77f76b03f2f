/** Facts about products and remainders. */
module Arith {

  lemma Positive(d: int, c: int)
    requires d >= 0 && c > 0
    ensures d * c >= 0
  {
  }

  lemma Mul(k: int, j: int, c: int)
    requires k < j && c > 0
    ensures (k + 1) * c <= j * c && k * c + c == (k + 1) * c
  {
    var d := j - k - 1;
    assert j * c == (k + 1) * c + d * c;
    Positive(d, c);
  }

  lemma DivExact(q: nat, m: nat)
    requires m > 0
    ensures q * m / m == q
  {
    var e := q * m / m;
    assert q * m == e * m + q * m % m;
    if q > e { Mul(e, q, m); }
    if q < e { Mul(q, e, m); }
  }

  lemma ModExact(q: nat, m: nat)
    requires m > 0
    ensures q * m % m == 0
  {
    DivExact(q, m);
  }

  lemma AddOne(b: nat, m: nat)
    requires m > 0
    ensures (b + m) % m == b % m
  {
    var e, r := b / m, b % m;
    assert b == e * m + r;
    var e', r' := (b + m) / m, (b + m) % m;
    assert b + m == e' * m + r';
    if e' < e + 1 { Mul(e', e + 1, m); }
    if e + 1 < e' { Mul(e + 1, e', m); }
  }

  lemma AddMultiple(a: nat, q: nat, m: nat)
    requires m > 0
    ensures (a + q * m) % m == a % m
    decreases q
  {
    if q > 0 {
      AddMultiple(a, q - 1, m);
      var b := a + (q - 1) * m;
      assert a + q * m == b + m;
      AddOne(b, m);
    } else {
      assert a + q * m == a;
    }
  }

  function Power(b: nat, j: nat): (p: nat)
    requires b > 0
    ensures p > 0
  {
    if j == 0 then 1 else Positive(Power(b, j - 1) - 1, b); b * Power(b, j - 1)
  }

  /** Divisibility by a product, one factor at a time. */
  lemma ModProduct(n: nat, b: nat, m: nat)
    requires b > 0 && m > 0
    ensures b * m > 0
    ensures n % (b * m) == 0 <==> n % b == 0 && n / b % m == 0
  {
    Positive(m - 1, b);
    assert b * m == (m - 1) * b + b;
    var p := b * m;
    if n % b == 0 && n / b % m == 0 {
      var q := n / b;
      var e := q / m;
      assert n == q * b && q == e * m;
      assert n == e * p;
      ModExact(e, p);
    }
    if n % p == 0 {
      var e := n / p;
      assert n == e * p;
      Positive(e, m);
      assert n == (e * m) * b;
      ModExact(e * m, b);
      DivExact(e * m, b);
      ModExact(e, m);
    }
  }
}
