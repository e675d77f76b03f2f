/** What the operators of the FinSH machine compute, in terms of C's signed 32-bit numbers and
    of their bits. */
module FinshArith {
  import Arith
  import opened Bits
  import opened FinshWord

  const RANGE := 0x1_0000_0000
  const TOP := 0x8000_0000

  /** x is a value of type long. */
  predicate Fits(x: int) {
    -TOP <= x < TOP
  }

  /** x and y differ by a multiple of 2^32. */
  predicate Congruent(x: int, y: int) {
    (x - y) % RANGE == 0
  }

  lemma SignedIs(w: Word)
    ensures Fits(Signed(w)) && Congruent(Signed(w), w)
  {
  }

  lemma WordIs(x: int)
    ensures Congruent(Signed(ToWord(x)), x)
    ensures Fits(x) ==> Signed(ToWord(x)) == x
  {
  }

  lemma MultipleOf(x: int, k: int)
    requires x == k * RANGE
    ensures x % RANGE == 0
  {
  }

  lemma CongruentSame(x: int, y: int)
    requires Congruent(x, y) && Fits(x) && Fits(y)
    ensures x == y
  {
  }

  lemma CongruentTrans(x: int, y: int, z: int)
    requires Congruent(x, y) && Congruent(y, z)
    ensures Congruent(x, z)
  {
  }

  // ----- sums and products -----

  /** Sums, differences and products are exact if they fit, and otherwise right modulo 2^32. */
  lemma AddExact(a: Word, b: Word)
    ensures Congruent(Signed(Alu(Add, a, b)), Signed(a) + Signed(b))
    ensures Fits(Signed(a) + Signed(b)) ==> Signed(Alu(Add, a, b)) == Signed(a) + Signed(b)
  {
  }

  lemma SubExact(a: Word, b: Word)
    ensures Congruent(Signed(Alu(Sub, a, b)), Signed(a) - Signed(b))
    ensures Fits(Signed(a) - Signed(b)) ==> Signed(Alu(Sub, a, b)) == Signed(a) - Signed(b)
  {
  }

  lemma MulExact(a: Word, b: Word)
    ensures Congruent(Signed(Alu(Mul, a, b)), Signed(a) * Signed(b))
    ensures Fits(Signed(a) * Signed(b)) ==> Signed(Alu(Mul, a, b)) == Signed(a) * Signed(b)
  {
    var x, y := Signed(a), Signed(b);
    var i, j := if a < TOP then 0 else 1, if b < TOP then 0 else 1;
    assert a == x + i * RANGE && b == y + j * RANGE;
    var k := x * j + y * i + i * j * RANGE;
    ProductShift(x, y, i, j);
    MultipleOf(a * b - x * y, k);
    WordIs(a * b);
    CongruentTrans(Signed(Alu(Mul, a, b)), a * b, x * y);
    SignedIs(Alu(Mul, a, b));
    if Fits(x * y) { CongruentSame(Signed(Alu(Mul, a, b)), x * y); }
  }

  lemma ProductShift(x: int, y: int, i: int, j: int)
    requires (i == 0 || i == 1) && (j == 0 || j == 1)
    ensures (x + i * RANGE) * (y + j * RANGE) - x * y == (x * j + y * i + i * j * RANGE) * RANGE
  {
  }

  // ----- quotients and remainders -----

  lemma TruncLaw(x: int, y: int)
    requires y != 0
    ensures var q, r := TruncDiv(x, y), TruncMod(x, y);
            && x == y * q + r && Abs(r) < Abs(y) && (r == 0 || (r < 0 <==> x < 0))
            && Abs(q) <= Abs(x) && (Abs(y) > 1 && x != 0 ==> Abs(q) < Abs(x))
  {
    hide TruncDiv, TruncMod;
    var k, r := TruncParts(x, y);
    QuotientSmall(Abs(x), Abs(y), k, r);
    SignedProduct(x, y, k);
    Signs(x, y, TruncDiv(x, y), k, r, Abs(y) * k, y * TruncDiv(x, y));
  }

  /** Truncated division is division of the magnitudes. */
  lemma TruncParts(x: int, y: int) returns (k: int, r: int)
    requires y != 0
    ensures k >= 0 && Abs(x) == Abs(y) * k + r && 0 <= r < Abs(y)
    ensures TruncDiv(x, y) == if (x < 0) == (y < 0) then k else -k
    ensures TruncMod(x, y) == x - y * TruncDiv(x, y)
  {
    k, r := Abs(x) / Abs(y), Abs(x) % Abs(y);
  }

  /** p is the product of the magnitudes, s the signed one. */
  lemma Signs(x: int, y: int, q: int, k: int, r: int, p: int, s: int)
    requires Abs(x) == p + r && 0 <= r < Abs(y) && k >= 0 && (q == k || q == -k)
    requires s == if x < 0 then -p else p
    ensures x - s == (if x < 0 then -r else r) && Abs(x - s) < Abs(y) && (x - s == 0 || (x - s < 0 <==> x < 0))
    ensures Abs(q) == k
  {
  }

  lemma SignedProduct(x: int, y: int, k: int)
    requires y != 0
    ensures var q: int := if (x < 0) == (y < 0) then k else -k;
            y * q == if x < 0 then -(Abs(y) * k) else Abs(y) * k
  {
  }

  lemma QuotientSmall(m: nat, d: nat, q: nat, r: nat)
    requires d > 0 && m == d * q + r
    ensures q <= m && (d > 1 && m > 0 ==> q < m)
  {
    if d > 1 && q > 0 { Arith.Mul(1, d, q); }
  }

  /** The division of C: the quotient and the remainder make up the dividend, and the remainder
      is smaller than the divisor and has the sign of the dividend. Only -2^31 / -1 does not fit. */
  lemma DivExact(a: Word, b: Word)
    requires b != 0 && !(Signed(a) == -TOP && Signed(b) == -1)
    ensures var x, y, q, r := Signed(a), Signed(b), Signed(Alu(Div, a, b)), Signed(Alu(Mod, a, b));
            && x == y * q + r
            && Abs(r) < Abs(y)
            && (r == 0 || (r < 0 <==> x < 0))
  {
    hide TruncDiv, TruncMod;
    var x, y := Signed(a), Signed(b);
    TruncLaw(x, y);
    SignedIs(a);
    SignedIs(b);
    WordIs(TruncDiv(x, y));
    WordIs(TruncMod(x, y));
    if Abs(y) == 1 { assert TruncMod(x, y) == 0; }
    hide Signed, ToWord;
  }

  // ----- bits -----

  /** And, or, exclusive or and complement act bit by bit. */
  lemma BitByBit(a: Word, b: Word, k: nat)
    requires k < 32
    ensures Bit(Alu(And, a, b), k) <==> Bit(a, k) && Bit(b, k)
    ensures Bit(Alu(Or, a, b), k) <==> Bit(a, k) || Bit(b, k)
    ensures Bit(Alu(Xor, a, b), k) <==> (Bit(a, k) <==> !Bit(b, k))
    ensures Bit(Complement(a), k) <==> !Bit(a, k)
  {
    hide Bit;
    BitOfBoth(a, b, k);
    BitOfEither(a, b, k);
    BitOfDiffer(a, b, k);
    Low32();
    BitOfRest(a, 32, k);
  }

  lemma PowersAdd(i: nat, j: nat)
    ensures Pow2(i + j) == Pow2(i) * Pow2(j)
    decreases i
  {
    if i > 0 {
      PowersAdd(i - 1, j);
      assert Pow2(i + j) == 2 * Pow2(i - 1 + j);
    }
  }

  /** Shifting left moves the bits up and fills with zeros. */
  lemma ShiftLeft(a: Word, b: Word, k: nat)
    requires b < 32 && k < 32
    ensures Bit(Alu(Shl, a, b), k) <==> k >= b && Bit(a, k - b)
  {
    hide Bit, Pow2;
    Low32();
    var x := a * Pow2(b);
    Arith.Positive(a, Pow2(b));
    assert 0 < Pow2(b);
    LowBits(x, 32, k);
    BitOfDigits(a, 0, b, k);
    NoBits(k);
  }

  /** The low n bits of a number are its bits below n. */
  lemma LowBits(x: nat, n: nat, k: nat)
    requires k < n
    ensures Bit(x % Pow2(n), k) <==> Bit(x, k)
  {
    hide Bit, Pow2;
    var h, q := x / Pow2(n), x % Pow2(n);
    assert x == h * Pow2(n) + q;
    BitOfDigits(h, q, n, k);
  }

  /** Shifting right moves the bits down and fills with the sign. */
  lemma ShiftRight(a: Word, b: Word, k: nat)
    requires b < 32 && k < 32
    ensures Bit(Alu(Shr, a, b), k) <==> if k + b < 32 then Bit(a, k + b) else Signed(a) < 0
  {
    hide Bit, Pow2;
    var p := Pow2(b);
    var q, r := a / p, a % p;
    assert a == q * p + r;
    BitOfDigits(q, r, b, k + b);
    Low32();
    PowersAdd(32 - b, b);
    var n := Pow2(32 - b);
    assert n * p == RANGE;
    QuotientBelow(a, q, r, p, n);
    if Signed(a) < 0 {
      FloorNegative(a, q, r, p, n);
      var v := (p - 1) * n + q;
      assert Alu(Shr, a, b) == v by { NegativeWord(q, p, n); }
      BitOfDigits(p - 1, q, 32 - b, k);
      if k + b >= 32 {
        BitOfRest(0, b, k - (32 - b));
        NoBits(k - (32 - b));
      }
    } else {
      BitOfDigits(0, q, 32 - b, k);
      assert 0 * n + q == q;
      NoBits(k);
      if k + b >= 32 { NoBits(k - (32 - b)); }
      assert q < RANGE by { Below(q, n, p); }
    }
  }

  lemma Below(q: nat, n: nat, p: nat)
    requires q < n && p >= 1
    ensures q < n * p
  {
    if p > 1 { Arith.Mul(1, p, n); }
  }

  lemma QuotientBelow(a: nat, q: nat, r: nat, p: nat, n: nat)
    requires a == q * p + r && r < p && a < n * p
    ensures q < n
  {
    if q >= n {
      if q > n { Arith.Mul(n, q, p); }
    }
  }

  /** The floor of a negative number's quotient. */
  lemma FloorNegative(a: nat, q: nat, r: nat, p: nat, n: nat)
    requires p >= 1 && a == q * p + r && r < p && n * p == RANGE
    ensures (a - RANGE) / p == q - n
  {
    assert a - RANGE == (q - n) * p + r;
    var e, s := (a - RANGE) / p, (a - RANGE) % p;
    assert a - RANGE == e * p + s;
    if e < q - n { Arith.Mul(e, q - n, p); }
    if q - n < e { Arith.Mul(q - n, e, p); }
  }

  lemma NegativeWord(q: nat, p: nat, n: nat)
    requires n * p == RANGE && q < n && p >= 1
    ensures ToWord(q - n) == (p - 1) * n + q
  {
    assert (p - 1) * n == n * p - n;
    Below(q, n, p);
    if p > 1 { Arith.Mul(1, p, n); }
  }
}
