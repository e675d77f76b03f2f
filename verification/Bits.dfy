/** Bits of a word, and __rt_ffs with its table of lowest bits (kservice.c). */
module Bits {

  /** (v >> k) & 1. */
  predicate Bit(v: nat, k: nat)
    decreases k
  {
    if k == 0 then v % 2 == 1 else Bit(v / 2, k - 1)
  }

  /** v | (1 << k). */
  function SetBit(v: nat, k: nat): nat
    decreases k
  {
    if k == 0 then v / 2 * 2 + 1 else SetBit(v / 2, k - 1) * 2 + v % 2
  }

  /** v & ~(1 << k). */
  function ClearBit(v: nat, k: nat): nat
    decreases k
  {
    if k == 0 then v / 2 * 2 else ClearBit(v / 2, k - 1) * 2 + v % 2
  }

  function Pow2(n: nat): (p: nat)
    ensures p >= 1
  {
    if n == 0 then 1 else 2 * Pow2(n - 1)
  }

  lemma {:induction false} BitOfSet(v: nat, k: nat, j: nat)
    ensures Bit(SetBit(v, k), j) <==> j == k || Bit(v, j)
    decreases k
  {
    if k > 0 && j > 0 {
      assert SetBit(v, k) / 2 == SetBit(v / 2, k - 1);
      BitOfSet(v / 2, k - 1, j - 1);
    } else if k == 0 && j > 0 {
      assert SetBit(v, 0) / 2 == v / 2;
    }
  }

  lemma {:induction false} BitOfClear(v: nat, k: nat, j: nat)
    ensures Bit(ClearBit(v, k), j) <==> j != k && Bit(v, j)
    decreases k
  {
    if k > 0 && j > 0 {
      assert ClearBit(v, k) / 2 == ClearBit(v / 2, k - 1);
      BitOfClear(v / 2, k - 1, j - 1);
    } else if k == 0 && j > 0 {
      assert ClearBit(v, 0) / 2 == v / 2;
    }
  }

  /** Setting and clearing low bits keeps a word of n bits. */
  lemma {:induction false} StaysSmall(v: nat, k: nat, n: nat)
    requires k < n && v < Pow2(n)
    ensures SetBit(v, k) < Pow2(n) && ClearBit(v, k) < Pow2(n)
    decreases k
  {
    if k > 0 { StaysSmall(v / 2, k - 1, n - 1); }
  }

  lemma {:induction false} NoBits(k: nat)
    ensures !Bit(0, k)
    decreases k
  {
    if k > 0 { NoBits(k - 1); }
  }

  // ----- operations on all bits -----

  /** v & w. */
  function Both(v: nat, w: nat): nat
    decreases v + w
  {
    if v == 0 && w == 0 then 0 else Both(v / 2, w / 2) * 2 + if v % 2 == 1 && w % 2 == 1 then 1 else 0
  }

  /** v | w. */
  function Either(v: nat, w: nat): nat
    decreases v + w
  {
    if v == 0 && w == 0 then 0 else Either(v / 2, w / 2) * 2 + if v % 2 == 1 || w % 2 == 1 then 1 else 0
  }

  /** v ^ w. */
  function Differ(v: nat, w: nat): nat
    decreases v + w
  {
    if v == 0 && w == 0 then 0 else Differ(v / 2, w / 2) * 2 + if v % 2 != w % 2 then 1 else 0
  }

  lemma {:induction false} BitOfBoth(v: nat, w: nat, k: nat)
    ensures Bit(Both(v, w), k) <==> Bit(v, k) && Bit(w, k)
    decreases k
  {
    if k > 0 {
      assert Both(v, w) / 2 == Both(v / 2, w / 2);
      BitOfBoth(v / 2, w / 2, k - 1);
    }
  }

  lemma {:induction false} BitOfEither(v: nat, w: nat, k: nat)
    ensures Bit(Either(v, w), k) <==> Bit(v, k) || Bit(w, k)
    decreases k
  {
    if k > 0 {
      assert Either(v, w) / 2 == Either(v / 2, w / 2);
      BitOfEither(v / 2, w / 2, k - 1);
    }
  }

  lemma {:induction false} BitOfDiffer(v: nat, w: nat, k: nat)
    ensures Bit(Differ(v, w), k) <==> (Bit(v, k) <==> !Bit(w, k))
    decreases k
  {
    if k > 0 {
      assert Differ(v, w) / 2 == Differ(v / 2, w / 2);
      BitOfDiffer(v / 2, w / 2, k - 1);
    }
  }

  lemma {:induction false} CombinedSmall(v: nat, w: nat, n: nat)
    requires v < Pow2(n) && w < Pow2(n)
    ensures Both(v, w) < Pow2(n) && Either(v, w) < Pow2(n) && Differ(v, w) < Pow2(n)
    decreases n
  {
    if n > 0 { CombinedSmall(v / 2, w / 2, n - 1); }
  }

  /** All n bits turned over. */
  lemma {:induction false} BitOfRest(v: nat, n: nat, k: nat)
    requires v < Pow2(n) && k < n
    ensures Bit(Pow2(n) - 1 - v, k) <==> !Bit(v, k)
    decreases k
  {
    var r := Pow2(n) - 1 - v;
    assert Pow2(n) == 2 * Pow2(n - 1);
    if k > 0 {
      assert r / 2 == Pow2(n - 1) - 1 - v / 2;
      BitOfRest(v / 2, n - 1, k - 1);
    }
  }

  /** The bits of h followed by the n bits of q. */
  lemma {:induction false} BitOfDigits(h: nat, q: nat, n: nat, k: nat)
    requires q < Pow2(n)
    ensures h * Pow2(n) + q >= 0
    ensures Bit(h * Pow2(n) + q, k) <==> if k < n then Bit(q, k) else Bit(h, k - n)
    decreases n
  {
    if n == 0 {
      assert h * Pow2(0) + q == h;
    } else {
      var x := h * Pow2(n - 1);
      assert h * Pow2(n) == 2 * x;
      if k > 0 {
        assert (2 * x + q) / 2 == x + q / 2;
        BitOfDigits(h, q / 2, n - 1, k - 1);
      }
    }
  }

  /** The number of the lowest one bit. */
  function Lowest(v: nat): nat
    requires v > 0
  {
    if v % 2 == 1 then 0 else 1 + Lowest(v / 2)
  }

  lemma {:induction false} LowestIs(v: nat)
    requires v > 0
    ensures Bit(v, Lowest(v)) && forall j :: 0 <= j < Lowest(v) ==> !Bit(v, j)
  {
    if v % 2 == 0 {
      LowestIs(v / 2);
      forall j | 0 <= j < Lowest(v) ensures !Bit(v, j) {
        if j > 0 { assert !Bit(v / 2, j - 1); }
      }
    }
  }

  /** The lowest one bit of the number with the bits of q followed by k bits n. */
  lemma {:induction false} LowestDigits(q: nat, n: nat, k: nat)
    requires n < Pow2(k) && q * Pow2(k) + n > 0
    ensures n != 0 ==> Lowest(q * Pow2(k) + n) == Lowest(n)
    ensures n == 0 ==> q > 0 && Lowest(q * Pow2(k)) == k + Lowest(q)
    decreases k
  {
    if k > 0 {
      var x := q * Pow2(k - 1);
      assert q * Pow2(k) == 2 * x;
      if n % 2 == 0 {
        assert (2 * x + n) / 2 == x + n / 2 && (2 * x + n) % 2 == 0;
        LowestDigits(q, n / 2, k - 1);
      } else {
        assert (2 * x + n) % 2 == 1;
      }
    } else {
      assert q * Pow2(0) == q;
    }
  }

  // ----- __lowest_bit_bitmap -----

  /** The table has sixteen rows, which differ in the first column only. */
  const COLUMNS: seq<nat> := [0, 0, 1, 0, 2, 0, 1, 0, 3, 0, 1, 0, 2, 0, 1, 0]
  const FIRST_COLUMN: seq<nat> := [0, 4, 5, 4, 6, 4, 5, 4, 7, 4, 5, 4, 6, 4, 5, 4]

  function Table(b: nat): nat
    requires b < 256
  {
    if b % 16 == 0 then FIRST_COLUMN[b / 16] else COLUMNS[b % 16]
  }

  /** Every entry but the first is the lowest one bit of its index. */
  lemma TableIs(b: nat)
    requires 0 < b < 256
    ensures Table(b) == Lowest(b)
  {
    var h, l := b / 16, b % 16;
    assert Pow2(4) == 16 && b == h * 16 + l;
    LowestDigits(h, l, 4);
    if l == 0 { RowIs(h); } else { RowIs(l); }
  }

  lemma RowIs(n: nat)
    requires 0 < n < 16
    ensures COLUMNS[n] == Lowest(n) && FIRST_COLUMN[n] == 4 + Lowest(n)
  {
    assert Lowest(1) == 0 && Lowest(2) == 1 && Lowest(3) == 0 && Lowest(4) == 2 && Lowest(5) == 0;
    assert Lowest(6) == 1 && Lowest(7) == 0 && Lowest(8) == 3 && Lowest(9) == 0 && Lowest(10) == 1;
    assert Lowest(11) == 0 && Lowest(12) == 2 && Lowest(13) == 0 && Lowest(14) == 1 && Lowest(15) == 0;
  }

  /** The lowest one bit, one byte at a time. */
  lemma LowestByte(v: nat)
    requires v > 0
    ensures v % 256 != 0 ==> Lowest(v) == Table(v % 256)
    ensures v % 256 == 0 ==> Lowest(v) == 8 + Lowest(v / 256)
  {
    assert Pow2(8) == 256 by { assert Pow2(4) == 16; }
    assert v == v / 256 * 256 + v % 256;
    LowestDigits(v / 256, v % 256, 8);
    if v % 256 != 0 { TableIs(v % 256); }
  }

  /** __rt_ffs. */
  function Ffs(value: nat): nat
    requires value < 0x1_0000_0000
  {
    if value == 0 then 0
    else if value % 256 != 0 then Table(value % 256) + 1
    else if value / 256 % 256 != 0 then Table(value / 256 % 256) + 9
    else if value / 0x1_0000 % 256 != 0 then Table(value / 0x1_0000 % 256) + 17
    else Table(value / 0x100_0000 % 256) + 25
  }

  /** The number of the lowest one bit, counted from 1; 0 if there is none. */
  lemma FfsIs(v: nat)
    requires v < 0x1_0000_0000
    ensures v == 0 ==> Ffs(v) == 0
    ensures v > 0 ==> Ffs(v) == Lowest(v) + 1
  {
    hide Table, Lowest;
    if v > 0 {
      var v1, v2, v3 := v / 256, v / 0x1_0000, v / 0x100_0000;
      assert v1 / 256 == v2 && v2 / 256 == v3;
      LowestByte(v);
      if v % 256 == 0 {
        LowestByte(v1);
        if v1 % 256 == 0 {
          LowestByte(v2);
          if v2 % 256 == 0 { LowestByte(v3); }
        }
      }
    }
  }
}
