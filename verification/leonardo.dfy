/** Leonardo numbers: the sizes of the heaps smoothsort works with, and the table of them
    that qsort precomputes, scaled by the element width. */
module Leonardo {

  const WORD: nat := 0x1_0000_0000_0000_0000
  const MAX_BYTES: nat := 0x4000_0000_0000_0000
  const LP_LENGTH: nat := 96

  /** Number of elements of a Leonardo heap of order k. */
  function L(k: nat): (n: nat)
    ensures n >= 1
  {
    if k <= 1 then 1 else L(k - 1) + L(k - 2) + 1
  }

  lemma {:induction false} Monotone(j: nat, k: nat)
    requires j <= k
    ensures L(j) <= L(k)
    ensures 1 <= j < k ==> L(j) < L(k)
    decreases k - j
  {
    if j < k {
      Monotone(j, k - 1);
      assert L(k) >= L(k - 1);
    }
  }

  function Pow2(n: nat): (r: nat)
    ensures r >= 1
  {
    if n == 0 then 1 else 2 * Pow2(n - 1)
  }

  lemma {:induction false} Pow2Add(m: nat, n: nat)
    ensures Pow2(m + n) == Pow2(m) * Pow2(n)
  {
    if m != 0 {
      Pow2Add(m - 1, n);
      assert Pow2(m + n) == 2 * Pow2(m - 1 + n);
    }
  }

  lemma {:induction false} Pow2Monotone(m: nat, n: nat)
    requires m <= n
    ensures Pow2(m) <= Pow2(n)
    decreases n - m
  {
    if m < n {
      Pow2Monotone(m, n - 1);
    }
  }

  lemma GrowthStep(k: nat)
    ensures L(k + 3) >= 4 * L(k)
  {
    assert L(k + 3) == L(k + 2) + L(k + 1) + 1;
    assert L(k + 2) == L(k + 1) + L(k) + 1;
    if k >= 2 {
      assert L(k + 1) == L(k) + L(k - 1) + 1;
      Monotone(k - 2, k - 1);
    } else if k == 1 {
      assert L(2) == 3;
    }
  }

  /** Leonardo numbers at least quadruple every three orders. */
  lemma {:induction false} Growth(j: nat)
    ensures L(1 + 3 * j) >= Pow2(2 * j)
  {
    if j != 0 {
      Growth(j - 1);
      GrowthStep(1 + 3 * (j - 1));
      assert 1 + 3 * (j - 1) + 3 == 1 + 3 * j;
      assert Pow2(2 * j) == 2 * Pow2(2 * j - 1) == 4 * Pow2(2 * (j - 1));
    }
  }

  /** Smoothsort's 64-bit vector describes strings of heaps of orders below 64: it can sort arrays
      with fewer elements than this. */
  const SORT_LIMIT: nat := 34335360355129

  /** Leonardo numbers nine orders ahead (one more than each is a Fibonacci-like sequence). */
  lemma Ahead(k: nat)
    ensures L(k + 8) + 1 == 21 * (L(k + 1) + 1) + 13 * (L(k) + 1)
    ensures L(k + 9) + 1 == 34 * (L(k + 1) + 1) + 21 * (L(k) + 1)
  {
    assert L(k + 3) + 1 == 2 * (L(k + 1) + 1) + (L(k) + 1);
    assert L(k + 4) + 1 == 3 * (L(k + 1) + 1) + 2 * (L(k) + 1);
    assert L(k + 5) + 1 == 5 * (L(k + 1) + 1) + 3 * (L(k) + 1);
    assert L(k + 6) + 1 == 8 * (L(k + 1) + 1) + 5 * (L(k) + 1);
    assert L(k + 7) + 1 == 13 * (L(k + 1) + 1) + 8 * (L(k) + 1);
  }

  /** One more than the Leonardo numbers of orders 8 * j and 8 * j + 1. */
  function Eights(j: nat): (nat, nat) {
    if j == 0 then (2, 2)
    else
      var (x, y) := Eights(j - 1);
      (13 * x + 21 * y, 21 * x + 34 * y)
  }

  lemma FirstLeonardo()
    ensures L(0) == L(1) == 1
  {
  }

  lemma {:induction false} EightsLeonardo(j: nat)
    ensures Eights(j) == (L(8 * j) + 1, L(8 * j + 1) + 1)
  {
    hide L;
    if j == 0 {
      FirstLeonardo();
    } else {
      var k := 8 * (j - 1);
      EightsLeonardo(j - 1);
      Ahead(k);
      assert 8 * j == k + 8;
    }
  }

  lemma EightEights()
    ensures Eights(8).0 == SORT_LIMIT + 1
  {
    assert Eights(1) == (68, 110);
    assert Eights(2) == (3194, 5168);
    assert Eights(3) == (150050, 242786);
    assert Eights(4) == (7049156, 11405774);
    assert Eights(5) == (331160282, 535828592);
    assert Eights(6) == (15557484098, 25172538050);
    assert Eights(7) == (730870592324, 1182573459758);
    assert Eights(8) == (34335360355130, 55555780070576);
  }

  /** A heap smaller than the limit has an order below 64. */
  lemma OrderBelow64(o: nat)
    requires L(o) < SORT_LIMIT
    ensures o < 64
  {
    EightEights();
    var j := 8;
    EightsLeonardo(j);
    if o >= 8 * j {
      Monotone(8 * j, o);
    }
  }

  lemma Pow2Constants()
    ensures Pow2(16) == 0x1_0000
    ensures Pow2(32) == 0x1_0000_0000
    ensures Pow2(42) == 0x400_0000_0000
    ensures Pow2(62) == 0x4000_0000_0000_0000
    ensures Pow2(64) == 0x1_0000_0000_0000_0000
  {
    assert Pow2(8) == 256;
    Pow2Add(8, 8);
    Pow2Add(16, 16);
    assert Pow2(10) == 1024;
    Pow2Add(32, 10);
    assert Pow2(20) == 1024 * 1024 by { Pow2Add(10, 10); }
    Pow2Add(42, 20);
    assert Pow2(2) == 4;
    Pow2Add(62, 2);
  }

  /** No Leonardo number of order 94 or more is below 2^62. */
  lemma OrderBelow94(o: nat)
    requires L(o) < MAX_BYTES
    ensures o < 94
  {
    var j := 31;
    Growth(j);
    Pow2Constants();
    if o >= 1 + 3 * j {
      Monotone(1 + 3 * j, o);
    }
  }

  function Scaled(width: nat, k: nat): nat {
    width * L(k)
  }

  lemma WidthTimes(width: nat, x: nat)
    requires width >= 1
    ensures width * x >= x
  {
  }

  lemma InsideTable(width: nat, i: nat)
    requires width >= 1 && Scaled(width, i) < MAX_BYTES
    ensures i < 94
  {
    WidthTimes(width, L(i));
    OrderBelow94(i);
  }

  lemma Unfold(width: nat, i: nat)
    requires i >= 2
    ensures Scaled(width, i) == Scaled(width, i - 2) + Scaled(width, i - 1) + width
    ensures Scaled(width, 0) == Scaled(width, 1) == width
  {
    assert L(i) == L(i - 1) + L(i - 2) + 1;
  }

  /** The loop that fills lp[]: it stops inside the array, no entry wraps a 64-bit word, and every
      entry up to the one that stopped it is a Leonardo number times the element width. */
  method LeonardoTable(width: nat, size: nat) returns (lp: array<nat>, top: nat)
    requires 0 < width <= size < MAX_BYTES
    ensures fresh(lp) && lp.Length == LP_LENGTH
    ensures 2 <= top < LP_LENGTH
    ensures forall k :: 0 <= k <= top ==> lp[k] == Scaled(width, k) < WORD
    ensures lp[top] >= size && forall k :: 2 <= k < top ==> lp[k] < size
  {
    hide Scaled;
    lp := new nat[LP_LENGTH];
    lp[0], lp[1] := width, width;
    var i := 2;
    Unfold(width, i);
    lp[i] := (lp[i - 2] + lp[i - 1] + width) % WORD;
    while lp[i] < size
      invariant 2 <= i < LP_LENGTH
      invariant forall k :: 0 <= k <= i ==> lp[k] == Scaled(width, k) < WORD
      invariant forall k :: 0 <= k < i ==> lp[k] <= size
      invariant forall k :: 2 <= k < i ==> lp[k] < size
    {
      InsideTable(width, i);
      i := i + 1;
      Unfold(width, i);
      lp[i] := (lp[i - 2] + lp[i - 1] + width) % WORD;
    }
    top := i;
  }
}
