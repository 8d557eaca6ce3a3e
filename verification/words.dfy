/** The two-word bit vector p[2] of smoothsort, with the shifts of utils.c. Bit j of p is set when
    the string of heaps holds a heap of order pshift + j. */
module Words {
  import opened Leonardo

  /** p[0] is lo, p[1] is hi. */
  datatype Words = Words(lo: nat, hi: nat)

  predicate Valid(p: Words) {
    p.lo < WORD && p.hi < WORD
  }

  /** Left shift within one word, bits falling off the top. */
  function Left(w: nat, n: nat): nat
    decreases n
  {
    if n == 0 then w else Left((2 * w) % WORD, n - 1)
  }

  function Right(w: nat, n: nat): nat
    decreases n
  {
    if n == 0 then w else Right(w / 2, n - 1)
  }

  /** shl(). The bits or-ed into p[1] fall where its own shifted bits are zero, so the or is a sum. */
  function Shl(p: Words, n: nat): Words
    requires 0 < n < 128
  {
    var q := if n >= 64 then Words(0, p.lo) else p;
    var m := if n >= 64 then n - 64 else n;
    Words(Left(q.lo, m), Left(q.hi, m) + Right(q.lo, 64 - m))
  }

  function Shr(p: Words, n: nat): Words
    requires 0 < n < 128
  {
    var q := if n >= 64 then Words(p.hi, 0) else p;
    var m := if n >= 64 then n - 64 else n;
    Words(Right(q.lo, m) + Left(q.hi, 64 - m), Right(q.hi, m))
  }

  /** p[0] |= 1 */
  function Or1(w: nat): nat {
    w - w % 2 + 1
  }

  /** p[0] ^= 7 */
  function Xor7(w: nat): nat {
    w - w % 8 + (7 - w % 8)
  }

  /** Number of trailing zero bits (the bsf instruction, undefined on 0). */
  function Ctz(w: nat): nat
    requires w > 0
  {
    if w % 2 == 1 then 0 else 1 + Ctz(w / 2)
  }

  /** pntz() */
  function Pntz(p: Words): nat
    requires p.lo > 1 || (p.lo == 1 && p.hi > 0)
  {
    if p.lo > 1 && Ctz(p.lo - 1) != 0 then Ctz(p.lo - 1)
    else if p.hi > 0 then 64 + Ctz(p.hi)
    else 0
  }

  lemma {:induction false} ZeroShift(n: nat)
    ensures Left(0, n) == 0 && Right(0, n) == 0
  {
    if n != 0 {
      ZeroShift(n - 1);
    }
  }

  lemma {:induction false} RightVanishes(w: nat, n: nat)
    requires w < Pow2(n)
    ensures Right(w, n) == 0
  {
    if n != 0 {
      RightVanishes(w / 2, n - 1);
    }
  }

  /** While the high word is zero, shr shifts the low word. */
  lemma ShrLow(p: Words, n: nat)
    requires p.hi == 0 && 0 < n < 64
    ensures Shr(p, n) == Words(Right(p.lo, n), 0)
  {
    ZeroShift(64 - n);
    ZeroShift(n);
  }

  /** Shifting w left n times loses no bit. */
  predicate Room(w: nat, n: nat)
    decreases n
  {
    n == 0 || (2 * w < WORD && Room(2 * w, n - 1))
  }

  lemma {:induction false} RoomBelow(w: nat, n: nat, k: nat)
    requires n <= k <= 64
    ensures w < Pow2(64 - k) ==> Room(w, n)
    decreases n
  {
    if n != 0 && w < Pow2(64 - k) {
      Pow2Monotone(65 - k, 64);
      Pow2Constants();
      RoomBelow(2 * w, n - 1, k - 1);
    }
  }

  lemma {:induction false} RoomBound(w: nat, n: nat)
    requires n <= 64 && w < WORD && Room(w, n)
    ensures w < Pow2(64 - n)
    decreases n
  {
    if n == 0 {
      Pow2Constants();
    } else {
      RoomBound(2 * w, n - 1);
      assert Pow2(65 - n) == 2 * Pow2(64 - n);
    }
  }

  /** While the high word is zero and no bit falls off, shl keeps it zero. */
  lemma ShlLow(p: Words, n: nat)
    requires Valid(p) && p.hi == 0 && 0 < n < 64 && Room(p.lo, n)
    ensures Shl(p, n) == Words(Left(p.lo, n), 0)
  {
    ZeroShift(n);
    RoomBound(p.lo, n);
    RightVanishes(p.lo, 64 - n);
  }

  /** The orders of the heaps a bit vector describes, smallest first. */
  function Orders(w: nat, s: nat): seq<nat> {
    if w == 0 then []
    else if w % 2 == 1 then [s] + Orders(w / 2, s + 1)
    else Orders(w / 2, s + 1)
  }

  lemma {:induction false} OrdersAtLeast(w: nat, s: nat, i: nat)
    requires i < |Orders(w, s)|
    ensures Orders(w, s)[i] >= s
  {
    if w % 2 == 0 {
      OrdersAtLeast(w / 2, s + 1, i);
    } else if i > 0 {
      OrdersAtLeast(w / 2, s + 1, i - 1);
    }
  }

  /** Shifting left by n and lowering pshift by n describes the same heaps. */
  lemma {:induction false} LeftOrders(w: nat, s: nat, n: nat)
    requires Room(w, n)
    ensures Orders(Left(w, n), s) == Orders(w, s + n)
    ensures n > 0 ==> Left(w, n) % 2 == 0
    ensures w < WORD ==> Left(w, n) < WORD
    decreases n
  {
    if n != 0 {
      InWord(2 * w);
      LeftOrders(2 * w, s, n - 1);
      DoubleOrders(w, s + (n - 1));
    }
  }

  lemma InWord(x: nat)
    requires x < WORD
    ensures x % WORD == x
  {
  }

  lemma DoubleOrders(w: nat, s: nat)
    ensures Orders(2 * w, s) == Orders(w, s + 1)
  {
    assert (2 * w) / 2 == w;
  }

  /** Shifting the trailing zeros out and raising pshift by their number describes the same heaps. */
  lemma {:induction false} RightOrders(w: nat, s: nat)
    requires w > 0
    ensures Right(w, Ctz(w)) % 2 == 1 && Right(w, Ctz(w)) <= w
    ensures Orders(w, s) == Orders(Right(w, Ctz(w)), s + Ctz(w))
  {
    if w % 2 == 0 {
      RightOrders(w / 2, s + 1);
    }
  }

  /** What one "trail = pntz(p); shr(p, trail); pshift += trail" does: it drops the last heap. */
  lemma DropLast(w: nat, s: nat)
    requires w % 2 == 1 && w > 1
    ensures Ctz(w - 1) > 0
    ensures Right(w, Ctz(w - 1)) % 2 == 1 && Right(w, Ctz(w - 1)) < w
    ensures Orders(w, s) == [s] + Orders(Right(w, Ctz(w - 1)), s + Ctz(w - 1))
  {
    var t := Ctz(w - 1);
    RightOrders(w - 1, s);
    assert w / 2 == (w - 1) / 2;
    assert Right(w, t) == Right(w - 1, t) by {
      assert Right(w, t) == Right(w / 2, t - 1);
      assert Right(w - 1, t) == Right((w - 1) / 2, t - 1);
    }
    assert Orders(w - 1, s) == Orders(w / 2, s + 1);
  }

  /** A vector whose heaps all have orders below m fits in m - s bits, and holds at most m - s. */
  lemma {:induction false} OrdersBound(w: nat, s: nat, m: nat)
    requires w > 0
    requires forall i :: 0 <= i < |Orders(w, s)| ==> Orders(w, s)[i] < m
    ensures s < m && w < Pow2(m - s) && |Orders(w, s)| <= m - s
    decreases w
  {
    var os, tail := Orders(w, s), Orders(w / 2, s + 1);
    assert os == (if w % 2 == 1 then [s] else []) + tail;
    if w == 1 {
      assert os[0] == s;
      assert Pow2(m - s) == 2 * Pow2(m - s - 1);
    } else {
      forall i | 0 <= i < |tail| ensures tail[i] < m {
        assert tail[i] == os[i + |os| - |tail|];
      }
      OrdersBound(w / 2, s + 1, m);
      assert Pow2(m - s) == 2 * Pow2(m - s - 1);
    }
  }

  lemma OddOrders(w: nat, s: nat)
    requires w % 2 == 1
    ensures Orders(w, s) == [s] + Orders(w / 2, s + 1)
    ensures |Orders(w, s)| == 1 <==> w == 1
  {
    if w != 1 {
      SomeOrder(w / 2, s + 1);
    }
  }

  lemma {:induction false} SomeOrder(w: nat, s: nat)
    requires w > 0
    ensures Orders(w, s) != []
  {
    if w % 2 == 0 {
      SomeOrder(w / 2, s + 1);
    }
  }
}
