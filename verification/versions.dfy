/** Half-ids: the numbers that become class and version fields of an ID. */
module Versions {
  /** Four 7-bit digits, none of them equal to half of DCV, NPV or LPV. */
  const DIGIT: nat := 128
  const GOOD_DIGITS: nat := 125
  const NUMBERS: nat := 268435455
  const HALF_IDS: nat := 244140625

  /** DCV >> 1, NPV >> 1 and LPV >> 1. */
  predicate GoodDigit(d: nat) {
    d < DIGIT && d != 122 && d != 126 && d != 127
  }

  /** The lowest k digits of n are good, and there are no more. */
  predicate Good(k: nat, n: nat) {
    if k == 0 then n == 0 else GoodDigit(n % DIGIT) && Good(k - 1, n / DIGIT)
  }

  function DigitRank(d: nat): nat
    requires GoodDigit(d)
  {
    if d < 122 then d else d - 1
  }

  /** How many good numbers are smaller than the good number n. */
  function Rank(k: nat, n: nat): nat
    requires Good(k, n)
  {
    if k == 0 then 0 else Rank(k - 1, n / DIGIT) * GOOD_DIGITS + DigitRank(n % DIGIT)
  }

  function Power(k: nat): nat {
    if k == 0 then 1 else GOOD_DIGITS * Power(k - 1)
  }

  /** The good number of a rank. */
  function Unrank(k: nat, r: nat): nat
    decreases k
  {
    if k == 0 then 0
    else
      Unrank(k - 1, r / GOOD_DIGITS) * DIGIT +
      (if r % GOOD_DIGITS < 122 then r % GOOD_DIGITS else r % GOOD_DIGITS + 1)
  }

  lemma {:induction false} UnrankGood(k: nat, r: nat)
    requires r < Power(k)
    ensures Good(k, Unrank(k, r)) && Rank(k, Unrank(k, r)) == r
    decreases k
  {
    if k > 0 {
      var q, d := r / GOOD_DIGITS, r % GOOD_DIGITS;
      var e := if d < 122 then d else d + 1;
      UnrankGood(k - 1, q);
      var n := Unrank(k - 1, q) * DIGIT + e;
      assert n / DIGIT == Unrank(k - 1, q) && n % DIGIT == e;
    }
  }

  lemma {:induction false} RankBelow(k: nat, n: nat)
    requires Good(k, n)
    ensures Rank(k, n) < Power(k)
  {
    if k > 0 {
      RankBelow(k - 1, n / DIGIT);
    }
  }

  lemma {:induction false} RankGrows(k: nat, m: nat, n: nat)
    requires Good(k, m) && Good(k, n) && m < n
    ensures Rank(k, m) < Rank(k, n)
  {
    if m / DIGIT < n / DIGIT {
      RankGrows(k - 1, m / DIGIT, n / DIGIT);
    }
  }

  /** Ranks number the good numbers in order, without gaps. */
  lemma UnrankRank(k: nat, n: nat)
    requires Good(k, n)
    ensures Rank(k, n) < Power(k) && Unrank(k, Rank(k, n)) == n
  {
    RankBelow(k, n);
    var m := Unrank(k, Rank(k, n));
    UnrankGood(k, Rank(k, n));
    if m < n {
      RankGrows(k, m, n);
    } else if n < m {
      RankGrows(k, n, m);
    }
  }

  // ---------- successive good numbers ----------

  function DigitPower(k: nat): (p: nat)
    ensures p > 0
  {
    if k == 0 then 1 else DIGIT * DigitPower(k - 1)
  }

  lemma {:induction false} GoodBelow(k: nat, n: nat)
    requires Good(k, n)
    ensures n < DigitPower(k)
  {
    if k > 0 {
      GoodBelow(k - 1, n / DIGIT);
    }
  }

  /** The largest number of k digits is not good. */
  lemma GoodNumber(k: nat, n: nat)
    requires k > 0 && Good(k, n)
    ensures n < DigitPower(k) - 1
  {
    GoodBelow(k, n);
    assert DigitPower(k) == DIGIT * DigitPower(k - 1);
  }

  lemma {:induction false} ZeroGood(k: nat)
    ensures Good(k, 0) && Unrank(k, 0) == 0 && Power(k) > 0
  {
    if k > 0 {
      ZeroGood(k - 1);
    }
  }

  /** The number the loop of _convert_to_mcfi_half_id_format() stops at, from n up to m, where it wraps. */
  function NextGood(k: nat, m: nat, n: nat): nat
    requires n <= m
    decreases m - n
  {
    if n == m then 0 else if Good(k, n) then n else NextGood(k, m, n + 1)
  }

  function NextRank(p: nat, r: nat): nat {
    if r + 1 < p then r + 1 else 0
  }

  /** After the good number of rank r comes the one of the next rank, and after the last comes 0. */
  lemma {:induction false} NextGoodRank(k: nat, m: nat, r: nat, n: nat)
    requires k > 0 && m == DigitPower(k) - 1 && r < Power(k) && Unrank(k, r) < n <= m
    requires r + 1 < Power(k) ==> n <= Unrank(k, r + 1)
    ensures NextGood(k, m, n) == Unrank(k, NextRank(Power(k), r))
    decreases m - n
  {
    ZeroGood(k);
    UnrankGood(k, r);
    if r + 1 < Power(k) {
      UnrankGood(k, r + 1);
      GoodNumber(k, Unrank(k, r + 1));
    }
    if n < m {
      if Good(k, n) {
        UnrankRank(k, n);
        RankGrows(k, Unrank(k, r), n);
        if r + 1 < Power(k) && n < Unrank(k, r + 1) {
          RankGrows(k, n, Unrank(k, r + 1));
        }
      } else {
        NextGoodRank(k, m, r, n + 1);
      }
    }
  }

  lemma RanksApart(k: nat, m: nat, n: nat)
    requires Good(k, m) && Good(k, n) && Rank(k, m) < Rank(k, n)
    ensures m < n
  {
    if n < m {
      RankGrows(k, n, m);
    }
  }

  lemma NextUsed(k: nat, m: nat, r: nat)
    requires k > 0 && m == DigitPower(k) - 1 && r < Power(k)
    ensures Unrank(k, r) + 1 <= m && NextGood(k, m, Unrank(k, r) + 1) == Unrank(k, NextRank(Power(k), r))
  {
    UnrankGood(k, r);
    GoodNumber(k, Unrank(k, r));
    if r + 1 < Power(k) {
      UnrankGood(k, r + 1);
      RanksApart(k, Unrank(k, r), Unrank(k, r + 1));
    }
    NextGoodRank(k, m, r, Unrank(k, r) + 1);
  }

  /** The number that call j uses, when the counter starts at first and wraps at m. */
  function Used(k: nat, m: nat, first: nat, j: nat): nat
    requires m > 0
  {
    NextGood(k, m, (if j == 0 then first else Used(k, m, first, j - 1) + 1) % m)
  }

  function RankAt(p: nat, first: nat, j: nat): nat {
    if j == 0 then first else NextRank(p, RankAt(p, first, j - 1))
  }

  lemma {:induction false} RankAtBelow(p: nat, first: nat, j: nat)
    requires first < p
    ensures RankAt(p, first, j) < p
  {
    if j > 0 {
      RankAtBelow(p, first, j - 1);
    }
  }

  lemma Wraps(k: nat, m: nat, n: nat)
    requires n <= m && m > 0 && Good(k, 0)
    ensures NextGood(k, m, n % m) == NextGood(k, m, n)
  {
    if n < m {
      Small(n, m);
    } else {
      Whole(m);
    }
  }

  lemma Whole(m: nat)
    requires m > 0
    ensures m % m == 0
  {
    assert m == 1 * m + 0;
  }

  lemma Small(n: nat, m: nat)
    requires n < m
    ensures n % m == n
  {
  }

  /** The calls run through all good numbers in order, again and again. */
  lemma {:induction false} UsedRank(k: nat, m: nat, first: nat, j: nat)
    requires k > 0 && m == DigitPower(k) - 1 > 1 && first <= 1 < Power(k) && Unrank(k, 1) == 1
    ensures Used(k, m, first, j) == Unrank(k, RankAt(Power(k), first, j))
  {
    if j == 0 {
      UsedFirst(k, m, first);
    } else {
      var r := RankAt(Power(k), first, j - 1);
      UsedRank(k, m, first, j - 1);
      RankAtBelow(Power(k), first, j - 1);
      UsedNext(k, m, r);
      UsedLater(k, m, first, j, Unrank(k, r));
    }
  }

  lemma {:induction false} UsedFirst(k: nat, m: nat, first: nat)
    requires k > 0 && m == DigitPower(k) - 1 > 1 && first <= 1 < Power(k) && Unrank(k, 1) == 1
    ensures Used(k, m, first, 0) == Unrank(k, first)
  {
    ZeroGood(k);
    UnrankGood(k, 1);
    Small(first, m);
  }

  lemma {:induction false} UsedLater(k: nat, m: nat, first: nat, j: nat, u: nat)
    requires m > 0 && j > 0 && u == Used(k, m, first, j - 1)
    ensures Used(k, m, first, j) == NextGood(k, m, (u + 1) % m)
  {
  }

  lemma UsedNext(k: nat, m: nat, r: nat)
    requires k > 0 && m == DigitPower(k) - 1 > 1 && r < Power(k)
    ensures NextGood(k, m, (Unrank(k, r) + 1) % m) == Unrank(k, NextRank(Power(k), r))
  {
    ZeroGood(k);
    NextUsed(k, m, r);
    Wraps(k, m, Unrank(k, r) + 1);
  }

  // ---------- the half-ids ----------

  /** Each digit doubled becomes a byte. */
  function Half(k: nat, n: nat): nat
    decreases k
  {
    if k == 0 then 0 else Half(k - 1, n / DIGIT) * 256 + 2 * (n % DIGIT)
  }

  lemma HalfBytes(n: nat, a: nat, b: nat, c: nat, d: nat)
    requires a == n % 128 && b == n / 128 % 128 && c == n / 16384 % 128 && d == n / 2097152 % 128
    ensures Half(4, n) == 33554432 * d + 131072 * c + 512 * b + 2 * a
  {
    var q, r, s := n / 128, n / 128 / 128, n / 128 / 128 / 128;
    assert r == n / 16384 && s == n / 2097152;
    assert Half(1, s) == 2 * d && Half(2, r) == 512 * d + 2 * c && Half(3, q) == 131072 * d + 512 * c + 2 * b;
  }

  lemma GoodBytes(n: nat, a: nat, b: nat, c: nat, d: nat)
    requires n < NUMBERS
    requires a == n % 128 && b == n / 128 % 128 && c == n / 16384 % 128 && d == n / 2097152 % 128
    ensures Good(4, n) <==> GoodDigit(a) && GoodDigit(b) && GoodDigit(c) && GoodDigit(d)
  {
    var q, r, s := n / 128, n / 128 / 128, n / 128 / 128 / 128;
    assert r == n / 16384 && s == n / 2097152 && s / 128 == 0;
    assert Good(1, s) == GoodDigit(d) && Good(2, r) == (GoodDigit(c) && Good(1, s));
    assert Good(3, q) == (GoodDigit(b) && Good(2, r));
  }

  const DCV: nat := 0xF4
  const NPV: nat := 0xFC
  const LPV: nat := 0xFE

  predicate Reserved(byte: nat) {
    byte == DCV || byte == LPV || byte == NPV
  }

  /** How far the loop is from wrapping. */
  function Left(n: nat): nat {
    if 0 < n < NUMBERS then NUMBERS - n else 0
  }

  /** _convert_to_mcfi_half_id_format(): the next good number becomes a half-id and is stepped over. */
  method Convert(number: nat) returns (rs: nat, next: nat)
    ensures rs == Half(4, NextGood(4, NUMBERS, number % NUMBERS))
    ensures next == NextGood(4, NUMBERS, number % NUMBERS) + 1
  {
    next := number;
    ghost var good := NextGood(4, NUMBERS, number % NUMBERS);
    while true
      invariant NextGood(4, NUMBERS, next % NUMBERS) == good
      decreases Left(next % NUMBERS)
    {
      next := next % NUMBERS;
      var a, b, c, d := next % 128, next / 128 % 128, next / 16384 % 128, next / 2097152 % 128;
      ConvertStep(next, a, b, c, d);
      a, b, c, d := 2 * a, 2 * b, 2 * c, 2 * d;
      next := next + 1;
      if !Reserved(a) && !Reserved(b) && !Reserved(c) && !Reserved(d) {
        return 16777216 * d + 65536 * c + 256 * b + a, next;
      }
    }
  }

  lemma ConvertStep(n: nat, a: nat, b: nat, c: nat, d: nat)
    requires n < NUMBERS
    requires a == n % 128 && b == n / 128 % 128 && c == n / 16384 % 128 && d == n / 2097152 % 128
    ensures Half(4, n) == 33554432 * d + 131072 * c + 512 * b + 2 * a
    ensures NextGood(4, NUMBERS, n) ==
      if Reserved(2 * a) || Reserved(2 * b) || Reserved(2 * c) || Reserved(2 * d)
      then NextGood(4, NUMBERS, (n + 1) % NUMBERS) else n
    ensures Reserved(2 * a) || Reserved(2 * b) || Reserved(2 * c) || Reserved(2 * d) ==>
      Left((n + 1) % NUMBERS) < Left(n)
  {
    HalfBytes(n, a, b, c, d);
    GoodBytes(n, a, b, c, d);
    ZeroGood(4);
    Wraps(4, NUMBERS, n + 1);
    if !Good(4, n) {
      StepLess(4, n);
    }
  }

  lemma StepLess(k: nat, n: nat)
    requires n < NUMBERS && !Good(k, n)
    ensures Left((n + 1) % NUMBERS) < Left(n)
  {
    ZeroGood(k);
    if n + 1 < NUMBERS {
      Small(n + 1, NUMBERS);
    }
  }

  lemma {:induction false} HalfInjective(k: nat, m: nat, n: nat)
    requires Good(k, m) && Good(k, n) && Half(k, m) == Half(k, n)
    ensures m == n
    decreases k
  {
    if k > 0 {
      var x, y := Half(k - 1, m / DIGIT), Half(k - 1, n / DIGIT);
      assert x * 256 + 2 * (m % DIGIT) == y * 256 + 2 * (n % DIGIT);
      assert x == y;
      HalfInjective(k - 1, m / DIGIT, n / DIGIT);
    }
  }

  // ---------- the half-ids of successive calls ----------

  lemma FourDigits()
    ensures Power(4) == HALF_IDS && DigitPower(4) - 1 == NUMBERS && Good(4, 0) && Unrank(4, 1) == 1
  {
    ZeroGood(4);
    assert Power(1) == 125 && Power(2) == 15625 && Power(3) == 1953125;
    assert DigitPower(1) == 128 && DigitPower(2) == 16384 && DigitPower(3) == 2097152;
    assert Unrank(1, 0) == 0 && Unrank(2, 0) == 0 && Unrank(3, 0) == 0;
  }

  lemma {:induction false} RankAtMod(first: nat, j: nat)
    requires first < HALF_IDS
    ensures RankAt(HALF_IDS, first, j) == (first + j) % HALF_IDS
  {
    if j > 0 {
      RankAtMod(first, j - 1);
      ModStep(first + j - 1);
    }
  }

  lemma ModStep(x: nat)
    ensures (x + 1) % HALF_IDS == NextRank(HALF_IDS, x % HALF_IDS)
  {
    var q, r := x / HALF_IDS, x % HALF_IDS;
    if r + 1 < HALF_IDS {
      ModIs(x + 1, q, r + 1);
    } else {
      ModIs(x + 1, q + 1, 0);
    }
  }

  lemma ModIs(x: nat, q: nat, r: nat)
    requires x == q * HALF_IDS + r && r < HALF_IDS
    ensures x % HALF_IDS == r
  {
  }

  lemma ModSame(x: nat, y: nat)
    requires x <= y
    ensures x % HALF_IDS == y % HALF_IDS <==> (y - x) % HALF_IDS == 0
  {
  }

  /** Two calls give one half-id exactly when a multiple of 125^4 calls lies between them. */
  lemma UsedRepeats(first: nat, j: nat, l: nat)
    requires first <= 1 && j <= l
    ensures Half(4, Used(4, NUMBERS, first, j)) == Half(4, Used(4, NUMBERS, first, l)) <==> (l - j) % HALF_IDS == 0
  {
    FourDigits();
    var x, y := Used(4, NUMBERS, first, j), Used(4, NUMBERS, first, l);
    UsedIsGood(first, j);
    UsedIsGood(first, l);
    ModSame(first + j, first + l);
    if Half(4, x) == Half(4, y) {
      HalfInjective(4, x, y);
    }
  }

  lemma UsedIsGood(first: nat, j: nat)
    requires first <= 1
    ensures Good(4, Used(4, NUMBERS, first, j)) && Rank(4, Used(4, NUMBERS, first, j)) == (first + j) % HALF_IDS
    ensures Used(4, NUMBERS, first, j) == Unrank(4, (first + j) % HALF_IDS)
  {
    FourDigits();
    UsedRank(4, NUMBERS, first, j);
    RankAtMod(first, j);
    RankAtBelow(HALF_IDS, first, j);
    UnrankGood(4, RankAt(HALF_IDS, first, j));
  }

  /** The version of generation g: the counter starts at 1. */
  function Version(g: nat): nat {
    Half(4, Used(4, NUMBERS, 1, g))
  }

  /** The half-id of class number c of a generation: that counter starts at 0. */
  function ClassId(c: nat): nat {
    Half(4, Used(4, NUMBERS, 0, c))
  }

  /** Versions repeat exactly every 125^4 generations. */
  lemma SameVersion(g: nat, h: nat)
    requires g <= h
    ensures Version(g) == Version(h) <==> (h - g) % HALF_IDS == 0
  {
    UsedRepeats(1, g, h);
  }

  lemma VersionsDiffer(g: nat, h: nat)
    requires g < h < g + HALF_IDS
    ensures Version(g) != Version(h)
  {
    SameVersion(g, h);
    Small(h - g, HALF_IDS);
  }

  lemma ClassIdsDiffer(c: nat, d: nat)
    requires c < d < HALF_IDS
    ensures ClassId(c) != ClassId(d)
  {
    UsedRepeats(0, c, d);
    Small(d - c, HALF_IDS);
  }

  /** Version 0 comes last in every round of 125^4 generations. */
  lemma ZeroVersion(g: nat)
    ensures Version(g) == 0 <==> (g + 1) % HALF_IDS == 0
  {
    UsedIsGood(1, g);
    ZeroGood(4);
    ZeroHalf(4);
    if Version(g) == 0 {
      HalfInjective(4, Used(4, NUMBERS, 1, g), 0);
    }
  }

  lemma ZeroClass(c: nat)
    requires c < HALF_IDS
    ensures ClassId(c) == 0 <==> c == 0
  {
    UsedIsGood(0, c);
    ZeroGood(4);
    ZeroHalf(4);
    Small(c, HALF_IDS);
    if ClassId(c) == 0 {
      HalfInjective(4, Used(4, NUMBERS, 0, c), 0);
    }
  }

  lemma {:induction false} ZeroHalf(k: nat)
    ensures Half(k, 0) == 0 && (Good(k, 0) ==> Rank(k, 0) == 0)
  {
    if k > 0 {
      ZeroHalf(k - 1);
    }
  }
}
