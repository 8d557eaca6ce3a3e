/** Leonardo heaps inside a sequence, and the two repairs smoothsort performs on them: sifting a
    root down one heap, and moving a root left along the string of heaps. */
module Heaps {
  import opened Leonardo

  predicate Le<T>(cmp: (T, T) -> int, x: T, y: T) {
    cmp(x, y) <= 0
  }

  /** What qsort asks of its comparator: the sign is antisymmetric and "at most" is transitive. */
  ghost predicate TotalPreorder<T(!new)>(cmp: (T, T) -> int) {
    && (forall x, y :: cmp(x, y) <= 0 <==> cmp(y, x) >= 0)
    && (forall x, y, z {:trigger Le(cmp, x, y), Le(cmp, y, z)} ::
          Le(cmp, x, y) && Le(cmp, y, z) ==> Le(cmp, x, z))
  }

  ghost predicate Sorted<T>(cmp: (T, T) -> int, s: seq<T>) {
    forall i, j :: 0 <= i <= j < |s| ==> Le(cmp, s[i], s[j])
  }

  lemma LeTrans<T(!new)>(cmp: (T, T) -> int, x: T, y: T, z: T)
    requires TotalPreorder(cmp) && Le(cmp, x, y) && Le(cmp, y, z)
    ensures Le(cmp, x, z)
  {
  }

  lemma LeTotal<T(!new)>(cmp: (T, T) -> int, x: T, y: T)
    requires TotalPreorder(cmp)
    ensures Le(cmp, x, y) || Le(cmp, y, x)
    ensures cmp(x, y) >= 0 <==> Le(cmp, y, x)
  {
  }

  function Swap<T>(s: seq<T>, i: nat, j: nat): (t: seq<T>)
    requires i < |s| && j < |s|
    ensures |t| == |s|
  {
    s[i := s[j]][j := s[i]]
  }

  lemma SwapMultiset<T>(s: seq<T>, i: nat, j: nat)
    requires i < |s| && j < |s|
    ensures multiset(Swap(s, i, j)) == multiset(s)
  {
  }

  /** s and t hold the same elements below n, in some order, and agree from n on. */
  ghost predicate Permuted<T>(s: seq<T>, t: seq<T>, n: nat) {
    && |s| == |t| && n <= |s|
    && multiset(s[..n]) == multiset(t[..n])
    && s[n..] == t[n..]
  }

  lemma PermutedFrom<T>(s: seq<T>, t: seq<T>, n: nat)
    requires |s| == |t| && n <= |s|
    requires multiset(s) == multiset(t)
    requires forall j :: n <= j < |s| ==> s[j] == t[j]
    ensures Permuted(s, t, n)
  {
    assert s[n..] == t[n..];
    assert s == s[..n] + s[n..] && t == t[..n] + t[n..];
    assert multiset(s[..n]) == multiset(s) - multiset(s[n..]);
    assert multiset(t[..n]) == multiset(t) - multiset(t[n..]);
  }

  lemma PermutedWider<T>(s: seq<T>, t: seq<T>, m: nat, n: nat)
    requires Permuted(s, t, m) && m <= n <= |s|
    ensures Permuted(s, t, n) && multiset(s) == multiset(t)
  {
    assert s[..n] == s[..m] + s[m..][..n - m] && t[..n] == t[..m] + t[m..][..n - m];
    assert s[n..] == s[m..][n - m..] && t[n..] == t[m..][n - m..];
    assert s == s[..n] + s[n..] && t == t[..n] + t[n..];
  }

  lemma PermutedTrans<T>(s: seq<T>, t: seq<T>, u: seq<T>, n: nat)
    requires Permuted(s, t, n) && Permuted(t, u, n)
    ensures Permuted(s, u, n)
  {
  }

  /** Everything s can become by permuting its first n elements. */
  ghost function Rearranged<T(!new)>(s: seq<T>, n: nat): iset<seq<T>> {
    iset t: seq<T> | Permuted(s, t, n)
  }

  lemma RearrangedTrans<T(!new)>(s: seq<T>, t: seq<T>, u: seq<T>, n: nat)
    requires t in Rearranged(s, n) && u in Rearranged(t, n)
    ensures u in Rearranged(s, n)
  {
  }

  /** A bound on the first n elements survives permuting them. */
  lemma PermutedBound<T>(cmp: (T, T) -> int, s: seq<T>, t: seq<T>, n: nat, y: T)
    requires Permuted(s, t, n)
    requires forall j :: 0 <= j < n ==> Le(cmp, s[j], y)
    ensures forall j :: 0 <= j < n ==> Le(cmp, t[j], y)
  {
    forall j | 0 <= j < n ensures Le(cmp, t[j], y) {
      assert t[..n][j] in multiset(t[..n]);
      assert t[j] in multiset(s[..n]);
      assert t[j] in s[..n];
    }
  }

  /** Root of the right child (order k - 2) and of the left child (order k - 1) of a heap of order
      k > 1 rooted at r. */
  function RightChild(r: int): int { r - 1 }

  function LeftChild(r: int, k: nat): int
    requires k >= 2
  {
    r - 1 - L(k - 2)
  }

  /** A Leonardo heap of order k rooted at r fits in s. */
  predicate Fits<T>(s: seq<T>, r: int, k: nat) {
    L(k) - 1 <= r < |s|
  }

  lemma ChildrenFit<T>(s: seq<T>, r: int, k: nat)
    requires k >= 2 && Fits(s, r, k)
    ensures Fits(s, RightChild(r), k - 2) && Fits(s, LeftChild(r, k), k - 1)
    ensures LeftChild(r, k) - L(k - 1) == r - L(k)
  {
  }

  ghost predicate ChildrenHeaps<T>(cmp: (T, T) -> int, s: seq<T>, r: int, k: nat)
    requires Fits(s, r, k)
    decreases k, 0
  {
    k <= 1 || (Heap(cmp, s, RightChild(r), k - 2) && Heap(cmp, s, LeftChild(r, k), k - 1))
  }

  ghost predicate RootAbove<T>(cmp: (T, T) -> int, s: seq<T>, r: int, k: nat)
    requires Fits(s, r, k)
  {
    k <= 1 || (Le(cmp, s[RightChild(r)], s[r]) && Le(cmp, s[LeftChild(r, k)], s[r]))
  }

  ghost predicate Heap<T>(cmp: (T, T) -> int, s: seq<T>, r: int, k: nat)
    requires Fits(s, r, k)
    decreases k, 1
  {
    RootAbove(cmp, s, r, k) && ChildrenHeaps(cmp, s, r, k)
  }

  ghost predicate SameRange<T>(s: seq<T>, t: seq<T>, lo: int, hi: int) {
    |s| == |t| && forall j :: 0 <= j < |s| && lo <= j < hi ==> s[j] == t[j]
  }

  /** A heap only depends on the elements it occupies. */
  lemma {:induction false} HeapFrame<T>(cmp: (T, T) -> int, s: seq<T>, t: seq<T>, r: int, k: nat)
    requires Fits(s, r, k) && SameRange(s, t, r - L(k) + 1, r + 1)
    requires Heap(cmp, s, r, k)
    ensures Heap(cmp, t, r, k)
    decreases k
  {
    if k >= 2 {
      ChildrenFit(s, r, k);
      HeapFrame(cmp, s, t, RightChild(r), k - 2);
      HeapFrame(cmp, s, t, LeftChild(r, k), k - 1);
    }
  }

  lemma ChildrenFrame<T>(cmp: (T, T) -> int, s: seq<T>, t: seq<T>, r: int, k: nat)
    requires Fits(s, r, k) && SameRange(s, t, r - L(k) + 1, r)
    requires ChildrenHeaps(cmp, s, r, k)
    ensures ChildrenHeaps(cmp, t, r, k)
  {
    if k >= 2 {
      ChildrenFit(s, r, k);
      HeapFrame(cmp, s, t, RightChild(r), k - 2);
      HeapFrame(cmp, s, t, LeftChild(r, k), k - 1);
    }
  }

  /** The root of a heap is a maximum of the heap. */
  lemma {:induction false} HeapMax<T(!new)>(cmp: (T, T) -> int, s: seq<T>, r: int, k: nat, j: int)
    requires TotalPreorder(cmp) && Fits(s, r, k) && Heap(cmp, s, r, k)
    requires r - L(k) < j <= r
    ensures Le(cmp, s[j], s[r])
    decreases k
  {
    if j == r {
      LeTotal(cmp, s[r], s[r]);
    } else if k >= 2 {
      ChildrenFit(s, r, k);
      if j <= LeftChild(r, k) {
        HeapMax(cmp, s, LeftChild(r, k), k - 1, j);
        LeTrans(cmp, s[j], s[LeftChild(r, k)], s[r]);
      } else {
        HeapMax(cmp, s, RightChild(r), k - 2, j);
        LeTrans(cmp, s[j], s[RightChild(r)], s[r]);
      }
    }
  }

  // ---------- sift ----------

  predicate SiftStops<T>(cmp: (T, T) -> int, s: seq<T>, x: T, r: int, k: nat)
    requires Fits(s, r, k)
  {
    k <= 1 || (cmp(x, s[LeftChild(r, k)]) >= 0 && cmp(x, s[RightChild(r)]) >= 0)
  }

  predicate GoesLeft<T>(cmp: (T, T) -> int, s: seq<T>, r: int, k: nat)
    requires k >= 2 && Fits(s, r, k)
  {
    cmp(s[LeftChild(r, k)], s[RightChild(r)]) >= 0
  }

  /** Sifting the root at r down its heap of order k. */
  function Sifted<T>(cmp: (T, T) -> int, s: seq<T>, r: int, k: nat): (t: seq<T>)
    requires Fits(s, r, k)
    ensures |t| == |s|
    decreases k
  {
    if SiftStops(cmp, s, s[r], r, k) then s
    else if GoesLeft(cmp, s, r, k) then Sifted(cmp, Swap(s, r, LeftChild(r, k)), LeftChild(r, k), k - 1)
    else Sifted(cmp, Swap(s, r, RightChild(r)), RightChild(r), k - 2)
  }

  ghost predicate KeptOutside<T>(s: seq<T>, t: seq<T>, lo: int, r: int) {
    multiset(t) == multiset(s) && SameRange(s, t, 0, lo) && SameRange(s, t, r + 1, |s|)
  }

  lemma KeptSame<T>(s: seq<T>, lo: int, r: int)
    ensures KeptOutside(s, s, lo, r)
  {
  }

  lemma KeptSwap<T>(s: seq<T>, t: seq<T>, lo: int, r: int, c: int, low: int)
    requires 0 <= lo <= low <= c < r < |s| && KeptOutside(Swap(s, r, c), t, low, c)
    ensures KeptOutside(s, t, lo, r)
  {
    SwapMultiset(s, r, c);
  }

  /** Sifting touches only the heap it works in and loses no element. */
  lemma {:induction false} SiftedFrame<T>(cmp: (T, T) -> int, s: seq<T>, r: int, k: nat)
    requires Fits(s, r, k)
    ensures var t := Sifted(cmp, s, r, k);
      && multiset(t) == multiset(s)
      && SameRange(s, t, 0, r - L(k) + 1) && SameRange(s, t, r + 1, |s|)
    decreases k
  {
    hide Swap, SameRange, GoesLeft;
    var lo := r - L(k) + 1;
    if SiftStops(cmp, s, s[r], r, k) {
      KeptSame(s, lo, r);
    } else {
      ChildrenFit(s, r, k);
      var c, j := if GoesLeft(cmp, s, r, k) then LeftChild(r, k) else RightChild(r),
                  if GoesLeft(cmp, s, r, k) then k - 1 else k - 2;
      SiftedFrame(cmp, Swap(s, r, c), c, j);
      KeptSwap(s, Sifted(cmp, s, r, k), lo, r, c, c - L(j) + 1);
    }
  }

  /** With both children heaps, sifting makes the whole a heap. Its new root is the old root or the
      root of a child. */
  lemma {:induction false} SiftedHeap<T(!new)>(cmp: (T, T) -> int, s: seq<T>, r: int, k: nat)
    requires TotalPreorder(cmp) && Fits(s, r, k) && ChildrenHeaps(cmp, s, r, k)
    ensures var t := Sifted(cmp, s, r, k);
      && Heap(cmp, t, r, k)
      && Le(cmp, s[r], t[r])
      && (k >= 2 ==> Le(cmp, s[RightChild(r)], t[r]) && Le(cmp, s[LeftChild(r, k)], t[r]))
      && (t[r] == s[r] || (k >= 2 && (t[r] == s[RightChild(r)] || t[r] == s[LeftChild(r, k)])))
    decreases k
  {
    LeTotal(cmp, s[r], s[r]);
    if k >= 2 {
      ChildrenFit(s, r, k);
      LeTotal(cmp, s[r], s[LeftChild(r, k)]);
      LeTotal(cmp, s[r], s[RightChild(r)]);
      LeTotal(cmp, s[LeftChild(r, k)], s[RightChild(r)]);
      LeTotal(cmp, s[LeftChild(r, k)], s[LeftChild(r, k)]);
      LeTotal(cmp, s[RightChild(r)], s[RightChild(r)]);
      if !SiftStops(cmp, s, s[r], r, k) {
        SiftedStep(cmp, s, r, k);
      }
    }
  }

  lemma SiftedTurn<T>(cmp: (T, T) -> int, s: seq<T>, r: int, k: nat)
    requires k >= 2 && Fits(s, r, k) && !SiftStops(cmp, s, s[r], r, k)
    ensures Fits(s, LeftChild(r, k), k - 1) && Fits(s, RightChild(r), k - 2)
    ensures Sifted(cmp, s, r, k) ==
      if GoesLeft(cmp, s, r, k) then Sifted(cmp, Swap(s, r, LeftChild(r, k)), LeftChild(r, k), k - 1)
      else Sifted(cmp, Swap(s, r, RightChild(r)), RightChild(r), k - 2)
  {
    ChildrenFit(s, r, k);
  }

  lemma SiftedStep<T(!new)>(cmp: (T, T) -> int, s: seq<T>, r: int, k: nat)
    requires TotalPreorder(cmp) && k >= 2 && Fits(s, r, k) && ChildrenHeaps(cmp, s, r, k)
    requires !SiftStops(cmp, s, s[r], r, k)
    ensures var t := Sifted(cmp, s, r, k);
      Heap(cmp, t, r, k) && t[r] == s[if GoesLeft(cmp, s, r, k) then LeftChild(r, k) else RightChild(r)]
    decreases k, 1
  {
    if GoesLeft(cmp, s, r, k) {
      SiftedLeft(cmp, s, r, k, LeftChild(r, k), RightChild(r));
    } else {
      SiftedRight(cmp, s, r, k, LeftChild(r, k), RightChild(r));
    }
  }

  lemma SiftedLeft<T(!new)>(cmp: (T, T) -> int, s: seq<T>, r: int, k: nat, left: int, right: int)
    requires TotalPreorder(cmp) && k >= 2 && Fits(s, r, k) && ChildrenHeaps(cmp, s, r, k)
    requires left == LeftChild(r, k) && right == RightChild(r)
    requires !SiftStops(cmp, s, s[r], r, k) && GoesLeft(cmp, s, r, k)
    ensures Heap(cmp, Sifted(cmp, s, r, k), r, k) && Sifted(cmp, s, r, k)[r] == s[left]
    decreases k, 0
  {
    ChildrenFit(s, r, k);
    LeTotal(cmp, s[r], s[left]);
    LeTotal(cmp, s[r], s[right]);
    LeTotal(cmp, s[left], s[right]);
    SiftedTurn(cmp, s, r, k);
    hide SameRange, Swap, Sifted;
    SiftedInto(cmp, s, r, left, k - 1, k);
    JoinedLeft(cmp, s, Sifted(cmp, s, r, k), r, k, left, right);
  }

  lemma SiftedRight<T(!new)>(cmp: (T, T) -> int, s: seq<T>, r: int, k: nat, left: int, right: int)
    requires TotalPreorder(cmp) && k >= 2 && Fits(s, r, k) && ChildrenHeaps(cmp, s, r, k)
    requires left == LeftChild(r, k) && right == RightChild(r)
    requires !SiftStops(cmp, s, s[r], r, k) && !GoesLeft(cmp, s, r, k)
    ensures Heap(cmp, Sifted(cmp, s, r, k), r, k) && Sifted(cmp, s, r, k)[r] == s[right]
    decreases k, 0
  {
    ChildrenFit(s, r, k);
    LeTotal(cmp, s[r], s[left]);
    LeTotal(cmp, s[r], s[right]);
    LeTotal(cmp, s[left], s[right]);
    SiftedTurn(cmp, s, r, k);
    hide SameRange, Swap, Sifted;
    SiftedInto(cmp, s, r, right, k - 2, k);
    JoinedRight(cmp, s, Sifted(cmp, s, r, k), r, k, left, right);
  }

  lemma JoinedLeft<T(!new)>(cmp: (T, T) -> int, s: seq<T>, t: seq<T>, r: int, k: nat, left: int, right: int)
    requires k >= 2 && Fits(s, r, k) && left == LeftChild(r, k) && right == RightChild(r)
    requires SameRange(s, t, left + 1, r) && Fits(s, left, k - 1) && Fits(s, right, k - 2) && Heap(cmp, s, right, k - 2)
    requires Heap(cmp, t, left, k - 1) && Le(cmp, t[left], s[left]) && Le(cmp, s[right], s[left]) && t[r] == s[left]
    ensures Heap(cmp, t, r, k)
  {
    HeapFrame(cmp, s, t, right, k - 2);
  }

  lemma JoinedRight<T(!new)>(cmp: (T, T) -> int, s: seq<T>, t: seq<T>, r: int, k: nat, left: int, right: int)
    requires k >= 2 && Fits(s, r, k) && left == LeftChild(r, k) && right == RightChild(r)
    requires SameRange(s, t, 0, left + 1) && Fits(s, left, k - 1) && Fits(s, right, k - 2) && Heap(cmp, s, left, k - 1)
    requires Heap(cmp, t, right, k - 2) && Le(cmp, t[right], s[right]) && Le(cmp, s[left], s[right]) && t[r] == s[right]
    ensures Heap(cmp, t, r, k)
  {
    HeapFrame(cmp, s, t, left, k - 1);
  }

  /** After swapping the root with child c and sifting there, c is a heap below the new root. */
  lemma SiftedInto<T(!new)>(cmp: (T, T) -> int, s: seq<T>, r: int, c: int, m: nat, k: nat)
    requires TotalPreorder(cmp) && m < k && Fits(s, c, m) && 0 <= c < r < |s|
    requires Heap(cmp, s, c, m) && Le(cmp, s[r], s[c])
    ensures var t := Sifted(cmp, Swap(s, r, c), c, m);
      && Heap(cmp, t, c, m) && Le(cmp, t[c], s[c]) && t[r] == s[c]
      && SameRange(s, t, 0, c - L(m) + 1) && SameRange(s, t, c + 1, r)
    decreases k, 0, m
  {
    var u := Swap(s, r, c);
    ChildrenFrame(cmp, s, u, c, m);
    SiftedFrame(cmp, u, c, m);
    SiftedHeap(cmp, u, c, m);
    if m >= 2 {
      ChildrenFit(s, c, m);
      HeapMax(cmp, s, c, m, LeftChild(c, m));
      HeapMax(cmp, s, c, m, RightChild(c));
    }
    LeTotal(cmp, s[c], s[c]);
    hide Sifted, Heap;
  }

  // ---------- the string of heaps ----------

  function Size(os: seq<nat>): nat {
    if os == [] then 0 else L(os[0]) + Size(os[1..])
  }

  /** The heaps of orders os, smallest order first, fill s[..h + 1] from right to left. */
  predicate Fills<T>(s: seq<T>, h: int, os: seq<nat>) {
    Size(os) == h + 1 <= |s|
  }

  /** Root of the heap to the left of the rightmost. */
  function Stepson(h: int, os: seq<nat>): int
    requires os != []
  {
    h - L(os[0])
  }

  lemma FillsTail<T>(s: seq<T>, h: int, os: seq<nat>)
    requires os != [] && Fills(s, h, os)
    ensures Fits(s, h, os[0]) && Fills(s, Stepson(h, os), os[1..])
    ensures |os| >= 2 ==> 0 <= Stepson(h, os)
  {
    if |os| >= 2 {
      assert Size(os[1..]) >= 1;
    }
  }

  ghost predicate AllHeaps<T>(cmp: (T, T) -> int, s: seq<T>, h: int, os: seq<nat>)
    requires Fills(s, h, os)
    decreases |os|
  {
    os == [] || (Heap(cmp, s, h, os[0]) && AllHeaps(cmp, s, Stepson(h, os), os[1..]))
  }

  ghost predicate RootsOrdered<T>(cmp: (T, T) -> int, s: seq<T>, h: int, os: seq<nat>)
    requires Fills(s, h, os)
    decreases |os|
  {
    |os| <= 1 ||
    (FillsTail(s, h, os);
     Le(cmp, s[Stepson(h, os)], s[h]) && RootsOrdered(cmp, s, Stepson(h, os), os[1..]))
  }

  lemma {:induction false} StringFrame<T>(cmp: (T, T) -> int, s: seq<T>, t: seq<T>, h: int, os: seq<nat>)
    requires Fills(s, h, os) && SameRange(s, t, 0, h + 1)
    ensures AllHeaps(cmp, s, h, os) ==> AllHeaps(cmp, t, h, os)
    ensures RootsOrdered(cmp, s, h, os) ==> RootsOrdered(cmp, t, h, os)
    decreases |os|
  {
    if os != [] {
      FillsTail(s, h, os);
      StringFrame(cmp, s, t, Stepson(h, os), os[1..]);
      if Heap(cmp, s, h, os[0]) {
        HeapFrame(cmp, s, t, h, os[0]);
      }
    }
  }

  /** The rightmost root is a maximum of everything in the string. */
  lemma {:induction false} StringMax<T(!new)>(cmp: (T, T) -> int, s: seq<T>, h: int, os: seq<nat>, j: int)
    requires TotalPreorder(cmp) && os != [] && Fills(s, h, os)
    requires AllHeaps(cmp, s, h, os) && RootsOrdered(cmp, s, h, os)
    requires 0 <= j <= h
    ensures Le(cmp, s[j], s[h])
    decreases |os|
  {
    FillsTail(s, h, os);
    if j > Stepson(h, os) {
      HeapMax(cmp, s, h, os[0], j);
    } else {
      assert os[1..] != [];
      StringMax(cmp, s, Stepson(h, os), os[1..], j);
      LeTrans(cmp, s[j], s[Stepson(h, os)], s[h]);
    }
  }

  // ---------- trinkle ----------

  predicate TrinkleStops<T>(cmp: (T, T) -> int, s: seq<T>, x: T, h: int, os: seq<nat>, trusty: bool)
    requires os != [] && Fills(s, h, os)
  {
    || |os| == 1
    || (FillsTail(s, h, os); cmp(s[Stepson(h, os)], x) <= 0)
    || (&& !trusty && os[0] > 1
        && (FillsTail(s, h, os);
            ChildrenFit(s, h, os[0]);
            cmp(s[RightChild(h)], s[Stepson(h, os)]) >= 0 || cmp(s[LeftChild(h, os[0])], s[Stepson(h, os)]) >= 0))
  }

  /** Moving the root at h left along the string, then down the heap where it stops. A trusty root
      is known to head its own heap. */
  function Trinkled<T>(cmp: (T, T) -> int, s: seq<T>, h: int, os: seq<nat>, trusty: bool): (t: seq<T>)
    requires os != [] && Fills(s, h, os)
    ensures |t| == |s|
    decreases |os|
  {
    FillsTail(s, h, os);
    if TrinkleStops(cmp, s, s[h], h, os, trusty) then
      if trusty then s else Sifted(cmp, s, h, os[0])
    else
      Trinkled(cmp, Swap(s, h, Stepson(h, os)), Stepson(h, os), os[1..], false)
  }

  lemma {:induction false} TrinkledKeeps<T>(cmp: (T, T) -> int, s: seq<T>, h: int, os: seq<nat>, trusty: bool)
    requires os != [] && Fills(s, h, os)
    ensures var t := Trinkled(cmp, s, h, os, trusty);
      multiset(t) == multiset(s) && SameRange(s, t, h + 1, |s|)
    decreases |os|
  {
    FillsTail(s, h, os);
    if TrinkleStops(cmp, s, s[h], h, os, trusty) {
      SiftedFrame(cmp, s, h, os[0]);
    } else {
      SwapMultiset(s, h, Stepson(h, os));
      TrinkledKeeps(cmp, Swap(s, h, Stepson(h, os)), Stepson(h, os), os[1..], false);
    }
  }

  lemma TrinkledFrame<T>(cmp: (T, T) -> int, s: seq<T>, h: int, os: seq<nat>, trusty: bool)
    requires os != [] && Fills(s, h, os)
    ensures var t := Trinkled(cmp, s, h, os, trusty);
      multiset(t) == multiset(s) && SameRange(s, t, h + 1, |s|) && Permuted(s, t, h + 1)
  {
    TrinkledKeeps(cmp, s, h, os, trusty);
    PermutedFrom(s, Trinkled(cmp, s, h, os, trusty), h + 1);
  }

  ghost predicate TrinkleReady<T>(cmp: (T, T) -> int, s: seq<T>, h: int, os: seq<nat>, trusty: bool)
    requires os != [] && Fills(s, h, os)
  {
    FillsTail(s, h, os);
    && (if trusty then Heap(cmp, s, h, os[0]) else ChildrenHeaps(cmp, s, h, os[0]))
    && AllHeaps(cmp, s, Stepson(h, os), os[1..])
    && RootsOrdered(cmp, s, Stepson(h, os), os[1..])
  }

  /** Trinkling makes the string one of heaps with ascending roots. */
  lemma {:induction false} TrinkledString<T(!new)>(cmp: (T, T) -> int, s: seq<T>, h: int, os: seq<nat>, trusty: bool)
    requires TotalPreorder(cmp) && os != [] && Fills(s, h, os) && TrinkleReady(cmp, s, h, os, trusty)
    ensures var t := Trinkled(cmp, s, h, os, trusty);
      AllHeaps(cmp, t, h, os) && RootsOrdered(cmp, t, h, os)
    decreases |os|
  {
    FillsTail(s, h, os);
    if TrinkleStops(cmp, s, s[h], h, os, trusty) {
      if !trusty {
        TrinkledHere(cmp, s, h, os);
      }
    } else {
      var u := Swap(s, h, Stepson(h, os));
      TrinkleMoves(cmp, s, h, os, trusty);
      TrinkledString(cmp, u, Stepson(h, os), os[1..], false);
      TrinkledLeft(cmp, s, h, os, trusty);
    }
  }

  lemma TrinkledHere<T(!new)>(cmp: (T, T) -> int, s: seq<T>, h: int, os: seq<nat>)
    requires TotalPreorder(cmp) && os != [] && Fills(s, h, os) && TrinkleReady(cmp, s, h, os, false)
    requires TrinkleStops(cmp, s, s[h], h, os, false)
    ensures var t := Sifted(cmp, s, h, os[0]);
      AllHeaps(cmp, t, h, os) && RootsOrdered(cmp, t, h, os)
  {
    FillsTail(s, h, os);
    var t, g, k := Sifted(cmp, s, h, os[0]), Stepson(h, os), os[0];
    SiftedFrame(cmp, s, h, k);
    SiftedHeap(cmp, s, h, k);
    StringFrame(cmp, s, t, g, os[1..]);
    if |os| >= 2 {
      if Le(cmp, s[g], s[h]) {
        LeTrans(cmp, s[g], s[h], t[h]);
      } else {
        ChildrenFit(s, h, k);
        LeTotal(cmp, s[RightChild(h)], s[g]);
        LeTotal(cmp, s[LeftChild(h, k)], s[g]);
        if Le(cmp, s[g], s[RightChild(h)]) {
          LeTrans(cmp, s[g], s[RightChild(h)], t[h]);
        } else {
          LeTrans(cmp, s[g], s[LeftChild(h, k)], t[h]);
        }
      }
    }
  }

  /** One step left: the heap at h gets a root above its children, and what remains is ready. */
  lemma TrinkleMoves<T(!new)>(cmp: (T, T) -> int, s: seq<T>, h: int, os: seq<nat>, trusty: bool)
    requires TotalPreorder(cmp) && os != [] && Fills(s, h, os) && TrinkleReady(cmp, s, h, os, trusty)
    requires !TrinkleStops(cmp, s, s[h], h, os, trusty)
    ensures 0 <= Stepson(h, os) && Fits(s, h, os[0])
    ensures var u := Swap(s, h, Stepson(h, os));
      && TrinkleReady(cmp, u, Stepson(h, os), os[1..], false)
      && Heap(cmp, u, h, os[0])
      && forall j :: 0 <= j <= Stepson(h, os) ==> Le(cmp, u[j], u[h])
  {
    FillsTail(s, h, os);
    var g, k := Stepson(h, os), os[0];
    var u := Swap(s, h, g);
    FillsTail(s, g, os[1..]);
    ChildrenFrame(cmp, s, u, g, os[1]);
    StringFrame(cmp, s, u, Stepson(g, os[1..]), os[2..]);
    ChildrenFrame(cmp, s, u, h, k);
    LeTotal(cmp, s[g], s[h]);
    if k >= 2 {
      ChildrenFit(s, h, k);
      LeTotal(cmp, s[RightChild(h)], s[g]);
      LeTotal(cmp, s[LeftChild(h, k)], s[g]);
      if trusty {
        LeTrans(cmp, s[RightChild(h)], s[h], s[g]);
        LeTrans(cmp, s[LeftChild(h, k)], s[h], s[g]);
      }
    }
    forall j | 0 <= j <= g ensures Le(cmp, u[j], u[h]) {
      StringMax(cmp, s, g, os[1..], j);
    }
  }

  lemma TrinkledLeft<T(!new)>(cmp: (T, T) -> int, s: seq<T>, h: int, os: seq<nat>, trusty: bool)
    requires TotalPreorder(cmp) && os != [] && Fills(s, h, os) && TrinkleReady(cmp, s, h, os, trusty)
    requires !TrinkleStops(cmp, s, s[h], h, os, trusty)
    requires var t := Trinkled(cmp, s, h, os, trusty);
      AllHeaps(cmp, t, Stepson(h, os), os[1..]) && RootsOrdered(cmp, t, Stepson(h, os), os[1..])
    ensures var t := Trinkled(cmp, s, h, os, trusty);
      AllHeaps(cmp, t, h, os) && RootsOrdered(cmp, t, h, os)
  {
    FillsTail(s, h, os);
    var g := Stepson(h, os);
    var u, t := Swap(s, h, g), Trinkled(cmp, s, h, os, trusty);
    TrinkleMoves(cmp, s, h, os, trusty);
    TrinkledFrame(cmp, u, g, os[1..], false);
    HeapFrame(cmp, u, t, h, os[0]);
    PermutedBound(cmp, u, t, g + 1, u[h]);
  }

  // ---------- moving a chain of elements ----------

  /** A chain of positions running strictly down from below n. */
  ghost predicate Chain(n: int, ar: seq<nat>) {
    ar != [] &&
    if |ar| == 1 then ar[0] < n
    else ar[|ar| - 1] < ar[|ar| - 2] && Chain(n, ar[..|ar| - 1])
  }

  lemma {:induction false} ChainPrefix(n: int, ar: seq<nat>, i: nat)
    requires Chain(n, ar) && i < |ar|
    ensures ar[i] < n && Chain(n, ar[..i + 1])
    decreases |ar|
  {
    if i + 1 == |ar| {
      assert ar[..i + 1] == ar;
      if i > 0 {
        ChainPrefix(n, ar[..|ar| - 1], i - 1);
      }
    } else {
      ChainPrefix(n, ar[..|ar| - 1], i);
      assert ar[..|ar| - 1][..i + 1] == ar[..i + 1];
    }
  }

  lemma {:induction false} ChainDescends(n: int, ar: seq<nat>, i: nat, j: nat)
    requires Chain(n, ar) && i < j < |ar|
    ensures ar[j] < ar[i] < n
    decreases |ar|
  {
    ChainPrefix(n, ar, i);
    if j == |ar| - 1 {
      if i < j - 1 {
        ChainDescends(n, ar[..j], i, j - 1);
      }
    } else {
      ChainDescends(n, ar[..|ar| - 1], i, j);
    }
  }

  lemma ChainExtend(n: int, ar: seq<nat>, c: nat)
    requires Chain(n, ar) && c < ar[|ar| - 1]
    ensures Chain(n, ar + [c])
  {
    var br := ar + [c];
    assert br[..|br| - 1] == ar;
  }

  /** Moving each element of the chain ar one place along it, the first to the last place. */
  ghost function Rotated<T>(s: seq<T>, ar: seq<nat>): (t: seq<T>)
    requires Chain(|s|, ar)
    ensures |t| == |s|
  {
    if |ar| == 1 then s
    else
      ChainPrefix(|s|, ar, |ar| - 2);
      ChainPrefix(|s|, ar, |ar| - 1);
      Swap(Rotated(s, ar[..|ar| - 1]), ar[|ar| - 2], ar[|ar| - 1])
  }

  lemma RotatedExtend<T>(s: seq<T>, ar: seq<nat>, c: nat)
    requires Chain(|s|, ar) && c < ar[|ar| - 1]
    ensures Chain(|s|, ar + [c]) && ar[|ar| - 1] < |s|
    ensures Rotated(s, ar + [c]) == Swap(Rotated(s, ar), ar[|ar| - 1], c)
  {
    ChainExtend(|s|, ar, c);
    ChainPrefix(|s|, ar, |ar| - 1);
    var br := ar + [c];
    assert br[..|br| - 1] == ar;
  }

  /** Below the chain nothing moves, and its end receives the element of its start. */
  lemma {:induction false} RotatedBelow<T>(s: seq<T>, ar: seq<nat>)
    requires Chain(|s|, ar)
    ensures ar[0] < |s| && ar[|ar| - 1] < |s|
    ensures SameRange(s, Rotated(s, ar), 0, ar[|ar| - 1])
    ensures Rotated(s, ar)[ar[|ar| - 1]] == s[ar[0]]
    decreases |ar|
  {
    if |ar| >= 2 {
      ChainPrefix(|s|, ar, |ar| - 2);
      RotatedBelow(s, ar[..|ar| - 1]);
    }
  }
}
