/** The two loops of qsort(): building the string of heaps, and dismantling it from the right. */
module QSort {
  import opened Leonardo
  import opened Words
  import opened Heaps
  import opened Smoothsort

  /** Orders ascend, with gaps of at least two except between the two smallest, and a heap of order
      0 stands only next to one of order 1. */
  ghost predicate Shape(os: seq<nat>) {
    && os != []
    && (forall i {:trigger os[i]} :: 1 <= i < |os| - 1 ==> os[i] + 2 <= os[i + 1])
    && (|os| >= 2 ==> os[0] < os[1])
    && (os[0] == 0 ==> |os| >= 2 && os[1] == 1)
  }

  lemma ShapeTail(os: seq<nat>)
    requires Shape(os) && |os| >= 2
    ensures Shape(os[1..]) && (|os| >= 3 ==> os[1] + 2 <= os[2])
  {
    forall i {:trigger os[1..][i]} | 1 <= i < |os[1..]| - 1 ensures os[1..][i] + 2 <= os[1..][i + 1] {
      assert os[i + 1] + 2 <= os[i + 2];
    }
  }

  lemma ShapeCons(o: nat, os: seq<nat>)
    requires Shape(os) && o < os[0] && (|os| >= 2 ==> os[0] + 2 <= os[1]) && (o == 0 ==> os[0] == 1)
    ensures Shape([o] + os)
  {
    forall i {:trigger ([o] + os)[i]} | 1 <= i < |os| ensures ([o] + os)[i] + 2 <= ([o] + os)[i + 1] {
      assert ([o] + os)[i] == os[i - 1] && ([o] + os)[i + 1] == os[i];
      if i >= 2 {
        assert os[i - 1] + 2 <= os[i];
      }
    }
  }

  /** A heap that is too large to become a left child in the rest of the array is final. */
  predicate Final(h: int, high: int, order: nat) {
    order >= 1 && L(order - 1) >= high - h
  }

  /** From each final heap on leftwards, the roots are in order. */
  ghost predicate Settled<T>(cmp: (T, T) -> int, s: seq<T>, h: int, os: seq<nat>, high: int)
    requires Fills(s, h, os)
    decreases |os|
  {
    os == [] ||
    (&& (Final(h, high, os[0]) ==> RootsOrdered(cmp, s, h, os))
     && Settled(cmp, s, Stepson(h, os), os[1..], high))
  }

  lemma {:induction false} SettledFrame<T>(cmp: (T, T) -> int, s: seq<T>, t: seq<T>, h: int, os: seq<nat>, high: int)
    requires Fills(s, h, os) && SameRange(s, t, 0, h + 1) && Settled(cmp, s, h, os, high)
    ensures Settled(cmp, t, h, os, high)
    decreases |os|
  {
    if os != [] {
      FillsTail(s, h, os);
      StringFrame(cmp, s, t, h, os);
      SettledFrame(cmp, s, t, Stepson(h, os), os[1..], high);
    }
  }

  /** Roots in order all along are settled whatever is final. */
  lemma {:induction false} OrderedSettled<T>(cmp: (T, T) -> int, s: seq<T>, h: int, os: seq<nat>, high: int)
    requires Fills(s, h, os) && RootsOrdered(cmp, s, h, os)
    ensures Settled(cmp, s, h, os, high)
    decreases |os|
  {
    if os != [] {
      FillsTail(s, h, os);
      OrderedSettled(cmp, s, Stepson(h, os), os[1..], high);
    }
  }

  /** When the rightmost heap is final, or ends the array, so are all heaps left of it. */
  lemma FinalSpreads<T>(cmp: (T, T) -> int, s: seq<T>, h: int, os: seq<nat>, high: int)
    requires Shape(os) && Fills(s, h, os) && Settled(cmp, s, Stepson(h, os), os[1..], high)
    requires h == high || (Final(h, high, os[0]) && (|os| >= 2 ==> os[0] + 2 <= os[1]))
    ensures RootsOrdered(cmp, s, Stepson(h, os), os[1..])
  {
    if |os| >= 2 {
      FillsTail(s, h, os);
      if h == high {
        Monotone(os[0], os[1] - 1);
      } else {
        Monotone(os[0] + 1, os[1] - 1);
      }
      assert Final(Stepson(h, os), high, os[1]);
    }
  }

  // ---------- building ----------

  /** At the head of the building loop: a string of heaps ends at head, whose own root may be out of place. */
  ghost predicate Building<T>(cmp: (T, T) -> int, s: seq<T>, head: int, high: int, os: seq<nat>) {
    && Shape(os) && Fills(s, head, os) && head <= high < |s|
    && TrinkleReadyFrom(cmp, s, head, os)
    && Settled(cmp, s, Stepson(head, os), os[1..], high)
  }

  ghost predicate TrinkleReadyFrom<T>(cmp: (T, T) -> int, s: seq<T>, head: int, os: seq<nat>)
    requires os != [] && Fills(s, head, os)
  {
    FillsTail(s, head, os);
    ChildrenHeaps(cmp, s, head, os[0]) && AllHeaps(cmp, s, Stepson(head, os), os[1..])
  }

  /** The same with the rightmost heap repaired. */
  ghost predicate Built<T>(cmp: (T, T) -> int, s: seq<T>, head: int, high: int, os: seq<nat>) {
    && Shape(os) && Fills(s, head, os) && head <= high < |s|
    && AllHeaps(cmp, s, head, os) && Settled(cmp, s, head, os, high)
  }

  /** The arrays at the head of the building loop, and after the repair in its body. */
  ghost function BuildStates<T(!new)>(cmp: (T, T) -> int, head: int, high: int, os: seq<nat>): iset<seq<T>> {
    iset s: seq<T> | Building(cmp, s, head, high, os)
  }

  ghost function BuiltStates<T(!new)>(cmp: (T, T) -> int, head: int, high: int, os: seq<nat>): iset<seq<T>> {
    iset s: seq<T> | Built(cmp, s, head, high, os)
  }

  lemma BuildShape<T(!new)>(cmp: (T, T) -> int, s: seq<T>, head: int, high: int, os: seq<nat>)
    requires s in BuildStates(cmp, head, high, os)
    ensures os != [] && (os[0] == 0 ==> |os| >= 2 && os[1] == 1) && (|os| >= 3 ==> os[1] + 2 <= os[2])
  {
  }

  lemma BuildStart<T(!new)>(cmp: (T, T) -> int, s: seq<T>, high: int)
    requires 0 <= high < |s|
    ensures s in BuildStates(cmp, 0, high, [1])
  {
    assert Size([1]) == 1;
  }

  /** Two heaps of consecutive orders and the next element make one heap, once the right one is sifted. */
  lemma BuildMerge<T(!new)>(cmp: (T, T) -> int, s: seq<T>, head: int, high: int, os: seq<nat>)
    requires TotalPreorder(cmp) && s in BuildStates(cmp, head, high, os) && head < high
    requires |os| >= 2 && os[1] == os[0] + 1
    ensures Fits(s, head, os[0])
    ensures Sifted(cmp, s, head, os[0]) in BuildStates(cmp, head + 1, high, [os[0] + 2] + os[2..])
  {
    FillsTail(s, head, os);
    var t, g, qs := Sifted(cmp, s, head, os[0]), Stepson(head, os), [os[0] + 2] + os[2..];
    SiftedFrame(cmp, s, head, os[0]);
    SiftedHeap(cmp, s, head, os[0]);
    FillsTail(s, g, os[1..]);
    assert os[1..][1..] == os[2..];
    StringFrame(cmp, s, t, g, os[1..]);
    SettledFrame(cmp, s, t, g, os[1..], high);
    assert L(os[0] + 2) == L(os[0] + 1) + L(os[0]) + 1;
    assert Size(os) == L(os[0]) + L(os[1]) + Size(os[2..]);
    assert qs[1..] == os[2..];
    assert Size(qs) == L(os[0] + 2) + Size(os[2..]);
    assert Stepson(head + 1, qs) == Stepson(g, os[1..]);
    MergedShape(os);
    assert Building(cmp, t, head + 1, high, qs);
  }

  lemma MergedShape(os: seq<nat>)
    requires Shape(os) && |os| >= 2 && os[1] == os[0] + 1
    ensures Shape([os[0] + 2] + os[2..])
  {
    var qs := [os[0] + 2] + os[2..];
    forall i {:trigger qs[i]} | 1 <= i < |qs| - 1 ensures qs[i] + 2 <= qs[i + 1] {
      assert qs[i] == os[i + 1] && qs[i + 1] == os[i + 2];
    }
    if |qs| >= 2 {
      assert qs[1] == os[2] && os[1] + 2 <= os[2];
    }
  }

  /** A final heap is trinkled; everything is then in order. */
  lemma BuildFinal<T(!new)>(cmp: (T, T) -> int, s: seq<T>, head: int, high: int, os: seq<nat>)
    requires TotalPreorder(cmp) && s in BuildStates(cmp, head, high, os)
    requires head == high || (Final(head, high, os[0]) && (|os| >= 2 ==> os[0] + 2 <= os[1]))
    ensures Fills(s, head, os)
    ensures var t := Trinkled(cmp, s, head, os, false);
      t in BuiltStates(cmp, head, high, os) && RootsOrdered(cmp, t, head, os)
  {
    FinalSpreads(cmp, s, head, os, high);
    TrinkledString(cmp, s, head, os, false);
    OrderedSettled(cmp, Trinkled(cmp, s, head, os, false), head, os, high);
  }

  /** A heap that is not final is only sifted. */
  lemma BuildDefer<T(!new)>(cmp: (T, T) -> int, s: seq<T>, head: int, high: int, os: seq<nat>)
    requires TotalPreorder(cmp) && s in BuildStates(cmp, head, high, os)
    requires !Final(head, high, os[0])
    ensures Fits(s, head, os[0])
    ensures Sifted(cmp, s, head, os[0]) in BuiltStates(cmp, head, high, os)
  {
    FillsTail(s, head, os);
    var t := Sifted(cmp, s, head, os[0]);
    SiftedFrame(cmp, s, head, os[0]);
    SiftedHeap(cmp, s, head, os[0]);
    StringFrame(cmp, s, t, Stepson(head, os), os[1..]);
    SettledFrame(cmp, s, t, Stepson(head, os), os[1..], high);
    assert Built(cmp, t, head, high, os);
  }

  /** The next element becomes a heap of its own, of order 0 next to one of order 1, else of order 1. */
  lemma BuildAppend<T(!new)>(cmp: (T, T) -> int, s: seq<T>, head: int, high: int, os: seq<nat>)
    requires s in BuiltStates(cmp, head, high, os) && head < high && os[0] >= 1
    requires |os| >= 2 ==> os[0] + 2 <= os[1]
    ensures s in BuildStates(cmp, head + 1, high, [if os[0] == 1 then 0 else 1] + os)
  {
    var o := if os[0] == 1 then 0 else 1;
    ShapeCons(o, os);
    assert ([o] + os)[1..] == os;
    assert Size([o] + os) == L(o) + Size(os);
    assert Building(cmp, s, head + 1, high, [o] + os);
  }

  // ---------- dismantling ----------

  ghost predicate SortedFrom<T>(cmp: (T, T) -> int, s: seq<T>, head: int, high: int) {
    high < |s| && forall i, j :: 0 <= i < j <= high && head < j ==> Le(cmp, s[i], s[j])
  }

  /** At the head of the dismantling loop: a string of heaps with ascending roots, below a sorted rest. */
  ghost predicate Dismantling<T>(cmp: (T, T) -> int, s: seq<T>, head: int, high: int, os: seq<nat>) {
    && Shape(os) && Fills(s, head, os) && head <= high
    && AllHeaps(cmp, s, head, os) && RootsOrdered(cmp, s, head, os)
    && SortedFrom(cmp, s, head, high)
  }

  ghost function DismantleStates<T(!new)>(cmp: (T, T) -> int, head: int, high: int, os: seq<nat>): iset<seq<T>> {
    iset s: seq<T> | Dismantling(cmp, s, head, high, os)
  }

  /** Trinkling the heap that ends the array leaves a string with ascending roots. */
  lemma DismantleStart<T(!new)>(cmp: (T, T) -> int, s: seq<T>, head: int, os: seq<nat>)
    requires TotalPreorder(cmp) && s in BuildStates(cmp, head, head, os)
    ensures Fills(s, head, os)
    ensures Trinkled(cmp, s, head, os, false) in DismantleStates(cmp, head, head, os)
  {
    BuildFinal(cmp, s, head, head, os);
    assert Dismantling(cmp, Trinkled(cmp, s, head, os, false), head, head, os);
  }

  lemma RootInPlace<T(!new)>(cmp: (T, T) -> int, s: seq<T>, head: int, high: int, os: seq<nat>)
    requires TotalPreorder(cmp) && Dismantling(cmp, s, head, high, os)
    ensures SortedFrom(cmp, s, head - 1, high)
  {
    forall i, j | 0 <= i < j <= high && head - 1 < j ensures Le(cmp, s[i], s[j]) {
      if j == head {
        StringMax(cmp, s, head, os, i);
      }
    }
  }

  /** A singleton on the right is in place. */
  lemma DismantleSingle<T(!new)>(cmp: (T, T) -> int, s: seq<T>, head: int, high: int, os: seq<nat>)
    requires TotalPreorder(cmp) && s in DismantleStates(cmp, head, high, os) && os[0] <= 1 && |os| >= 2
    ensures s in DismantleStates(cmp, head - 1, high, os[1..])
  {
    FillsTail(s, head, os);
    ShapeTail(os);
    RootInPlace(cmp, s, head, high, os);
    assert Dismantling(cmp, s, head - 1, high, os[1..]);
  }

  /** Permuting the part below keeps the sorted rest sorted. */
  lemma SortedPermuted<T>(cmp: (T, T) -> int, s: seq<T>, t: seq<T>, head: int, high: int)
    requires -1 <= head < |s| && SortedFrom(cmp, s, head, high) && Permuted(s, t, head + 1)
    ensures SortedFrom(cmp, t, head, high)
  {
    forall i, j | 0 <= i < j <= high && head < j ensures Le(cmp, t[i], t[j]) {
      assert t[j] == t[head + 1..][j - head - 1] == s[j];
      if i <= head {
        PermutedBound(cmp, s, t, head + 1, s[j]);
      } else {
        assert t[i] == t[head + 1..][i - head - 1] == s[i];
      }
    }
  }

  /** The orders after splitting the rightmost heap: its left child, then its right child. */
  function SplitLeft(os: seq<nat>): seq<nat>
    requires os != [] && os[0] >= 2
  {
    [os[0] - 1] + os[1..]
  }

  function SplitBoth(os: seq<nat>): seq<nat>
    requires os != [] && os[0] >= 2
  {
    [os[0] - 2] + SplitLeft(os)
  }

  lemma SplitShape(os: seq<nat>)
    requires Shape(os) && os[0] >= 2
    ensures Shape(SplitLeft(os)) && Shape(SplitBoth(os))
  {
    SplitLeftShape(os);
    ShapeCons(os[0] - 2, SplitLeft(os));
  }

  lemma SplitLeftShape(os: seq<nat>)
    requires Shape(os) && os[0] >= 2
    ensures Shape(SplitLeft(os)) && (|os| >= 2 ==> SplitLeft(os)[0] + 2 <= SplitLeft(os)[1])
  {
    var ls := SplitLeft(os);
    forall i {:trigger ls[i]} | 1 <= i < |ls| - 1 ensures ls[i] + 2 <= ls[i + 1] {
      assert ls[i] == os[i] && ls[i + 1] == os[i + 1];
    }
  }

  lemma SplitFills<T>(s: seq<T>, head: int, os: seq<nat>)
    requires os != [] && os[0] >= 2 && Fills(s, head, os)
    ensures Fills(s, LeftChild(head, os[0]), SplitLeft(os)) && Fills(s, head - 1, SplitBoth(os))
    ensures SplitLeft(os)[1..] == os[1..] && SplitBoth(os)[1..] == SplitLeft(os)
    ensures Stepson(LeftChild(head, os[0]), SplitLeft(os)) == Stepson(head, os)
    ensures Stepson(head - 1, SplitBoth(os)) == LeftChild(head, os[0])
    ensures LeftChild(head, os[0]) >= 0
  {
    FillsTail(s, head, os);
    ChildrenFit(s, head, os[0]);
    assert L(os[0]) == L(os[0] - 1) + L(os[0] - 2) + 1;
    assert SplitLeft(os)[1..] == os[1..] && SplitBoth(os)[1..] == SplitLeft(os);
  }

  /** The left child, found to be a heap, is ready to be trinkled into the string. */
  lemma SplitReadyLeft<T(!new)>(cmp: (T, T) -> int, s: seq<T>, head: int, high: int, os: seq<nat>)
    requires Dismantling(cmp, s, head, high, os) && os[0] >= 2
    requires Fills(s, LeftChild(head, os[0]), SplitLeft(os))
    ensures TrinkleReady(cmp, s, LeftChild(head, os[0]), SplitLeft(os), true)
  {
    SplitFills(s, head, os);
    FillsTail(s, head, os);
    assert ChildrenHeaps(cmp, s, head, os[0]);
  }

  /** Then the right child is. */
  lemma SplitReadyRight<T(!new)>(cmp: (T, T) -> int, s: seq<T>, t: seq<T>, head: int, high: int, os: seq<nat>)
    requires Dismantling(cmp, s, head, high, os) && os[0] >= 2
    requires Fills(t, LeftChild(head, os[0]), SplitLeft(os)) && Fills(t, head - 1, SplitBoth(os))
    requires AllHeaps(cmp, t, LeftChild(head, os[0]), SplitLeft(os))
    requires RootsOrdered(cmp, t, LeftChild(head, os[0]), SplitLeft(os))
    requires SameRange(s, t, LeftChild(head, os[0]) + 1, |s|)
    ensures TrinkleReady(cmp, t, head - 1, SplitBoth(os), true)
  {
    SplitFills(s, head, os);
    FillsTail(s, head, os);
    ChildrenFit(s, head, os[0]);
    assert ChildrenHeaps(cmp, s, head, os[0]);
    HeapFrame(cmp, s, t, RightChild(head), os[0] - 2);
  }

  lemma SplitTrinkleLeft<T(!new)>(cmp: (T, T) -> int, s: seq<T>, head: int, high: int, os: seq<nat>)
    requires TotalPreorder(cmp) && Dismantling(cmp, s, head, high, os) && os[0] >= 2
    requires Fills(s, LeftChild(head, os[0]), SplitLeft(os)) && Fills(s, head - 1, SplitBoth(os))
    ensures var t := Trinkled(cmp, s, LeftChild(head, os[0]), SplitLeft(os), true);
      0 <= head && Permuted(s, t, head) && TrinkleReady(cmp, t, head - 1, SplitBoth(os), true)
  {
    var g := LeftChild(head, os[0]);
    SplitReadyLeft(cmp, s, head, high, os);
    TrinkledFrame(cmp, s, g, SplitLeft(os), true);
    TrinkledString(cmp, s, g, SplitLeft(os), true);
    var t := Trinkled(cmp, s, g, SplitLeft(os), true);
    PermutedWider(s, t, g + 1, head);
    SplitReadyRight(cmp, s, t, head, high, os);
  }

  /** The root of a larger heap is in place, and its children are trinkled into the string. */
  lemma DismantleSplit<T(!new)>(cmp: (T, T) -> int, s: seq<T>, head: int, high: int, os: seq<nat>)
    requires TotalPreorder(cmp) && s in DismantleStates(cmp, head, high, os) && os[0] >= 2
    ensures Fills(s, LeftChild(head, os[0]), SplitLeft(os)) && Fills(s, head - 1, SplitBoth(os))
    ensures var t := Trinkled(cmp, s, LeftChild(head, os[0]), SplitLeft(os), true);
      var u := Trinkled(cmp, t, head - 1, SplitBoth(os), true);
      u in DismantleStates(cmp, head - 1, high, SplitBoth(os)) && 0 <= head && Permuted(s, u, head)
  {
    SplitFills(s, head, os);
    SplitTrinkleLeft(cmp, s, head, high, os);
    var t := Trinkled(cmp, s, LeftChild(head, os[0]), SplitLeft(os), true);
    SplitTrinkleRight(cmp, s, t, head, high, os);
    PermutedTrans(s, t, Trinkled(cmp, t, head - 1, SplitBoth(os), true), head);
  }

  lemma SplitTrinkleRight<T(!new)>(cmp: (T, T) -> int, s: seq<T>, t: seq<T>, head: int, high: int, os: seq<nat>)
    requires TotalPreorder(cmp) && Dismantling(cmp, s, head, high, os) && os[0] >= 2
    requires 0 <= head && Permuted(s, t, head)
    requires Fills(t, head - 1, SplitBoth(os)) && TrinkleReady(cmp, t, head - 1, SplitBoth(os), true)
    ensures var u := Trinkled(cmp, t, head - 1, SplitBoth(os), true);
      Dismantling(cmp, u, head - 1, high, SplitBoth(os)) && Permuted(t, u, head)
  {
    TrinkledFrame(cmp, t, head - 1, SplitBoth(os), true);
    TrinkledString(cmp, t, head - 1, SplitBoth(os), true);
    DismantleKeeps(cmp, s, t, Trinkled(cmp, t, head - 1, SplitBoth(os), true), head, high, os);
  }

  lemma DismantleKeeps<T(!new)>(cmp: (T, T) -> int, s: seq<T>, t: seq<T>, u: seq<T>, head: int, high: int, os: seq<nat>)
    requires TotalPreorder(cmp) && Dismantling(cmp, s, head, high, os) && os[0] >= 2
    requires 0 <= head && Permuted(s, t, head) && Permuted(t, u, head)
    requires Fills(u, head - 1, SplitBoth(os))
    requires AllHeaps(cmp, u, head - 1, SplitBoth(os)) && RootsOrdered(cmp, u, head - 1, SplitBoth(os))
    ensures Dismantling(cmp, u, head - 1, high, SplitBoth(os))
  {
    SplitShape(os);
    RootInPlace(cmp, s, head, high, os);
    PermutedTrans(s, t, u, head);
    SortedPermuted(cmp, s, u, head - 1, high);
  }

  lemma DismantleEnd<T(!new)>(cmp: (T, T) -> int, s: seq<T>, high: int)
    requires TotalPreorder(cmp) && s in DismantleStates(cmp, 0, high, [1])
    ensures high < |s| && Sorted(cmp, s[..high + 1])
  {
    forall i, j | 0 <= i <= j <= high ensures Le(cmp, s[i], s[j]) {
      LeTotal(cmp, s[i], s[i]);
    }
  }

  // ---------- the bit vector ----------

  lemma {:induction false} OrderFits(os: seq<nat>, i: nat)
    requires i < |os|
    ensures L(os[i]) <= Size(os)
  {
    if i > 0 {
      OrderFits(os[1..], i - 1);
    }
  }

  /** Every order in the string is below 64 and inside the filled part of lp[]. */
  lemma AllBounded(os: seq<nat>, n: nat, lp: seq<nat>)
    requires Size(os) <= n < SORT_LIMIT && Table(lp) && n <= lp[|lp| - 1]
    ensures Bounded(os, |lp|)
  {
    forall i | 0 <= i < |os| ensures os[i] < 64 && os[i] < |lp| {
      OneBounded(os, i, n, lp);
    }
  }

  lemma OneBounded(os: seq<nat>, i: nat, n: nat, lp: seq<nat>)
    requires i < |os| && Size(os) <= n < SORT_LIMIT && Table(lp) && n <= lp[|lp| - 1]
    ensures os[i] < 64 && os[i] < |lp|
  {
    OrderFits(os, i);
    OrderBelow64(os[i]);
    if os[i] > |lp| - 1 {
      Monotone(|lp| - 1, os[i]);
    }
  }

  lemma BitsGap(w: nat, s: nat)
    requires w % 2 == 1
    ensures var os := Orders(w, s);
      if w % 4 == 3 then |os| >= 2 && os[1] == s + 1 && os[2..] == Orders(w / 4, s + 2)
      else |os| >= 2 ==> os[1] >= s + 2
  {
    assert w / 2 / 2 == w / 4;
    assert Orders(w, s) == [s] + Orders(w / 2, s + 1);
    if w % 4 == 3 {
      assert Orders(w, s) == [s] + ([s + 1] + Orders(w / 4, s + 2));
    } else if |Orders(w, s)| >= 2 {
      OrdersAtLeast(w / 4, s + 2, 0);
      assert Orders(w, s)[1] == Orders(w / 4, s + 2)[0];
    }
  }

  lemma ThirdOrder(w: nat, s: nat)
    requires w % 4 == 3 && (w / 4) % 2 == 1
    ensures |Orders(w, s)| >= 3 && Orders(w, s)[1] == s + 1 && Orders(w, s)[2] == s + 2
  {
    BitsGap(w, s);
    assert Orders(w, s)[2] == Orders(w / 4, s + 2)[0];
  }

  lemma {:induction false} BitsOr1(w: nat, s: nat)
    requires w % 2 == 0
    ensures Or1(w) == w + 1 && Orders(w + 1, s) == [s] + Orders(w, s)
  {
    assert (w + 1) / 2 == w / 2;
  }

  lemma Or1Odd(q: nat)
    ensures Or1(q) % 2 == 1 && Or1(q) <= q + 1
  {
    var r := q / 2;
    assert Or1(q) == 2 * r + 1;
  }

  lemma {:induction false} RightTwo(w: nat)
    ensures Right(w, 2) == w / 4
  {
    assert Right(w, 2) == Right(w / 2, 1);
  }

  lemma {:induction false} BitsMerge(w: nat, s: nat)
    requires w % 4 == 3 && (|Orders(w, s)| >= 3 ==> Orders(w, s)[1] + 2 <= Orders(w, s)[2])
    ensures Or1(Right(w, 2)) % 2 == 1 && Or1(Right(w, 2)) <= w
    ensures |Orders(w, s)| >= 2 && Orders(Or1(Right(w, 2)), s + 2) == [s + 2] + Orders(w, s)[2..]
  {
    hide Orders, Right, Or1;
    var q := w / 4;
    BitsGap(w, s);
    RightTwo(w);
    Or1Odd(q);
    assert q + 1 <= w;
    if q % 2 == 1 {
      ThirdOrder(w, s);
    }
    BitsOr1(q, s + 2);
  }

  lemma BitsAppend(w: nat, s: nat, n: nat)
    requires 0 < n <= s && w < WORD && Room(w, n)
    ensures Or1(Left(w, n)) % 2 == 1 && Or1(Left(w, n)) < WORD
    ensures Orders(Or1(Left(w, n)), s - n) == [s - n] + Orders(w, s)
  {
    LeftOrders(w, s - n, n);
    BitsOr1(Left(w, n), s - n);
  }

  lemma LeftSmall(w: nat)
    ensures 2 * w < WORD ==> Left(w, 1) == 2 * w
    ensures 4 * w < WORD ==> Left(w, 2) == 4 * w
  {
    if 2 * w < WORD {
      InWord(2 * w);
      assert Left(w, 1) == Left(2 * w, 0);
      if 4 * w < WORD {
        InWord(4 * w);
        assert Left(w, 2) == Left(2 * w, 1) == Left(4 * w, 0);
      }
    }
  }

  /** shl(p, 2); p[0] ^= 7; shr(p, 1) replaces the last heap by its left child; shl(p, 1);
      p[0] |= 1 then adds the right child. */
  lemma BitsSplit(w: nat)
    requires w % 2 == 1 && Room(w, 2)
    ensures Left(w, 2) == 4 * w < WORD && Xor7(4 * w) == 4 * w - 1 && Right(4 * w - 1, 1) == 2 * w - 1
    ensures Room(2 * w - 1, 1) && Left(2 * w - 1, 1) == 4 * w - 2 && Or1(4 * w - 2) == 4 * w - 1
  {
    LeftSmall(w);
    LeftSmall(2 * w - 1);
    FlipLow(w, w / 2);
    assert Right(4 * w - 1, 1) == Right((4 * w - 1) / 2, 0);
  }

  lemma LowThree(x: nat, h: nat)
    requires x == 8 * h + 4
    ensures x % 8 == 4
  {
  }

  lemma LowOne(x: nat, h: nat)
    requires x == 2 * h
    ensures x % 2 == 0
  {
  }

  lemma HalfOdd(x: nat, h: nat)
    requires x == 2 * h + 1
    ensures x / 2 == h
  {
  }

  lemma FlipLow(w: nat, h: nat)
    requires w == 2 * h + 1
    ensures Xor7(4 * w) == 4 * w - 1 && (4 * w - 1) / 2 == 2 * w - 1 && Or1(4 * w - 2) == 4 * w - 1
  {
    LowThree(4 * w, h);
    LowOne(4 * w - 2, 4 * h + 1);
    HalfOdd(4 * w - 1, 4 * h + 1);
  }

  lemma BitsSplitOrders(w: nat, s: nat)
    requires w % 2 == 1 && s >= 2
    ensures Orders(w, s) != [] && Orders(w, s)[0] == s
    ensures Orders(2 * w - 1, s - 1) == SplitLeft(Orders(w, s))
    ensures Orders(4 * w - 1, s - 2) == SplitBoth(Orders(w, s))
  {
    var h := w / 2;
    assert w == 2 * h + 1;
    OddOrders(w, s);
    DoubleOrders(h, s);
    OddHalf(2 * h, s - 1);
    OddHalf(2 * (2 * h) + 1, s - 2);
  }

  lemma OddHalf(w: nat, s: nat)
    ensures Orders(2 * w + 1, s) == [s] + Orders(w, s + 1)
  {
    assert (2 * w + 1) / 2 == w;
  }

  // ---------- the sort ----------

  ghost predicate State(n: nat, lp: seq<nat>, p: Words, pshift: nat, head: int) {
    && Table(lp) && n <= lp[|lp| - 1] && n < SORT_LIMIT
    && Valid(p) && p.hi == 0 && p.lo % 2 == 1
    && 0 <= head < n && Size(Orders(p.lo, pshift)) == head + 1
  }

  lemma StateBounds(n: nat, lp: seq<nat>, p: Words, pshift: nat, head: int)
    requires State(n, lp, p, pshift, head)
    ensures Orders(p.lo, pshift) != [] && Orders(p.lo, pshift)[0] == pshift
    ensures Bounded(Orders(p.lo, pshift), |lp|) && pshift < 64 && pshift < |lp|
  {
    OddOrders(p.lo, pshift);
    AllBounded(Orders(p.lo, pshift), n, lp);
  }

  lemma StateRoom(n: nat, lp: seq<nat>, p: Words, pshift: nat, head: int, m: nat)
    requires State(n, lp, p, pshift, head) && m <= pshift
    ensures Room(p.lo, m)
  {
    StateBounds(n, lp, p, pshift, head);
    OrdersBound(p.lo, pshift, 64);
    RoomBelow(p.lo, m, pshift);
  }

  /** One round of the building loop. */
  method BuildStep<T(!new)>(a: array<T>, n: nat, cmp: (T, T) -> int, lp: seq<nat>, p: Words, pshift: nat, head: nat,
                            high: nat)
    returns (q: Words, shift: nat)
    requires TotalPreorder(cmp) && State(n, lp, p, pshift, head)
    requires head < high == n - 1 && n <= a.Length
    requires a[..] in BuildStates(cmp, head, high, Orders(p.lo, pshift))
    modifies a
    ensures State(n, lp, q, shift, head + 1)
    ensures a[..] in BuildStates(cmp, head + 1, high, Orders(q.lo, shift))
    ensures a[..] in Rearranged(old(a[..]), n)
  {
    ghost var os := Orders(p.lo, pshift);
    StateBounds(n, lp, p, pshift, head);
    BitsGap(p.lo, pshift);
    BuildShape(cmp, a[..], head, high, os);
    if p.lo % 4 == 3 {
      q, shift := Merge(a, n, cmp, lp, p, pshift, head, high);
    } else {
      Repair(a, n, cmp, lp, p, pshift, head, high);
      BuildAppend(cmp, a[..], head, high, os);
      StateRoom(n, lp, p, pshift, head, if pshift == 1 then 1 else pshift - 1);
      q, shift := AppendHeap(p, pshift);
    }
  }

  /** The two smallest heaps and the next element become one heap. */
  method Merge<T(!new)>(a: array<T>, n: nat, cmp: (T, T) -> int, lp: seq<nat>, p: Words, pshift: nat, head: nat,
                        high: nat)
    returns (q: Words, shift: nat)
    requires TotalPreorder(cmp) && State(n, lp, p, pshift, head)
    requires head < high == n - 1 && n <= a.Length && p.lo % 4 == 3
    requires a[..] in BuildStates(cmp, head, high, Orders(p.lo, pshift))
    modifies a
    ensures State(n, lp, q, shift, head + 1)
    ensures a[..] in BuildStates(cmp, head + 1, high, Orders(q.lo, shift))
    ensures a[..] in Rearranged(old(a[..]), n)
  {
    ghost var s, os := a[..], Orders(p.lo, pshift);
    StateBounds(n, lp, p, pshift, head);
    BuildShape(cmp, s, head, high, os);
    BitsMerge(p.lo, pshift);
    BitsGap(p.lo, pshift);
    BuildMerge(cmp, s, head, high, os);
    SiftedFrame(cmp, s, head, pshift);
    Sift(a, head, cmp, pshift, lp);
    PermutedFrom(s, a[..], n);
    ShrLow(p, 2);
    q, shift := Shr(p, 2), pshift + 2;
    q := Words(Or1(q.lo), q.hi);
    assert Orders(q.lo, shift) == [os[0] + 2] + os[2..];
  }

  lemma RepairFinal<T(!new)>(cmp: (T, T) -> int, s: seq<T>, head: int, high: int, os: seq<nat>, n: nat)
    requires TotalPreorder(cmp) && s in BuildStates(cmp, head, high, os) && 0 <= head < n <= |s|
    requires Final(head, high, os[0]) && (|os| >= 2 ==> os[0] + 2 <= os[1])
    ensures Fills(s, head, os) && Trinkled(cmp, s, head, os, false) in BuiltStates(cmp, head, high, os)
    ensures Trinkled(cmp, s, head, os, false) in Rearranged(s, n)
  {
    BuildFinal(cmp, s, head, high, os);
    TrinkledFrame(cmp, s, head, os, false);
    PermutedWider(s, Trinkled(cmp, s, head, os, false), head + 1, n);
  }

  lemma RepairDefer<T(!new)>(cmp: (T, T) -> int, s: seq<T>, head: int, high: int, os: seq<nat>, n: nat)
    requires TotalPreorder(cmp) && s in BuildStates(cmp, head, high, os) && 0 <= head < n <= |s|
    requires !Final(head, high, os[0])
    ensures Fits(s, head, os[0]) && Sifted(cmp, s, head, os[0]) in BuiltStates(cmp, head, high, os)
    ensures Sifted(cmp, s, head, os[0]) in Rearranged(s, n)
  {
    BuildDefer(cmp, s, head, high, os);
    SiftedFrame(cmp, s, head, os[0]);
    PermutedFrom(s, Sifted(cmp, s, head, os[0]), n);
  }

  /** A heap that the next element does not join is trinkled if it is final, else sifted. */
  method Repair<T(!new)>(a: array<T>, n: nat, cmp: (T, T) -> int, lp: seq<nat>, p: Words, pshift: nat, head: nat,
                         high: nat)
    requires TotalPreorder(cmp) && State(n, lp, p, pshift, head) && 1 <= pshift
    requires head < high == n - 1 && n <= a.Length
    requires a[..] in BuildStates(cmp, head, high, Orders(p.lo, pshift))
    requires |Orders(p.lo, pshift)| >= 2 ==> pshift + 2 <= Orders(p.lo, pshift)[1]
    modifies a
    ensures a[..] in BuiltStates(cmp, head, high, Orders(p.lo, pshift))
    ensures a[..] in Rearranged(old(a[..]), n)
  {
    ghost var s, os := a[..], Orders(p.lo, pshift);
    StateBounds(n, lp, p, pshift, head);
    FillsTail(s, head, os);
    hide Orders, BuildStates, BuiltStates, Sifted, Trinkled, Rearranged;
    if lp[pshift - 1] >= high - head {
      RepairFinal(cmp, s, head, high, os, n);
      Trinkle(a, head, cmp, p, pshift, false, lp);
    } else {
      RepairDefer(cmp, s, head, high, os, n);
      Sift(a, head, cmp, pshift, lp);
    }
  }

  method AppendHeap(p: Words, pshift: nat) returns (q: Words, shift: nat)
    requires Valid(p) && p.hi == 0 && 1 <= pshift < 64
    requires Room(p.lo, if pshift == 1 then 1 else pshift - 1)
    ensures Valid(q) && q.hi == 0 && q.lo % 2 == 1 && shift == (if pshift == 1 then 0 else 1)
    ensures Orders(q.lo, shift) == [shift] + Orders(p.lo, pshift)
  {
    if pshift == 1 {
      BitsAppend(p.lo, pshift, 1);
      ShlLow(p, 1);
      q, shift := Shl(p, 1), 0;
    } else {
      BitsAppend(p.lo, pshift, pshift - 1);
      ShlLow(p, pshift - 1);
      q, shift := Shl(p, pshift - 1), 1;
    }
    q := Words(Or1(q.lo), q.hi);
  }

  /** One round of the dismantling loop. */
  method DismantleStep<T(!new)>(a: array<T>, n: nat, cmp: (T, T) -> int, lp: seq<nat>, p: Words, pshift: nat,
                                head: nat, ghost high: nat)
    returns (q: Words, shift: nat)
    requires TotalPreorder(cmp) && State(n, lp, p, pshift, head) && n <= a.Length
    requires a[..] in DismantleStates(cmp, head, high, Orders(p.lo, pshift))
    requires pshift != 1 || p.lo != 1 || p.hi != 0
    modifies a
    ensures head >= 1 && State(n, lp, q, shift, head - 1)
    ensures a[..] in DismantleStates(cmp, head - 1, high, Orders(q.lo, shift))
    ensures a[..] in Rearranged(old(a[..]), n)
  {
    ghost var s, os := a[..], Orders(p.lo, pshift);
    StateBounds(n, lp, p, pshift, head);
    OddOrders(p.lo, pshift);
    FillsTail(s, head, os);
    if pshift <= 1 {
      DismantleSingle(cmp, s, head, high, os);
      q, shift := NextHeap(p, pshift, os);
      FillsTail(s, head - 1, os[1..]);
    } else {
      DismantleSplit(cmp, s, head, high, os);
      q, shift := SplitHeap(a, n, cmp, lp, p, pshift, head);
      PermutedWider(s, a[..], head, n);
    }
  }

  /** shl(p, 2); p[0] ^= 7; shr(p, 1): the last heap gives way to its left child. */
  method LeftChildBits(p: Words, pshift: nat) returns (q: Words)
    requires p.hi == 0 && p.lo % 2 == 1 && 2 <= pshift && Valid(p) && Room(p.lo, 2)
    requires Orders(p.lo, pshift) != [] && Orders(p.lo, pshift)[0] == pshift
    ensures q.hi == 0 && q.lo % 2 == 1 && Valid(q) && Room(q.lo, 1)
    ensures Orders(q.lo, pshift - 1) == SplitLeft(Orders(p.lo, pshift))
    ensures Orders(Or1(Left(q.lo, 1)), pshift - 2) == SplitBoth(Orders(p.lo, pshift))
    ensures Or1(Left(q.lo, 1)) % 2 == 1 && Or1(Left(q.lo, 1)) < WORD
  {
    BitsSplit(p.lo);
    BitsSplitOrders(p.lo, pshift);
    ShlLow(p, 2);
    q := Shl(p, 2);
    q := Words(Xor7(q.lo), q.hi);
    ShrLow(q, 1);
    q := Shr(q, 1);
  }

  /** The orders of p split, as State asks of them. */
  ghost predicate Splitting<T>(s: seq<T>, n: nat, lp: seq<nat>, p: Words, pshift: nat, head: int) {
    && State(n, lp, p, pshift, head) && n <= |s| && pshift >= 2 && pshift < |lp|
    && Orders(p.lo, pshift) != [] && Orders(p.lo, pshift)[0] == pshift
    && Fills(s, LeftChild(head, pshift), SplitLeft(Orders(p.lo, pshift)))
    && Fills(s, head - 1, SplitBoth(Orders(p.lo, pshift)))
  }

  method TrinkleLeftChild<T(!new)>(a: array<T>, n: nat, cmp: (T, T) -> int, lp: seq<nat>, p: Words, pshift: nat,
                                   head: nat)
    returns (q: Words)
    requires Splitting(a[..], n, lp, p, pshift, head)
    modifies a
    ensures q.hi == 0 && q.lo % 2 == 1 && Valid(q) && Room(q.lo, 1)
    ensures Orders(Or1(Left(q.lo, 1)), pshift - 2) == SplitBoth(Orders(p.lo, pshift))
    ensures Or1(Left(q.lo, 1)) % 2 == 1 && Or1(Left(q.lo, 1)) < WORD
    ensures a[..] == Trinkled(cmp, old(a[..]), LeftChild(head, pshift), SplitLeft(Orders(p.lo, pshift)), true)
  {
    ghost var os := Orders(p.lo, pshift);
    SplitFills(a[..], head, os);
    AllBounded(SplitLeft(os), n, lp);
    StateRoom(n, lp, p, pshift, head, 2);
    q := LeftChildBits(p, pshift);
    Trinkle(a, head - lp[pshift - 2] - 1, cmp, q, pshift - 1, true, lp);
  }

  method SplitHeap<T(!new)>(a: array<T>, n: nat, cmp: (T, T) -> int, lp: seq<nat>, p: Words, pshift0: nat, head: nat)
    returns (q: Words, pshift: nat)
    requires Splitting(a[..], n, lp, p, pshift0, head)
    modifies a
    ensures State(n, lp, q, pshift, head - 1) && Orders(q.lo, pshift) == SplitBoth(Orders(p.lo, pshift0))
    ensures var os := Orders(p.lo, pshift0);
      var t := Trinkled(cmp, old(a[..]), LeftChild(head, pshift0), SplitLeft(os), true);
      a[..] == Trinkled(cmp, t, head - 1, SplitBoth(os), true)
  {
    SplitFills(a[..], head, Orders(p.lo, pshift0));
    AllBounded(SplitBoth(Orders(p.lo, pshift0)), n, lp);
    q := TrinkleLeftChild(a, n, cmp, lp, p, pshift0, head);
    pshift := pshift0 - 2;
    ShlLow(q, 1);
    q := Shl(q, 1);
    q := Words(Or1(q.lo), q.hi);
    Trinkle(a, head - 1, cmp, q, pshift, true, lp);
  }

  /** The Leonardo table in units of one element. */
  method ElementTable(size: nat) returns (lp: seq<nat>)
    requires 0 < size < SORT_LIMIT
    ensures Table(lp) && size <= lp[|lp| - 1]
  {
    var table, top := LeonardoTable(1, size);
    lp := table[..top + 1];
    forall k | 0 <= k < |lp| ensures lp[k] == L(k) {
      assert lp[k] == Scaled(1, k);
    }
  }

  /** The first loop of qsort(). */
  method Build<T(!new)>(a: array<T>, n: nat, cmp: (T, T) -> int, lp: seq<nat>, p0: Words, pshift0: nat)
    returns (p: Words, pshift: nat)
    requires TotalPreorder(cmp) && 0 < n <= a.Length && State(n, lp, p0, pshift0, 0)
    requires a[..] in BuildStates(cmp, 0, n - 1, Orders(p0.lo, pshift0))
    modifies a
    ensures State(n, lp, p, pshift, n - 1)
    ensures a[..] in BuildStates(cmp, n - 1, n - 1, Orders(p.lo, pshift))
    ensures a[..] in Rearranged(old(a[..]), n)
  {
    var head, high := 0, n - 1;
    p, pshift := p0, pshift0;
    while head < high
      invariant 0 <= head <= high && a[..] in Rearranged(old(a[..]), n)
      invariant State(n, lp, p, pshift, head)
      invariant a[..] in BuildStates(cmp, head, high, Orders(p.lo, pshift))
    {
      ghost var t := a[..];
      p, pshift := BuildStep(a, n, cmp, lp, p, pshift, head, high);
      RearrangedTrans(old(a[..]), t, a[..], n);
      head := head + 1;
    }
  }

  lemma SingleOrder()
    ensures Orders(1, 1) == [1]
  {
    OddOrders(1, 1);
  }

  lemma SingleState(n: nat, lp: seq<nat>, p: Words, pshift: nat, head: int)
    requires State(n, lp, p, pshift, head) && p.lo == 1 && pshift == 1
    ensures head == 0
  {
    SingleOrder();
    assert Size([1]) == L(1) + Size([][..]);
  }

  /** The second loop of qsort(). */
  method Dismantle<T(!new)>(a: array<T>, n: nat, cmp: (T, T) -> int, lp: seq<nat>, p0: Words, pshift0: nat)
    requires TotalPreorder(cmp) && 0 < n <= a.Length && State(n, lp, p0, pshift0, n - 1)
    requires a[..] in DismantleStates(cmp, n - 1, n - 1, Orders(p0.lo, pshift0))
    modifies a
    ensures Sorted(cmp, a[..n]) && a[..] in Rearranged(old(a[..]), n)
  {
    hide Orders, State, DismantleStates, Sorted;
    var head, p, pshift := n - 1, p0, pshift0;
    while pshift != 1 || p.lo != 1 || p.hi != 0
      invariant 0 <= head < n && a[..] in Rearranged(old(a[..]), n)
      invariant State(n, lp, p, pshift, head)
      invariant a[..] in DismantleStates(cmp, head, n - 1, Orders(p.lo, pshift))
      decreases head
    {
      ghost var t := a[..];
      p, pshift := DismantleStep(a, n, cmp, lp, p, pshift, head, n - 1);
      RearrangedTrans(old(a[..]), t, a[..], n);
      head := head - 1;
    }
    SingleOrder();
    SingleState(n, lp, p, pshift, head);
    DismantleEnd(cmp, a[..], n - 1);
    assert a[..n] == a[..][..n];
  }

  /** qsort(): sorts the first nel elements, losing none and touching no other. */
  method QSort<T(!new)>(a: array<T>, nel: nat, cmp: (T, T) -> int)
    requires TotalPreorder(cmp) && nel <= a.Length && nel < SORT_LIMIT
    modifies a
    ensures Sorted(cmp, a[..nel])
    ensures multiset(a[..nel]) == multiset(old(a[..nel])) && a[nel..] == old(a[nel..])
  {
    if nel == 0 {
      return;
    }
    ghost var s := a[..];
    assert s[..nel] == a[..nel] && s[nel..] == a[nel..];
    var lp := ElementTable(nel);
    var p, pshift, head := Words(1, 0), 1, nel - 1;
    BuildStart(cmp, s, head);
    OddOrders(p.lo, pshift);
    assert Orders(p.lo, pshift) == [1];
    p, pshift := Build(a, nel, cmp, lp, p, pshift);
    StateBounds(nel, lp, p, pshift, head);
    DismantleStart(cmp, a[..], head, Orders(p.lo, pshift));
    TrinkledFrame(cmp, a[..], head, Orders(p.lo, pshift), false);
    Trinkle(a, head, cmp, p, pshift, false, lp);
    Dismantle(a, nel, cmp, lp, p, pshift);
    assert a[..nel] == a[..][..nel] && a[nel..] == a[..][nel..];
  }
}
