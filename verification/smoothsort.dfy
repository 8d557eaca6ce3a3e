/** qsort() of utils.c: smoothsort, in place. Pointers into the sorted memory are element indices;
    lp holds Leonardo numbers in units of one element. */
module Smoothsort {
  import opened Leonardo
  import opened Words
  import opened Heaps

  const AR_LENGTH: nat := 113

  /** The entries of lp[] that the loop in qsort filled, in units of one element. */
  ghost predicate Table(lp: seq<nat>) {
    3 <= |lp| <= LP_LENGTH && forall k :: 0 <= k < |lp| ==> lp[k] == L(k)
  }

  /** The element held aside belongs at the end of the part of the path done so far. */
  lemma CycleStep<T>(s: seq<T>, ar: seq<nat>, i: nat, t: seq<T>, u: seq<T>, tmp: T)
    requires Chain(|s|, ar) && i + 1 < |ar| && |t| == |s| && ar[i] < |s| && ar[i + 1] < |s|
    requires Chain(|s|, ar[..i + 1]) && t[ar[i] := tmp] == Rotated(s, ar[..i + 1]) && u == t[ar[i] := t[ar[i + 1]]]
    ensures Chain(|s|, ar[..i + 2]) && u[ar[i + 1] := tmp] == Rotated(s, ar[..i + 2])
  {
    hide Chain, Rotated, Swap;
    var front, held, c := ar[..i + 1], ar[i], ar[i + 1];
    assert ar[..i + 2] == front + [c];
    ChainDescends(|s|, ar, i, i + 1);
    RotatedExtend(s, front, c);
    SwapHeld(t, u, tmp, held, c, Rotated(s, front));
  }

  lemma SwapHeld<T>(t: seq<T>, u: seq<T>, tmp: T, i: nat, j: nat, r: seq<T>)
    requires i < |t| && j < |t| && i != j && r == t[i := tmp] && u == t[i := t[j]]
    ensures Swap(r, i, j) == u[j := tmp]
  {
  }

  /** cycle(): one place along the chain ar[0], ..., ar[n - 1], the first element going last. The slot
      after the chain, ar[n], is taken by the temporary. */
  method Cycle<T>(a: array<T>, ar: seq<nat>)
    requires |ar| < AR_LENGTH && Chain(a.Length, ar)
    modifies a
    ensures a[..] == Rotated(old(a[..]), ar)
  {
    if |ar| < 2 {
      return;
    }
    ghost var s := a[..];
    forall j | 0 <= j < |ar| ensures ar[j] < a.Length && Chain(|s|, ar[..j + 1]) {
      ChainPrefix(|s|, ar, j);
    }
    var tmp := a[ar[0]];
    assert ar[..1] == [ar[0]] && s[ar[0] := tmp] == s == Rotated(s, ar[..1]);
    assert ar[..|ar|] == ar;
    hide Chain, Rotated;
    for i := 0 to |ar|
      invariant i < |ar| ==> a[..][ar[i] := tmp] == Rotated(s, ar[..i + 1])
      invariant i == |ar| ==> a[..] == Rotated(s, ar)
    {
      ghost var t := a[..];
      if i + 1 < |ar| {
        a[ar[i]] := a[ar[i + 1]];
        assert a[..] == t[ar[i] := t[ar[i + 1]]];
        CycleStep(s, ar, i, t, a[..], tmp);
      } else {
        a[ar[i]] := tmp;
      }
    }
  }

  /** The path sift() records: ar[] so far, extended from h, a heap of order k, down to where x stays. */
  function SiftPath<T>(cmp: (T, T) -> int, s: seq<T>, x: T, ar: seq<nat>, h: int, k: nat): seq<nat>
    requires Fits(s, h, k)
    decreases k
  {
    if SiftStops(cmp, s, x, h, k) then ar
    else if GoesLeft(cmp, s, h, k) then SiftPath(cmp, s, x, ar + [LeftChild(h, k)], LeftChild(h, k), k - 1)
    else SiftPath(cmp, s, x, ar + [RightChild(h)], RightChild(h), k - 2)
  }

  /** Moving the elements along the recorded path is sifting in place. */
  lemma {:induction false} SiftPathRotates<T>(cmp: (T, T) -> int, s: seq<T>, ar: seq<nat>, h: int, k: nat)
    requires Chain(|s|, ar) && ar[|ar| - 1] == h && ar[0] < |s| && Fits(s, h, k)
    ensures var br := SiftPath(cmp, s, s[ar[0]], ar, h, k);
      Chain(|s|, br) && Rotated(s, br) == Sifted(cmp, Rotated(s, ar), h, k)
    decreases k
  {
    RotatedBelow(s, ar);
    if k >= 2 {
      ChildrenFit(s, h, k);
      if !SiftStops(cmp, s, s[ar[0]], h, k) {
        var left := GoesLeft(cmp, s, h, k);
        var c: nat, m := if left then LeftChild(h, k) else RightChild(h), if left then k - 1 else k - 2;
        RotatedExtend(s, ar, c);
        SiftPathRotates(cmp, s, ar + [c], c, m);
      }
    }
  }

  /** The loop of sift(): walks down from head and records the path in ar[]. */
  method WalkDown<T>(a: array<T>, head: nat, cmp: (T, T) -> int, pshift: nat, lp: seq<nat>) returns (ar: seq<nat>)
    requires Table(lp) && pshift < |lp| && Fits(a[..], head, pshift)
    ensures |ar| < AR_LENGTH
    ensures ar == SiftPath(cmp, a[..], a[head], [head], head, pshift)
  {
    var h: nat, k: nat := head, pshift;
    ghost var s := a[..];
    ar := [head];
    while k > 1
      invariant 1 <= |ar| && |ar| + k <= 97 && k <= pshift
      invariant ar[0] == head && Fits(s, h, k)
      invariant SiftPath(cmp, s, s[head], ar, h, k) == SiftPath(cmp, s, s[head], [head], head, pshift)
    {
      ChildrenFit(s, h, k);
      var rt := h - 1;
      var lf := h - 1 - lp[k - 2];
      if cmp(a[ar[0]], a[lf]) >= 0 && cmp(a[ar[0]], a[rt]) >= 0 {
        break;
      }
      if cmp(a[lf], a[rt]) >= 0 {
        ar := ar + [lf];
        h := lf;
        k := k - 1;
      } else {
        ar := ar + [rt];
        h := rt;
        k := k - 2;
      }
    }
  }

  /** sift() */
  method Sift<T>(a: array<T>, head: nat, cmp: (T, T) -> int, pshift: nat, lp: seq<nat>)
    requires Table(lp) && pshift < |lp| && Fits(a[..], head, pshift)
    modifies a
    ensures a[..] == Sifted(cmp, old(a[..]), head, pshift)
  {
    var ar := WalkDown(a, head, cmp, pshift, lp);
    SiftPathRotates(cmp, a[..], [head], head, pshift);
    Cycle(a, ar);
  }

  ghost predicate Bounded(os: seq<nat>, top: nat) {
    forall i :: 0 <= i < |os| ==> os[i] < 64 && os[i] < top
  }

  /** The string of heaps a bit vector describes, with the rightmost root at head. */
  ghost predicate String<T>(s: seq<T>, head: int, w: nat, pshift: nat, top: nat) {
    w % 2 == 1 && Fills(s, head, Orders(w, pshift)) && Bounded(Orders(w, pshift), top)
  }

  /** Where trinkle() stops: the path it records, and the heap and trust it stops with. */
  datatype Walk = Walk(ar: seq<nat>, h: int, os: seq<nat>, trusty: bool)

  function TrinklePath<T>(cmp: (T, T) -> int, s: seq<T>, x: T, w: Walk): (v: Walk)
    requires w.os != [] && Fills(s, w.h, w.os)
    ensures v.os != [] && Fills(s, v.h, v.os)
    decreases |w.os|
  {
    FillsTail(s, w.h, w.os);
    if TrinkleStops(cmp, s, x, w.h, w.os, w.trusty) then w
    else
      var g := Stepson(w.h, w.os);
      TrinklePath(cmp, s, x, Walk(w.ar + [g], g, w.os[1..], false))
  }

  /** Where trinkle() stops only depends on the elements below the root and on the one it moves. */
  lemma StopsAlike<T>(cmp: (T, T) -> int, s: seq<T>, t: seq<T>, x: T, h: int, os: seq<nat>, trusty: bool)
    requires os != [] && Fills(s, h, os) && SameRange(s, t, 0, h)
    ensures Fills(t, h, os) && TrinkleStops(cmp, s, x, h, os, trusty) == TrinkleStops(cmp, t, x, h, os, trusty)
  {
    FillsTail(s, h, os);
    if os[0] >= 2 {
      ChildrenFit(s, h, os[0]);
    }
  }

  /** Moving the elements along the recorded path, then sifting where it ends, is trinkling in place. */
  lemma {:induction false} TrinklePathRotates<T>(cmp: (T, T) -> int, s: seq<T>, w: Walk)
    requires w.os != [] && Fills(s, w.h, w.os)
    requires Chain(|s|, w.ar) && w.ar[|w.ar| - 1] == w.h && w.ar[0] < |s|
    ensures var v := TrinklePath(cmp, s, s[w.ar[0]], w);
      && Chain(|s|, v.ar) && Fits(s, v.h, v.os[0])
      && Trinkled(cmp, Rotated(s, w.ar), w.h, w.os, w.trusty) ==
           (if v.trusty then Rotated(s, v.ar) else Sifted(cmp, Rotated(s, v.ar), v.h, v.os[0]))
    decreases |w.os|
  {
    FillsTail(s, w.h, w.os);
    RotatedBelow(s, w.ar);
    StopsAlike(cmp, s, Rotated(s, w.ar), s[w.ar[0]], w.h, w.os, w.trusty);
    hide Chain, Rotated, SameRange, Sifted, Swap, TrinkleStops;
    if !TrinkleStops(cmp, s, s[w.ar[0]], w.h, w.os, w.trusty) {
      var g := Stepson(w.h, w.os);
      RotatedExtend(s, w.ar, g);
      TrinklePathRotates(cmp, s, Walk(w.ar + [g], g, w.os[1..], false));
    }
  }

  /** One "trail = pntz(p); shr(p, trail); pshift += trail". */
  method NextHeap(p: Words, pshift: nat, ghost os: seq<nat>) returns (q: Words, shift: nat)
    requires p.hi == 0 && p.lo % 2 == 1 && p.lo > 1
    requires os == Orders(p.lo, pshift) && forall i :: 0 <= i < |os| ==> os[i] < 64
    ensures q.hi == 0 && q.lo % 2 == 1 && q.lo < p.lo
    ensures |os| >= 2 && Orders(q.lo, shift) == os[1..]
  {
    OddOrders(p.lo, pshift);
    DropLast(p.lo, pshift);
    TrailBound(p.lo, pshift);
    var trail := Pntz(p);
    ShrLow(p, trail);
    q := Shr(p, trail);
    shift := pshift + trail;
  }

  /** The two tests of trinkle() that end its loop. */
  method StopsHere<T>(a: array<T>, x: T, cmp: (T, T) -> int, h: nat, ghost os: seq<nat>, pshift: nat, trusty: bool,
                      lp: seq<nat>)
    returns (stop: bool)
    requires Table(lp) && |os| >= 2 && Fills(a[..], h, os) && pshift == os[0] < |lp|
    ensures stop == TrinkleStops(cmp, a[..], x, h, os, trusty)
  {
    FillsTail(a[..], h, os);
    var stepson := h - lp[pshift];
    if cmp(a[stepson], x) <= 0 {
      return true;
    }
    if !trusty && pshift > 1 {
      ChildrenFit(a[..], h, pshift);
      var rt := h - 1;
      var lf := h - 1 - lp[pshift - 2];
      return cmp(a[rt], a[stepson]) >= 0 || cmp(a[lf], a[stepson]) >= 0;
    }
    return false;
  }

  /** The loop of trinkle(): walks left along the roots and records the path in ar[]. */
  method WalkLeft<T>(a: array<T>, head: nat, cmp: (T, T) -> int, pp: Words, pshift0: nat, trusty0: bool, lp: seq<nat>)
    returns (ar: seq<nat>, h: nat, pshift: nat, trusty: bool)
    requires Table(lp) && pp.hi == 0 && String(a[..], head, pp.lo, pshift0, |lp|)
    requires Orders(pp.lo, pshift0) != []
    ensures |ar| < AR_LENGTH && pshift < |lp|
    ensures var v := TrinklePath(cmp, a[..], a[head], Walk([head], head, Orders(pp.lo, pshift0), trusty0));
      v.ar == ar && v.h == h && v.os[0] == pshift && v.trusty == trusty
    ensures trusty ==> ar == [head]
  {
    ar, h, pshift, trusty := [head], head, pshift0, trusty0;
    var p := pp;
    ghost var s, os := a[..], Orders(pp.lo, pshift0);
    ghost var start := Walk([head], head, os, trusty);
    OrdersBound(p.lo, pshift, 64);
    while p.lo != 1 || p.hi != 0
      invariant 1 <= |ar| && |ar| + |os| <= 65 && p.hi == 0 && ar[0] == head
      invariant trusty ==> ar == [head]
      invariant p.lo % 2 == 1 && os == Orders(p.lo, pshift) != [] && Fills(s, h, os) && Bounded(os, |lp|)
      invariant TrinklePath(cmp, s, s[head], Walk(ar, h, os, trusty)) == TrinklePath(cmp, s, s[head], start)
      decreases p.lo
    {
      OddOrders(p.lo, pshift);
      FillsTail(s, h, os);
      var stop := StopsHere(a, a[ar[0]], cmp, h, os, pshift, trusty, lp);
      if stop {
        break;
      }
      var stepson := h - lp[pshift];
      ghost var next := Walk(ar + [stepson], stepson, os[1..], false);
      assert TrinklePath(cmp, s, s[head], Walk(ar, h, os, trusty)) == TrinklePath(cmp, s, s[head], next);
      ar := ar + [stepson];
      h := stepson;
      p, pshift := NextHeap(p, pshift, os);
      trusty := false;
      os := os[1..];
      assert Walk(ar, h, os, trusty) == next;
    }
    OddOrders(p.lo, pshift);
  }

  /** trinkle() */
  method Trinkle<T>(a: array<T>, head: nat, cmp: (T, T) -> int, p: Words, pshift: nat, trusty: bool, lp: seq<nat>)
    requires Table(lp) && p.hi == 0 && String(a[..], head, p.lo, pshift, |lp|)
    requires Orders(p.lo, pshift) != []
    modifies a
    ensures a[..] == Trinkled(cmp, old(a[..]), head, Orders(p.lo, pshift), trusty)
  {
    var ar, h, shift, trust := WalkLeft(a, head, cmp, p, pshift, trusty, lp);
    TrinklePathRotates(cmp, a[..], Walk([head], head, Orders(p.lo, pshift), trusty));
    if !trust {
      Cycle(a, ar);
      Sift(a, h, cmp, shift, lp);
    }
  }

  lemma TrailBound(w: nat, s: nat)
    requires w % 2 == 1 && w > 1
    requires forall i :: 0 <= i < |Orders(w, s)| ==> Orders(w, s)[i] < 64
    ensures 0 < Ctz(w - 1) < 64
  {
    DropLast(w, s);
    var t := Ctz(w - 1);
    SomeOrder(Right(w, t), s + t);
    OrdersAtLeast(Right(w, t), s + t, 0);
    assert Orders(w, s)[1] == Orders(Right(w, t), s + t)[0];
  }
}
