/** Elements of any width back to back in memory: what cycle() of utils.c does to them. */
module ElementBytes {
  import opened Heaps
  import CycleBytes

  /** Memory holds these elements. */
  ghost predicate Stored<B>(s: seq<B>, width: nat, es: seq<seq<B>>) {
    && |s| == |es| * width
    && forall e :: 0 <= e < |es| ==> e * width + width <= |s| && s[e * width..e * width + width] == es[e]
  }

  lemma Below(d: nat, e: nat, width: nat)
    requires d < e
    ensures d * width + width <= e * width
  {
    var r := e - d - 1;
    assert e * width == d * width + width + r * width;
  }

  /** Where elements start. */
  function Offsets(ar: seq<nat>, width: nat): (at: seq<nat>)
    ensures |at| == |ar| && forall i :: 0 <= i < |ar| ==> at[i] == ar[i] * width
  {
    seq(|ar|, i requires 0 <= i < |ar| => ar[i] * width)
  }

  // ---------- what a rotation does ----------

  function After(ar: seq<nat>, i: nat): nat {
    if i + 1 < |ar| then i + 1 else 0
  }

  lemma {:induction false} RotatedMiss<T>(s: seq<T>, ar: seq<nat>, e: nat)
    requires Chain(|s|, ar) && e < |s| && e !in ar
    ensures Rotated(s, ar)[e] == s[e]
    decreases |ar|
  {
    if |ar| > 1 {
      var n := |ar| - 1;
      ChainPrefix(|s|, ar, n - 1);
      ChainPrefix(|s|, ar, n);
      assert ar[n - 1] in ar && ar[n] in ar;
      RotatedMiss(s, ar[..n], e);
    }
  }

  /** Each element of the chain takes the value of the next, the last that of the first. */
  lemma {:induction false} RotatedHit<T>(s: seq<T>, ar: seq<nat>, i: nat)
    requires Chain(|s|, ar) && i < |ar|
    ensures ar[i] < |s| && ar[After(ar, i)] < |s| && Rotated(s, ar)[ar[i]] == s[ar[After(ar, i)]]
    decreases |ar|
  {
    hide Chain, Rotated;
    ChainPrefix(|s|, ar, i);
    ChainPrefix(|s|, ar, After(ar, i));
    if |ar| == 1 {
      RotatedAlone(s, ar);
    } else {
      var n := |ar| - 1;
      var front := ar[..n];
      ChainPrefix(|s|, ar, n);
      RotatedLast(s, ar, n, front);
      if i < n - 1 {
        ChainDescends(|s|, ar, i, n - 1);
        ChainDescends(|s|, ar, i, n);
        RotatedHit(s, front, i);
      }
    }
  }

  lemma {:induction false} RotatedAlone<T>(s: seq<T>, ar: seq<nat>)
    requires Chain(|s|, ar) && |ar| == 1
    ensures Rotated(s, ar) == s
  {
  }

  /** The last two elements of the chain are swapped last. */
  lemma {:induction false} RotatedLast<T>(s: seq<T>, ar: seq<nat>, n: nat, front: seq<nat>)
    requires Chain(|s|, ar) && n == |ar| - 1 > 0 && front == ar[..n]
    ensures Chain(|s|, front) && ar[n] < ar[n - 1] < |s| && ar[0] < |s|
    ensures Rotated(s, ar)[ar[n - 1]] == s[ar[n]] && Rotated(s, ar)[ar[n]] == s[ar[0]]
    ensures forall e :: 0 <= e < |s| && e != ar[n - 1] && e != ar[n] ==> Rotated(s, ar)[e] == Rotated(s, front)[e]
  {
    ChainPrefix(|s|, ar, n - 1);
    RotatedBelow(s, front);
  }

  // ---------- bytes ----------

  lemma OffsetBlocks(count: nat, ar: seq<nat>, width: nat)
    requires Chain(count, ar)
    ensures CycleBytes.Blocks(count * width, Offsets(ar, width), width)
  {
    var at := Offsets(ar, width);
    forall i | 0 <= i < |at| ensures at[i] + width <= count * width {
      ChainPrefix(count, ar, i);
      Below(ar[i], count, width);
    }
    forall i, j | 0 <= i < j < |at| ensures at[j] + width <= at[i] {
      ChainDescends(count, ar, i, j);
      Below(ar[j], ar[i], width);
    }
  }

  /** An element that is not on the path keeps its bytes. */
  lemma {:induction false} ElementStays<B(!new)>(s: seq<B>, t: seq<B>, width: nat, count: nat, ar: seq<nat>, e: nat)
    requires |s| == count * width && Chain(count, ar) && e < count && e !in ar
    requires t in CycleBytes.MovedTo(s, Offsets(ar, width), width, 0, width, width)
    ensures e * width + width <= |s| == |t|
    ensures t[e * width..e * width + width] == s[e * width..e * width + width]
  {
    var at := Offsets(ar, width);
    Below(e, count, width);
    forall p | e * width <= p < e * width + width ensures t[p] == s[p] {
      forall j, k | 0 <= j < |at| && 0 <= k < width ensures p != CycleBytes.Cell(at, j, k) {
        assert ar[j] in ar;
        if ar[j] < e {
          Below(ar[j], e, width);
        } else {
          Below(e, ar[j], width);
        }
      }
    }
  }

  /** An element on the path takes the bytes of the next. */
  lemma {:induction false} PathMoves<B(!new)>(s: seq<B>, t: seq<B>, width: nat, es: seq<seq<B>>, ar: seq<nat>, i: nat,
                                              e: nat, next: nat)
    requires Stored(s, width, es) && i < |ar| && e == ar[i] && next == ar[After(ar, i)] < |es|
    requires t in CycleBytes.MovedTo(s, Offsets(ar, width), width, 0, width, width)
    ensures e * width + width <= |t| && t[e * width..e * width + width] == es[next]
  {
    var at := Offsets(ar, width);
    assert CycleBytes.Next(at, i) == After(ar, i) && at[i] == e * width && at[After(ar, i)] == next * width;
    CycleBytes.BlockMoves(s, t, at, width, i);
    assert s[next * width..next * width + width] == es[next];
  }

  lemma {:induction false} ElementMoves<B(!new)>(s: seq<B>, t: seq<B>, width: nat, es: seq<seq<B>>, ar: seq<nat>,
                                                 e: nat)
    requires Stored(s, width, es) && Chain(|es|, ar) && e < |es|
    requires t in CycleBytes.MovedTo(s, Offsets(ar, width), width, 0, width, width)
    ensures e * width + width <= |t| && t[e * width..e * width + width] == Rotated(es, ar)[e]
  {
    if e in ar {
      var i: nat :| i < |ar| && ar[i] == e;
      RotatedHit(es, ar, i);
      PathMoves(s, t, width, es, ar, i, e, ar[After(ar, i)]);
    } else {
      RotatedMiss(es, ar, e);
      ElementStays(s, t, width, |es|, ar, e);
    }
  }

  lemma {:induction false} AllMoved<B(!new)>(s: seq<B>, t: seq<B>, width: nat, es: seq<seq<B>>, ar: seq<nat>)
    requires Stored(s, width, es) && Chain(|es|, ar)
    requires t in CycleBytes.MovedTo(s, Offsets(ar, width), width, 0, width, width)
    ensures Stored(t, width, Rotated(es, ar))
  {
    CycleBytes.SameSize(s, t, Offsets(ar, width), width);
    hide CycleBytes.MovedTo, CycleBytes.Moved, Chain, Rotated;
    forall e | 0 <= e < |es|
      ensures e * width + width <= |t| && t[e * width..e * width + width] == Rotated(es, ar)[e]
    {
      ElementMoves(s, t, width, es, ar, e);
    }
  }

  /** cycle() at the offsets of a chain of elements rotates the elements. */
  method Cycle<B(!new)>(mem: array<B>, width: nat, ghost es: seq<seq<B>>, ar: seq<nat>)
    requires Stored(mem[..], width, es) && Chain(|es|, ar)
    modifies mem
    ensures Stored(mem[..], width, Rotated(es, ar))
  {
    hide Chain, Rotated, CycleBytes.Blocks, CycleBytes.MovedTo;
    ghost var s := mem[..];
    OffsetBlocks(|es|, ar, width);
    CycleBytes.Cycle(mem, width, Offsets(ar, width));
    AllMoved(s, mem[..], width, es, ar);
  }
}
