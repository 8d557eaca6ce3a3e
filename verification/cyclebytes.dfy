/** cycle() of utils.c on bytes: elements of any width move through a 256-byte temporary. */
module CycleBytes {
  const TMP_SIZE: nat := 256

  /** Byte k of block i, the block starting at at[i]. */
  function Cell(at: seq<nat>, i: int, k: int): int
    requires 0 <= i < |at|
  {
    at[i] + k
  }

  function Next(at: seq<nat>, i: int): int {
    if i + 1 < |at| then i + 1 else 0
  }

  /** Blocks of the given width that lie in memory and do not overlap. */
  ghost predicate Blocks(n: nat, at: seq<nat>, width: nat) {
    && (forall i :: 0 <= i < |at| ==> at[i] + width <= n)
    && (forall i, j :: 0 <= i < j < |at| ==> at[j] + width <= at[i])
  }

  /** The bytes lo..hi of every block have moved one block back, the rest is as it was. */
  ghost predicate Moved<B>(s: seq<B>, t: seq<B>, at: seq<nat>, width: nat, i: int, lo: int, hi: int) {
    && |t| == |s| && Blocks(|s|, at, width)
    && (forall j, k {:trigger Cell(at, j, k)} :: 0 <= j < |at| && 0 <= k < width ==>
          t[Cell(at, j, k)] ==
            if k < lo || (j < i && k < hi) then s[Cell(at, Next(at, j), k)] else s[Cell(at, j, k)])
    && (forall p ::
          0 <= p < |s| &&
          (forall j, k {:trigger Cell(at, j, k)} :: 0 <= j < |at| && 0 <= k < width ==> p != Cell(at, j, k)) ==>
          t[p] == s[p])
  }

  ghost function MovedTo<B(!new)>(s: seq<B>, at: seq<nat>, width: nat, i: int, lo: int, hi: int): iset<seq<B>> {
    iset t: seq<B> | Moved(s, t, at, width, i, lo, hi)
  }

  /** memcpy of a chunk of a block, from a part of memory it does not overlap or from the temporary. */
  method CopyChunk<B(!new)>(mem: array<B>, dst: nat, src: seq<B>)
    requires dst + |src| <= mem.Length
    modifies mem
    ensures mem[..] == old(mem[..])[..dst] + src + old(mem[..])[dst + |src|..]
  {
    ghost var t := mem[..];
    for k := 0 to |src|
      invariant mem[..] == t[..dst] + src[..k] + t[dst + k..]
    {
      mem[dst + k] := src[k];
      assert src[..k + 1] == src[..k] + [src[k]];
    }
    assert src[..|src|] == src;
  }

  lemma CellsApart(n: nat, at: seq<nat>, width: nat, i: int, j: int, k: int, lo: int, hi: int)
    requires Blocks(n, at, width) && 0 <= i < |at| && 0 <= j < |at| && i != j
    requires 0 <= lo <= hi <= width && 0 <= k < width
    ensures Cell(at, j, k) < Cell(at, i, lo) || Cell(at, i, hi) <= Cell(at, j, k)
  {
  }

  lemma Spliced<B>(t: seq<B>, src: seq<B>, u: seq<B>, a: int, b: int, p: int)
    requires 0 <= a <= b <= |t| && |src| == b - a && u == t[..a] + src + t[b..] && 0 <= p < |t|
    ensures |u| == |t| && u[p] == if a <= p < b then src[p - a] else t[p]
  {
  }

  lemma CellIs<B(!new)>(s: seq<B>, t: seq<B>, at: seq<nat>, width: nat, i: int, lo: int, hi: int, j: int, k: int)
    requires t in MovedTo(s, at, width, i, lo, hi) && 0 <= j < |at| && 0 <= k < width
    ensures |t| == |s| && Blocks(|s|, at, width) && 0 <= Cell(at, j, k) < |s| && 0 <= Cell(at, Next(at, j), k) < |s|
    ensures t[Cell(at, j, k)] == if k < lo || (j < i && k < hi) then s[Cell(at, Next(at, j), k)] else s[Cell(at, j, k)]
  {
  }

  lemma SameSize<B(!new)>(s: seq<B>, t: seq<B>, at: seq<nat>, width: nat)
    requires t in MovedTo(s, at, width, 0, width, width)
    ensures |t| == |s|
  {
  }

  lemma ChunkInside<B(!new)>(s: seq<B>, t: seq<B>, at: seq<nat>, width: nat, i: int, lo: int, hi: int)
    requires t in MovedTo(s, at, width, i, lo, hi) && 0 <= i < |at| && 0 <= lo <= hi <= width
    ensures |t| == |s| && 0 <= Cell(at, i, lo) && Cell(at, i, hi) == Cell(at, i, lo) + (hi - lo) <= |s|
    ensures 0 <= Next(at, i) < |at| && 0 <= Cell(at, Next(at, i), lo)
    ensures Cell(at, Next(at, i), hi) == Cell(at, Next(at, i), lo) + (hi - lo) <= |s|
  {
  }

  lemma MovedCell<B(!new)>(s: seq<B>, t: seq<B>, u: seq<B>, at: seq<nat>, width: nat, i: int, lo: int, hi: int,
                           src: seq<B>, j: int, k: int)
    requires t in MovedTo(s, at, width, i, lo, hi) && 0 <= i < |at| && 0 <= lo <= hi <= width && |src| == hi - lo
    requires src == s[Cell(at, Next(at, i), lo)..Cell(at, Next(at, i), hi)]
    requires u == t[..Cell(at, i, lo)] + src + t[Cell(at, i, hi)..] && 0 <= j < |at| && 0 <= k < width
    ensures 0 <= Cell(at, j, k) < |u| && Cell(at, Next(at, j), k) < |s|
    ensures u[Cell(at, j, k)] ==
      if k < lo || (j < i + 1 && k < hi) then s[Cell(at, Next(at, j), k)] else s[Cell(at, j, k)]
  {
    ChunkInside(s, t, at, width, i, lo, hi);
    CellIs(s, t, at, width, i, lo, hi, j, k);
    hide MovedTo, Moved, Blocks, Next;
    Spliced(t, src, u, Cell(at, i, lo), Cell(at, i, hi), Cell(at, j, k));
    if j != i {
      CellsApart(|s|, at, width, i, j, k, lo, hi);
    }
  }

  /** Overwriting one chunk of block i with the same chunk of the next block. */
  lemma MovedStep<B(!new)>(s: seq<B>, t: seq<B>, u: seq<B>, at: seq<nat>, width: nat, i: int, lo: int, hi: int,
                           src: seq<B>)
    requires t in MovedTo(s, at, width, i, lo, hi) && 0 <= i < |at| && 0 <= lo <= hi <= width && |src| == hi - lo
    requires src == s[Cell(at, Next(at, i), lo)..Cell(at, Next(at, i), hi)]
    requires u == t[..Cell(at, i, lo)] + src + t[Cell(at, i, hi)..]
    ensures u in MovedTo(s, at, width, i + 1, lo, hi)
  {
    forall j, k {:trigger Cell(at, j, k)} | 0 <= j < |at| && 0 <= k < width
      ensures u[Cell(at, j, k)] ==
        if k < lo || (j < i + 1 && k < hi) then s[Cell(at, Next(at, j), k)] else s[Cell(at, j, k)]
    {
      MovedCell(s, t, u, at, width, i, lo, hi, src, j, k);
    }
    forall p |
      0 <= p < |s| && (forall j, k {:trigger Cell(at, j, k)} :: 0 <= j < |at| && 0 <= k < width ==> p != Cell(at, j, k))
      ensures u[p] == s[p]
    {
      if Cell(at, i, lo) <= p < Cell(at, i, hi) {
        var c := Cell(at, i, p - at[i]);
      }
    }
    assert Moved(s, u, at, width, i + 1, lo, hi);
  }

  /** Before anything moves, and between two chunks. */
  lemma MovedStart<B(!new)>(s: seq<B>, at: seq<nat>, width: nat)
    requires Blocks(|s|, at, width)
    ensures s in MovedTo(s, at, width, 0, 0, 0)
  {
    assert Moved(s, s, at, width, 0, 0, 0);
  }

  /** A single block has nowhere to move. */
  lemma MovedAlone<B(!new)>(s: seq<B>, at: seq<nat>, width: nat)
    requires Blocks(|s|, at, width) && |at| < 2
    ensures s in MovedTo(s, at, width, 0, width, width)
  {
  }

  lemma MovedTurn<B(!new)>(s: seq<B>, t: seq<B>, at: seq<nat>, width: nat, lo: int, hi: int)
    requires lo <= hi <= width
    ensures t in MovedTo(s, at, width, 0, lo, lo) ==> t in MovedTo(s, at, width, 0, lo, hi)
    ensures t in MovedTo(s, at, width, |at|, lo, hi) ==> t in MovedTo(s, at, width, 0, hi, hi)
  {
    if t in MovedTo(s, at, width, 0, lo, lo) {
      assert Moved(s, t, at, width, 0, lo, hi);
    }
    if t in MovedTo(s, at, width, |at|, lo, hi) {
      assert Moved(s, t, at, width, 0, hi, hi);
    }
  }

  /** A chunk of a block that has not been overwritten yet. */
  lemma ChunkStays<B(!new)>(s: seq<B>, t: seq<B>, at: seq<nat>, width: nat, i: int, lo: int, hi: int, j: int, top: int)
    requires t in MovedTo(s, at, width, i, lo, hi) && 0 <= j < |at| && 0 <= lo <= top <= width
    requires i <= j || hi == lo
    ensures t[Cell(at, j, lo)..Cell(at, j, top)] == s[Cell(at, j, lo)..Cell(at, j, top)]
  {
    forall p | Cell(at, j, lo) <= p < Cell(at, j, top) ensures t[p] == s[p] {
      var c := Cell(at, j, p - at[j]);
    }
  }

  /** A whole block once everything has moved. */
  lemma BlockMoves<B(!new)>(s: seq<B>, t: seq<B>, at: seq<nat>, width: nat, j: int)
    requires t in MovedTo(s, at, width, 0, width, width) && 0 <= j < |at|
    ensures t[at[j]..at[j] + width] == s[at[Next(at, j)]..at[Next(at, j)] + width]
  {
    var x, y := t[at[j]..at[j] + width], s[at[Next(at, j)]..at[Next(at, j)] + width];
    forall k | 0 <= k < width ensures x[k] == y[k] {
      ByteMoves(s, t, at, width, j, k);
    }
  }

  lemma ByteMoves<B(!new)>(s: seq<B>, t: seq<B>, at: seq<nat>, width: nat, j: int, k: int)
    requires t in MovedTo(s, at, width, 0, width, width) && 0 <= j < |at| && 0 <= k < width
    ensures at[j] + k < |t| && at[Next(at, j)] + k < |s|
    ensures t[at[j] + k] == s[at[Next(at, j)] + k]
  {
    hide MovedTo, Moved, Blocks, Next;
    CellIs(s, t, at, width, 0, width, width, j, k);
  }

  /** One chunk of every block moves. */
  method CycleChunk<B(!new)>(mem: array<B>, width: nat, ar: seq<nat>, done: nat, l: nat, ghost s: seq<B>)
    requires Blocks(mem.Length, ar, width) && |ar| >= 2 && done + l <= width && |s| == mem.Length
    requires mem[..] in MovedTo(s, ar, width, 0, done, done)
    modifies mem
    ensures mem[..] in MovedTo(s, ar, width, 0, done + l, done + l)
  {
    var tmp := ReadChunk(mem, width, ar, 0, 0, done, l, done, s);
    MovedTurn(s, mem[..], ar, width, done, done + l);
    MoveChunks(mem, width, ar, done, l, tmp, s);
    MovedTurn(s, mem[..], ar, width, done, done + l);
  }

  /** Its inner loop. */
  method MoveChunks<B(!new)>(mem: array<B>, width: nat, ar: seq<nat>, done: nat, l: nat, tmp: seq<B>, ghost s: seq<B>)
    requires Blocks(mem.Length, ar, width) && |ar| >= 2 && done + l <= width && |s| == mem.Length
    requires tmp == s[Cell(ar, 0, done)..Cell(ar, 0, done + l)]
    requires mem[..] in MovedTo(s, ar, width, 0, done, done + l)
    modifies mem
    ensures mem[..] in MovedTo(s, ar, width, |ar|, done, done + l)
  {
    for i := 0 to |ar|
      invariant mem[..] in MovedTo(s, ar, width, i, done, done + l)
    {
      MoveChunk(mem, width, ar, i, done, l, tmp, s);
    }
  }

  method MoveChunk<B(!new)>(mem: array<B>, width: nat, ar: seq<nat>, i: nat, done: nat, l: nat, tmp: seq<B>,
                            ghost s: seq<B>)
    requires Blocks(mem.Length, ar, width) && i < |ar| && done + l <= width && |s| == mem.Length
    requires tmp == s[Cell(ar, 0, done)..Cell(ar, 0, done + l)]
    requires mem[..] in MovedTo(s, ar, width, i, done, done + l)
    modifies mem
    ensures mem[..] in MovedTo(s, ar, width, i + 1, done, done + l)
  {
    if i + 1 < |ar| {
      var src := ReadChunk(mem, width, ar, i, i + 1, done, l, done + l, s);
      WriteChunk(mem, width, ar, i, done, l, src, s);
    } else {
      WriteChunk(mem, width, ar, i, done, l, tmp, s);
    }
  }

  method ReadChunk<B(!new)>(mem: array<B>, width: nat, ar: seq<nat>, i: nat, j: nat, done: nat, l: nat, hi: nat,
                            ghost s: seq<B>)
    returns (src: seq<B>)
    requires Blocks(mem.Length, ar, width) && i <= j < |ar| && done + l <= width && |s| == mem.Length
    requires mem[..] in MovedTo(s, ar, width, i, done, hi)
    ensures src == s[Cell(ar, j, done)..Cell(ar, j, done + l)]
  {
    ChunkStays(s, mem[..], ar, width, i, done, hi, j, done + l);
    src := mem[ar[j] + done..ar[j] + done + l];
    assert src == mem[..][Cell(ar, j, done)..Cell(ar, j, done + l)];
  }

  method WriteChunk<B(!new)>(mem: array<B>, width: nat, ar: seq<nat>, i: nat, done: nat, l: nat, src: seq<B>,
                             ghost s: seq<B>)
    requires Blocks(mem.Length, ar, width) && i < |ar| && done + l <= width && |s| == mem.Length
    requires src == s[Cell(ar, Next(ar, i), done)..Cell(ar, Next(ar, i), done + l)]
    requires mem[..] in MovedTo(s, ar, width, i, done, done + l)
    modifies mem
    ensures mem[..] in MovedTo(s, ar, width, i + 1, done, done + l)
  {
    ghost var t := mem[..];
    CopyChunk(mem, ar[i] + done, src);
    MovedStep(s, t, mem[..], ar, width, i, done, done + l, src);
  }

  /** cycle(): every block moves one place along ar[], the first to the last place; no other byte changes. */
  method Cycle<B(!new)>(mem: array<B>, width: nat, ar: seq<nat>)
    requires Blocks(mem.Length, ar, width)
    modifies mem
    ensures mem[..] in MovedTo(old(mem[..]), ar, width, 0, width, width)
  {
    if |ar| < 2 {
      MovedAlone(mem[..], ar, width);
      return;
    }
    var done := 0;
    MovedStart(mem[..], ar, width);
    while done < width
      invariant 0 <= done <= width && mem[..] in MovedTo(old(mem[..]), ar, width, 0, done, done)
      decreases width - done
    {
      var l := if TMP_SIZE < width - done then TMP_SIZE else width - done;
      CycleChunk(mem, width, ar, done, l, old(mem[..]));
      done := done + l;
    }
  }

  // ---------- the same on elements ----------
}
