/** verify_jitted_code(): code is accepted when it splits into instructions and branches hit their starts. */
module JitCode {
  import opened Bytes
  import opened Options
  import opened Verifier

  /** A code heap, below four gigabytes. */
  datatype CodeHeap = CodeHeap(base: nat, sz: nat) {
    predicate Valid() {
      base + sz <= FOUR_GB
    }

    predicate Contains(target: int) {
      base <= target < base + sz
    }
  }

  function Signed8(b: Byte): int {
    if b < 128 then b else b - 256
  }

  function Signed32(b0: Byte, b1: Byte, b2: Byte, b3: Byte): int {
    var u := b0 + 256 * b1 + 65536 * b2 + 16777216 * b3;
    if u < 2147483648 then u else u - 4294967296
  }

  function Unsigned(x: int): nat {
    x % FOUR_GB
  }

  /** The chunk is long enough for the displacement its state asks for. */
  predicate Fits(v: VerifierT, data: seq<Byte>, c: Chunk) {
    c.start < c.end <= |data| && (v.Branch(c.state) ==> c.end >= if v.Short(c.state) then 1 else 4)
  }

  /** The address a direct branch goes to: its displacement is relative to the next instruction. */
  function Target(v: VerifierT, data: seq<Byte>, install: nat, c: Chunk): int
    requires Fits(v, data, c) && v.Branch(c.state)
  {
    install + c.end +
      if v.Short(c.state) then Signed8(data[c.end - 1])
      else Signed32(data[c.end - 4], data[c.end - 3], data[c.end - 2], data[c.end - 1])
  }

  predicate Aligned(addr: nat) {
    addr % 8 == 0
  }

  /** What must hold of a chunk by itself. */
  predicate ChunkOk(v: VerifierT, heap: CodeHeap, data: seq<Byte>, dataAddr: nat, install: nat, c: Chunk) {
    && Fits(v, data, c)
    && (v.Branch(c.state) ==> heap.Contains(Target(v, data, install, c)))
    && (v.NeedsAlignment(c.state) ==> Aligned(dataAddr + c.end))
  }

  /** Sound chunks of branches hold their displacement. */
  lemma SoundFits(v: VerifierT, data: seq<Byte>, c: Chunk)
    requires v.Valid() && v.BranchLengths() && Sound(v, data, c)
    ensures Fits(v, data, c) && (v.Branch(c.state) ==> c.end - c.start >= 2)
  {
    var word := data[c.start..c.end];
    assert |word| == c.end - c.start && v.Run(v.start, word) == c.state;
  }

  predicate IsStart(cs: seq<Chunk>, i: int) {
    exists c :: c in cs && c.start == i
  }

  /** A branch target outside the code must be marked in the table, one inside in tary. */
  predicate Hits(table: seq<nat>, tary: seq<nat>, install: nat, size: nat, target: int)
    requires size <= |tary| && 0 <= target < |table|
  {
    if target < install || target >= install + size then table[target] == DCV
    else tary[target - install] == DCV
  }

  /** tary with the starts of the chunks marked. */
  function Marked(tary: seq<nat>, cs: seq<Chunk>): (marked: seq<nat>)
    ensures |marked| == |tary|
  {
    seq(|tary|, i requires 0 <= i < |tary| => if IsStart(cs, i) then DCV else tary[i])
  }

  /** The code is accepted: each instruction by itself, the last one ends the code if it has to, and every
      direct branch goes to the start of an instruction. */
  ghost predicate GoodCode(v: VerifierT, heap: CodeHeap, data: seq<Byte>, dataAddr: nat, install: nat,
                           table: seq<nat>, tary: seq<nat>, checkTerminate: bool, cs: seq<Chunk>)
    requires |data| <= |tary| && heap.base + heap.sz <= |table|
  {
    && cs != [] && (checkTerminate ==> v.Terminates(cs[|cs| - 1].state))
    && (forall c :: c in cs ==> ChunkOk(v, heap, data, dataAddr, install, c))
    && (forall c :: c in cs && v.Branch(c.state) ==>
          Hits(table, Marked(tary, cs), install, |data|, Target(v, data, install, c)))
  }

  /** The recorded targets of the chunks. */
  function Targets(v: VerifierT, data: seq<Byte>, install: nat, cs: seq<Chunk>): (ts: seq<int>)
    requires forall c :: c in cs ==> Fits(v, data, c)
  {
    if cs == [] then []
    else
      var n := |cs| - 1;
      Targets(v, data, install, cs[..n]) +
        if v.Branch(cs[n].state) then [Target(v, data, install, cs[n])] else []
  }

  lemma TargetsStep(v: VerifierT, data: seq<Byte>, install: nat, cs: seq<Chunk>, c: Chunk)
    requires Fits(v, data, c) && forall c' :: c' in cs ==> Fits(v, data, c')
    ensures Targets(v, data, install, cs + [c]) == Targets(v, data, install, cs) +
      if v.Branch(c.state) then [Target(v, data, install, c)] else []
  {
    assert (cs + [c])[..|cs|] == cs;
  }

  lemma {:induction false} TargetsOf(v: VerifierT, data: seq<Byte>, install: nat, cs: seq<Chunk>, t: int)
    requires forall c :: c in cs ==> Fits(v, data, c)
    ensures t in Targets(v, data, install, cs) <==>
      exists c :: c in cs && v.Branch(c.state) && Target(v, data, install, c) == t
  {
    if cs != [] {
      var n := |cs| - 1;
      TargetsOf(v, data, install, cs[..n], t);
      assert cs == cs[..n] + [cs[n]];
    }
  }

  /** A target is recorded if it lies in the heap. */
  method Record(heap: CodeHeap, target: int, jmpTargets: array<nat>, count: nat) returns (ok: bool)
    requires heap.Valid() && count < jmpTargets.Length
    modifies jmpTargets
    ensures ok <==> heap.Contains(target)
    ensures ok ==> jmpTargets[..count + 1] == old(jmpTargets[..count]) + [target]
  {
    ok := heap.Contains(target);
    if ok {
      jmpTargets[count] := Unsigned(target);
    }
  }

  /** One instruction: its target is recorded, or its alignment checked. */
  method CheckChunk(v: VerifierT, heap: CodeHeap, data: seq<Byte>, dataAddr: nat, install: nat, c: Chunk,
                    jmpTargets: array<nat>, count: nat) returns (ok: bool, jmpCount: nat)
    requires heap.Valid() && Fits(v, data, c) && count <= jmpTargets.Length
    requires v.Branch(c.state) ==> count < jmpTargets.Length
    modifies jmpTargets
    ensures ok <==> ChunkOk(v, heap, data, dataAddr, install, c)
    ensures ok ==> jmpCount == (if v.Branch(c.state) then count + 1 else count) <= jmpTargets.Length
    ensures ok ==> (jmpTargets[..jmpCount] ==
      old(jmpTargets[..count]) + if v.Branch(c.state) then [Target(v, data, install, c)] else [])
  {
    ok, jmpCount := true, count;
    if c.state > v.maxAccept {
      if v.Short(c.state) {
        var offset := Signed8(data[c.end - 1]);
        ok := Record(heap, install + c.end + offset, jmpTargets, count);
        jmpCount := count + 1;
      } else if v.Long(c.state) {
        var offset := Signed32(data[c.end - 4], data[c.end - 3], data[c.end - 2], data[c.end - 1]);
        ok := Record(heap, install + c.end + offset, jmpTargets, count);
        jmpCount := count + 1;
      } else if c.state == v.mcficall {
        ok := Aligned(dataAddr + c.end);
      }
    }
  }

  /** The last loop: every recorded target is marked. */
  method CheckTargets(heap: CodeHeap, jmpTargets: array<nat>, jmpCount: nat, table: seq<nat>, tary: array<nat>,
                      install: nat, size: nat) returns (ok: bool)
    requires heap.Valid() && heap.base + heap.sz <= |table| && install + size <= FOUR_GB && size <= tary.Length
    requires jmpCount <= jmpTargets.Length
    requires forall i :: 0 <= i < jmpCount ==> heap.Contains(jmpTargets[i]) && jmpTargets[i] < |table|
    ensures ok <==> forall i :: 0 <= i < jmpCount ==> Hits(table, tary[..], install, size, jmpTargets[i])
  {
    var i := 0;
    ok := true;
    while i < jmpCount && ok
      invariant 0 <= i <= jmpCount
      invariant ok ==> forall j :: 0 <= j < i ==> Hits(table, tary[..], install, size, jmpTargets[j])
      invariant !ok ==> i > 0 && !Hits(table, tary[..], install, size, jmpTargets[i - 1])
      decreases jmpCount - i
    {
      var target := jmpTargets[i];
      if target < heap.base || target >= heap.base + heap.sz {
        ok := false;
      } else if target < install || target >= install + size {
        ok := table[target] == DCV;
      } else {
        ok := tary[target - install] == DCV;
      }
      i := i + 1;
    }
  }

  /** Where the main loop stands: the chunks found so far, what they left in tary and jmpTargets, and the
      chunks still to come. */
  ghost predicate Scanned(v: VerifierT, heap: CodeHeap, data: seq<Byte>, dataAddr: nat, install: nat,
                          cs: seq<Chunk>, ptr: nat, state: nat)
    requires v.Valid()
  {
    && ptr <= |data| && Chunks(v, data, 0) == Prepended(cs, Chunks(v, data, ptr))
    && (forall c :: c in cs ==> Sound(v, data, c) && ChunkOk(v, heap, data, dataAddr, install, c))
    && (if cs == [] then ptr == 0 else state == cs[|cs| - 1].state)
  }

  lemma ScanStep(v: VerifierT, heap: CodeHeap, data: seq<Byte>, dataAddr: nat, install: nat,
                 cs: seq<Chunk>, ptr: nat, state: nat)
    requires v.Valid() && v.BranchLengths() && Scanned(v, heap, data, dataAddr, install, cs, ptr, state) && ptr < |data|
    ensures var o := Verify(v, data, ptr, v.start);
      if !o.Accept? then Chunks(v, data, 0).None?
      else
        var c := Chunk(ptr, o.end, o.state);
        && Sound(v, data, c) && Fits(v, data, c) && (v.Branch(c.state) ==> c.end - c.start >= 2)
        && (ChunkOk(v, heap, data, dataAddr, install, c) ==>
            Scanned(v, heap, data, dataAddr, install, cs + [c], o.end, o.state))
        && (!ChunkOk(v, heap, data, dataAddr, install, c) && Chunks(v, data, 0).Some? ==>
            c in Chunks(v, data, 0).value)
  {
    var o := Verify(v, data, ptr, v.start);
    if o.Accept? {
      var c := Chunk(ptr, o.end, o.state);
      VerifySound(v, data, ptr, v.start);
      SoundFits(v, data, c);
      ChunksStep(v, data, ptr, cs);
    }
  }

  lemma ScanStarts(v: VerifierT, data: seq<Byte>, tary: seq<nat>)
    requires v.Valid()
    ensures Chunks(v, data, 0) == Prepended([], Chunks(v, data, 0)) && Marked(tary, []) == tary
  {
    if Chunks(v, data, 0).Some? {
      assert [] + Chunks(v, data, 0).value == Chunks(v, data, 0).value;
    }
  }

  lemma ScanEnds(cs: seq<Chunk>)
    ensures Prepended(cs, Some([])) == Some(cs)
  {
    assert cs + [] == cs;
  }

  lemma MarkedStep(tary: seq<nat>, cs: seq<Chunk>, c: Chunk)
    requires c.start < |tary|
    ensures Marked(tary, cs)[c.start := DCV] == Marked(tary, cs + [c])
  {
    forall i | 0 <= i < |tary| ensures IsStart(cs + [c], i) <==> IsStart(cs, i) || i == c.start {
      assert c in cs + [c];
    }
  }

  /** The main loop of verify_jitted_code(). */
  method ScanCode(v: VerifierT, heap: CodeHeap, data: seq<Byte>, tary: array<nat>, dataAddr: nat, install: nat,
                  jmpTargets: array<nat>) returns (ok: bool, state: nat, jmpCount: nat, ghost cs: seq<Chunk>)
    requires v.Valid() && v.BranchLengths() && heap.Valid() && |data| > 0 && tary.Length == |data|
    requires jmpTargets.Length == (|data| + 1) / 2 && jmpTargets != tary
    modifies tary, jmpTargets
    ensures ok ==> Chunks(v, data, 0) == Some(cs) && cs != [] && state == cs[|cs| - 1].state
    ensures ok ==> forall c :: c in cs ==> Fits(v, data, c) && ChunkOk(v, heap, data, dataAddr, install, c)
    ensures ok ==> tary[..] == Marked(old(tary[..]), cs)
    ensures ok ==> jmpCount <= jmpTargets.Length && jmpTargets[..jmpCount] == Targets(v, data, install, cs)
    ensures !ok && Chunks(v, data, 0).Some? ==>
      exists c :: c in Chunks(v, data, 0).value && !ChunkOk(v, heap, data, dataAddr, install, c)
  {
    var ptr: nat, endPtr: nat := 0, 0;
    ok, state, jmpCount, cs := true, 0, 0, [];
    ScanStarts(v, data, tary[..]);
    while ptr < |data| && ok
      invariant ok ==> Scanned(v, heap, data, dataAddr, install, cs, ptr, state)
      invariant ok ==> tary[..] == Marked(old(tary[..]), cs)
      invariant ok ==> 2 * jmpCount <= ptr && jmpTargets[..jmpCount] == Targets(v, data, install, cs)
      invariant !ok && Chunks(v, data, 0).Some? ==>
        exists c :: c in Chunks(v, data, 0).value && !ChunkOk(v, heap, data, dataAddr, install, c)
      decreases ok, |data| - ptr
    {
      ScanStep(v, heap, data, dataAddr, install, cs, ptr, state);
      var result;
      result, state, endPtr := VerifyChunk(v, data, ptr, v.start, state, endPtr);
      if result != 0 {
        ok := false;
      } else {
        ghost var c := Chunk(ptr, endPtr, state);
        TargetsStep(v, data, install, cs, c);
        MarkedStep(old(tary[..]), cs, c);
        tary[ptr] := DCV;
        ok, jmpCount := CheckChunk(v, heap, data, dataAddr, install, Chunk(ptr, endPtr, state), jmpTargets, jmpCount);
        cs := cs + [c];
        ptr := endPtr;
      }
    }
    if ok {
      ScanEnds(cs);
    }
  }

  /** The code is accepted exactly when it splits into instructions that are good together; tary then marks
      the starts of these instructions and nothing else. */
  method VerifyJittedCode(v: VerifierT, heap: CodeHeap, data: seq<Byte>, tary: array<nat>, dataAddr: nat,
                          install: nat, table: seq<nat>, checkTerminate: bool) returns (ok: bool)
    requires v.Valid() && v.BranchLengths() && heap.Valid() && |data| > 0 && tary.Length == |data|
    requires heap.base <= install && install + |data| <= heap.base + heap.sz <= |table|
    modifies tary
    ensures ok <==> (Chunks(v, data, 0).Some? &&
      GoodCode(v, heap, data, dataAddr, install, table, old(tary[..]), checkTerminate, Chunks(v, data, 0).value))
    ensures ok ==> tary[..] == Marked(old(tary[..]), Chunks(v, data, 0).value)
  {
    var jmpTargets := new nat[(|data| + 1) / 2];
    ghost var before := tary[..];
    var state, jmpCount;
    ghost var cs;
    ok, state, jmpCount, cs := ScanCode(v, heap, data, tary, dataAddr, install, jmpTargets);
    if ok && checkTerminate {
      ok := v.Terminates(state);
    }
    if ok {
      TargetsInHeap(v, heap, data, dataAddr, install, cs, |table|);
      assert forall i :: 0 <= i < jmpCount ==> jmpTargets[i] == jmpTargets[..jmpCount][i];
      ok := CheckTargets(heap, jmpTargets, jmpCount, table, tary, install, |data|);
      AllHit(v, heap, data, dataAddr, install, table, Marked(before, cs), cs, jmpTargets[..jmpCount]);
      assert ok <==> forall i :: 0 <= i < jmpCount ==>
        Hits(table, Marked(before, cs), install, |data|, jmpTargets[..jmpCount][i]);
    }
  }

  lemma TargetsInHeap(v: VerifierT, heap: CodeHeap, data: seq<Byte>, dataAddr: nat, install: nat,
                      cs: seq<Chunk>, limit: nat)
    requires heap.base + heap.sz <= limit
    requires forall c :: c in cs ==> Fits(v, data, c) && ChunkOk(v, heap, data, dataAddr, install, c)
    ensures forall i :: 0 <= i < |Targets(v, data, install, cs)| ==>
      heap.Contains(Targets(v, data, install, cs)[i]) && Targets(v, data, install, cs)[i] < limit
  {
    var ts := Targets(v, data, install, cs);
    forall i | 0 <= i < |ts| ensures heap.Contains(ts[i]) {
      TargetsOf(v, data, install, cs, ts[i]);
    }
  }

  /** The recorded targets are hit exactly when every branch hits. */
  lemma AllHit(v: VerifierT, heap: CodeHeap, data: seq<Byte>, dataAddr: nat, install: nat, table: seq<nat>,
               marks: seq<nat>, cs: seq<Chunk>, ts: seq<int>)
    requires heap.base + heap.sz <= |table| && |data| <= |marks|
    requires forall c :: c in cs ==> Fits(v, data, c) && ChunkOk(v, heap, data, dataAddr, install, c)
    requires ts == Targets(v, data, install, cs) && forall i :: 0 <= i < |ts| ==> 0 <= ts[i] < |table|
    ensures (forall i :: 0 <= i < |ts| ==> Hits(table, marks, install, |data|, ts[i])) <==>
      (forall c :: c in cs && v.Branch(c.state) ==>
         heap.Contains(Target(v, data, install, c)) &&
         Hits(table, marks, install, |data|, Target(v, data, install, c)))
  {
    forall c | c in cs && v.Branch(c.state) ensures Target(v, data, install, c) in ts {
      TargetsOf(v, data, install, cs, Target(v, data, install, c));
    }
    forall i | 0 <= i < |ts|
      ensures exists c :: c in cs && v.Branch(c.state) && Target(v, data, install, c) == ts[i]
    {
      TargetsOf(v, data, install, cs, ts[i]);
    }
  }

  /** What acceptance means: consecutive accepted words tile the buffer, and every direct branch in them goes
      to the start of one of them, or to a marked address outside. */
  lemma AcceptedCode(v: VerifierT, heap: CodeHeap, data: seq<Byte>, dataAddr: nat, install: nat,
                     table: seq<nat>, tary: seq<nat>, checkTerminate: bool)
    requires v.Valid() && |data| <= |tary| && heap.base + heap.sz <= |table| && Chunks(v, data, 0).Some?
    requires GoodCode(v, heap, data, dataAddr, install, table, tary, checkTerminate, Chunks(v, data, 0).value)
    requires forall i :: 0 <= i < |data| ==> tary[i] != DCV
    ensures var cs := Chunks(v, data, 0).value;
      && Tiles(v, data, cs, 0, |data|)
      && (forall i :: 0 <= i < |data| ==> (Marked(tary, cs)[i] == DCV <==> IsStart(cs, i)))
      && (forall c :: c in cs ==> Lands(v, heap, data, install, table, cs, c))
  {
    var cs := Chunks(v, data, 0).value;
    ChunksTile(v, data, 0);
    forall c | c in cs ensures Lands(v, heap, data, install, table, cs, c) {
      assert ChunkOk(v, heap, data, dataAddr, install, c);
    }
  }

  /** A branch lands on the start of an instruction, or on a marked address outside the code. */
  predicate Lands(v: VerifierT, heap: CodeHeap, data: seq<Byte>, install: nat, table: seq<nat>, cs: seq<Chunk>,
                  c: Chunk)
    requires heap.base + heap.sz <= |table|
  {
    Fits(v, data, c) && (v.Branch(c.state) ==>
      var t := Target(v, data, install, c);
      if install <= t < install + |data| then IsStart(cs, t - install) else heap.Contains(t) && table[t] == DCV)
  }
}
