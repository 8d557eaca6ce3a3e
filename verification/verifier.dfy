/** The DFA matcher of the JIT-code verifier, and the split of a code buffer it induces. */
module Verifier {
  import opened Bytes
  import opened Options

  const DCV: nat := 0xF4
  const FOUR_GB: nat := 0x1_0000_0000

  /** struct verifier_t: state 0 rejects, states up to maxAccept accept plain instructions, those up to start
      accept others, and the rest are in the middle of an instruction. */
  datatype VerifierT = VerifierT(
    dfa: seq<nat>, states: nat, start: nat, dcall: nat, icall: nat, ijmp: nat, jmpRel1: nat, jmpRel4: nat,
    jccRel1: nat, jccRel4: nat, mcficall: nat, mcficheck: nat, mcfiret: nat, terminator: nat, maxAccept: nat)
  {
    ghost predicate Valid() {
      && |dfa| == 256 * states && maxAccept < start < states
      && forall i :: 0 <= i < |dfa| ==> dfa[i] < states
    }

    function Lookup(state: nat, byte: Byte): (next: nat)
      requires Valid() && state < states
      ensures next < states
    {
      dfa[state * 256 + byte]
    }

    predicate Accepts(state: nat) {
      state <= maxAccept && state > 0
    }

    predicate AcceptsOthers(state: nat) {
      state > maxAccept && state < start
    }

    predicate Accepting(state: nat) {
      Accepts(state) || AcceptsOthers(state)
    }

    /** The state a word leads to. */
    function Run(state: nat, word: seq<Byte>): (last: nat)
      requires Valid() && state < states
      ensures last < states
      decreases |word|
    {
      if word == [] then state else Run(Lookup(state, word[0]), word[1..])
    }

    /** terminator() */
    predicate Terminates(state: nat) {
      state == terminator || state == dcall || state == icall || state == ijmp || state == jmpRel1
      || state == jmpRel4 || state == mcficall || state == mcficheck || state == mcfiret
    }

    predicate Short(state: nat) {
      state == jmpRel1 || state == jccRel1
    }

    predicate Long(state: nat) {
      state == jmpRel4 || state == jccRel4 || state == dcall
    }

    /** Direct branches, whose targets are recorded. */
    predicate Branch(state: nat) {
      state > maxAccept && (Short(state) || Long(state))
    }

    predicate NeedsAlignment(state: nat) {
      state > maxAccept && !Short(state) && !Long(state) && state == mcficall
    }

    /** Words that end in a direct branch hold an opcode and a displacement. */
    ghost predicate BranchLengths() {
      Valid() ==> forall word: seq<Byte> ::
        (Short(Run(start, word)) && Branch(Run(start, word)) ==> |word| >= 2) &&
        (Long(Run(start, word)) && Branch(Run(start, word)) ==> |word| >= 5)
    }
  }

  datatype Outcome = Reject | Incomplete | Accept(state: nat, end: nat)

  /** What verify() finds from cur in a state: it looks beyond an accepted instruction for a longer one. */
  function Verify(v: VerifierT, data: seq<Byte>, cur: nat, state: nat): (o: Outcome)
    requires v.Valid() && state < v.states
    ensures o.Accept? ==> cur < o.end <= |data| && v.Accepting(o.state)
    decreases |data| - cur
  {
    if cur >= |data| then Incomplete
    else
      var next := v.Lookup(state, data[cur]);
      if next >= v.start then Verify(v, data, cur + 1, next)
      else if v.Accepts(next) then
        if cur + 2 < |data| && v.Lookup(next, data[cur + 1]) != 0 then
          var longer := Verify(v, data, cur + 2, v.Lookup(next, data[cur + 1]));
          if longer.Accept? then longer else Accept(next, cur + 1)
        else Accept(next, cur + 1)
      else if v.AcceptsOthers(next) then Accept(next, cur + 1)
      else Reject
  }

  /** The chunk it finds takes the DFA from that state to the one it reports. */
  lemma {:induction false} VerifySound(v: VerifierT, data: seq<Byte>, cur: nat, state: nat)
    requires v.Valid() && state < v.states && Verify(v, data, cur, state).Accept?
    ensures v.Run(state, data[cur..Verify(v, data, cur, state).end]) == Verify(v, data, cur, state).state
    decreases |data| - cur
  {
    var o := Verify(v, data, cur, state);
    var next := v.Lookup(state, data[cur]);
    assert data[cur..o.end][1..] == data[cur + 1..o.end];
    if next >= v.start {
      VerifySound(v, data, cur + 1, next);
    } else if o.end == cur + 1 {
      assert data[cur + 1..o.end] == [];
    } else {
      assert data[cur + 1..o.end][1..] == data[cur + 2..o.end];
      VerifySound(v, data, cur + 2, v.Lookup(next, data[cur + 1]));
    }
  }

  /** data[cur..k] is the first accepted word on the way, through states in the middle of an instruction. */
  ghost predicate FirstAccepts(v: VerifierT, data: seq<Byte>, cur: nat, state: nat, k: nat)
    requires v.Valid() && state < v.states
    decreases |data| - cur
  {
    cur < k <= |data| &&
      var next := v.Lookup(state, data[cur]);
      if k == cur + 1 then v.Accepting(next) else next >= v.start && FirstAccepts(v, data, cur + 1, next, k)
  }

  /** It accepts exactly when some word on the way is accepted; what lies beyond only prolongs it. */
  lemma {:induction false} VerifyAccepts(v: VerifierT, data: seq<Byte>, cur: nat, state: nat) returns (k: nat)
    requires v.Valid() && state < v.states && Verify(v, data, cur, state).Accept?
    ensures FirstAccepts(v, data, cur, state, k)
    decreases |data| - cur
  {
    var next := v.Lookup(state, data[cur]);
    if next >= v.start {
      k := VerifyAccepts(v, data, cur + 1, next);
    } else {
      k := cur + 1;
    }
  }

  lemma {:induction false} AcceptedVerifies(v: VerifierT, data: seq<Byte>, cur: nat, state: nat, k: nat)
    requires v.Valid() && state < v.states && FirstAccepts(v, data, cur, state, k)
    ensures Verify(v, data, cur, state).Accept? && k <= Verify(v, data, cur, state).end
    decreases |data| - cur
  {
    var next := v.Lookup(state, data[cur]);
    if k > cur + 1 {
      AcceptedVerifies(v, data, cur + 1, next, k);
    }
  }

  /** verify(): endState and endPtr keep their values unless something is accepted. */
  method VerifyChunk(v: VerifierT, data: seq<Byte>, cur0: nat, start: nat, endState0: nat, endPtr0: nat)
    returns (result: int, endState: nat, endPtr: nat)
    requires v.Valid() && start < v.states
    ensures match Verify(v, data, cur0, start)
      case Reject => result == -1 && endState == endState0 && endPtr == endPtr0
      case Incomplete => result == 1 && endState == endState0 && endPtr == endPtr0
      case Accept(state, end) => result == 0 && endState == state && endPtr == end
    decreases |data| - cur0
  {
    var state: nat, cur: nat := start, cur0;
    endState, endPtr := endState0, endPtr0;
    while cur < |data|
      invariant cur0 <= cur && state < v.states
      invariant Verify(v, data, cur, state) == Verify(v, data, cur0, start)
      invariant endState == endState0 && endPtr == endPtr0
      decreases |data| - cur
    {
      state := v.Lookup(state, data[cur]);
      cur := cur + 1;
      if state >= v.start {
        continue;
      } else if v.Accepts(state) {
        endState, endPtr := state, cur;
        if cur + 1 < |data| {
          var nextState := v.Lookup(state, data[cur]);
          cur := cur + 1;
          if nextState != 0 {
            var ignored;
            ignored, endState, endPtr := VerifyChunk(v, data, cur, nextState, endState, endPtr);
          }
        }
        return 0, endState, endPtr;
      } else if v.AcceptsOthers(state) {
        return 0, state, cur;
      } else if state == 0 {
        return -1, endState, endPtr;
      }
    }
    return 1, endState, endPtr;
  }

  // ---------- the split of a buffer ----------

  datatype Chunk = Chunk(start: nat, end: nat, state: nat)

  /** The instructions found from ptr to the end of the buffer, if every one is accepted. */
  function Chunks(v: VerifierT, data: seq<Byte>, ptr: nat): Option<seq<Chunk>>
    requires v.Valid()
    decreases |data| - ptr
  {
    if ptr >= |data| then Some([])
    else
      var o := Verify(v, data, ptr, v.start);
      if !o.Accept? then None
      else
        var rest := Chunks(v, data, o.end);
        if rest.None? then None else Some([Chunk(ptr, o.end, o.state)] + rest.value)
  }

  /** A chunk is an accepted word of the DFA. */
  ghost predicate Sound(v: VerifierT, data: seq<Byte>, c: Chunk)
    requires v.Valid()
  {
    c.start < c.end <= |data| && v.Accepting(c.state) && v.Run(v.start, data[c.start..c.end]) == c.state
  }

  /** Consecutive accepted words cover the buffer from one position to another. */
  ghost predicate Tiles(v: VerifierT, data: seq<Byte>, cs: seq<Chunk>, from: nat, to: nat)
    requires v.Valid()
  {
    if cs == [] then from == to
    else cs[0].start == from && Sound(v, data, cs[0]) && Tiles(v, data, cs[1..], cs[0].end, to)
  }

  /** The split consists of accepted words that tile the buffer. */
  lemma {:induction false} ChunksTile(v: VerifierT, data: seq<Byte>, ptr: nat)
    requires v.Valid() && ptr <= |data| && Chunks(v, data, ptr).Some?
    ensures Tiles(v, data, Chunks(v, data, ptr).value, ptr, |data|)
    decreases |data| - ptr
  {
    if ptr < |data| {
      var o := Verify(v, data, ptr, v.start);
      VerifySound(v, data, ptr, v.start);
      ChunksTile(v, data, o.end);
      assert Chunks(v, data, ptr).value[1..] == Chunks(v, data, o.end).value;
    }
  }

  /** Chunks already found in front of those still to be found. */
  function Prepended(cs: seq<Chunk>, rest: Option<seq<Chunk>>): Option<seq<Chunk>> {
    if rest.None? then None else Some(cs + rest.value)
  }

  lemma ChunksStep(v: VerifierT, data: seq<Byte>, ptr: nat, cs: seq<Chunk>)
    requires v.Valid() && ptr < |data| && Verify(v, data, ptr, v.start).Accept?
    ensures var o := Verify(v, data, ptr, v.start);
      Prepended(cs, Chunks(v, data, ptr)) == Prepended(cs + [Chunk(ptr, o.end, o.state)], Chunks(v, data, o.end))
  {
    var o := Verify(v, data, ptr, v.start);
    var rest := Chunks(v, data, o.end);
    if rest.Some? {
      assert cs + ([Chunk(ptr, o.end, o.state)] + rest.value) == cs + [Chunk(ptr, o.end, o.state)] + rest.value;
    }
  }
}
