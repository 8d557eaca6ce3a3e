/** Code as 8-byte words at multiples of 8, and the patched forms of a word. */
module CodeWords {
  import opened Bytes
  import opened Options

  const CALL: Byte := 0xE8

  predicate IsWord(c: seq<Byte>, at: nat) {
    at % 8 == 0 && at + 8 <= |c|
  }

  function Word(c: seq<Byte>, at: nat): (w: seq<Byte>)
    requires at + 8 <= |c|
    ensures |w| == 8
  {
    c[at..at + 8]
  }

  /** Bytes stored at an address. */
  function Put(c: seq<Byte>, at: nat, s: seq<Byte>): (d: seq<Byte>)
    requires at + |s| <= |c|
    ensures |d| == |c|
  {
    c[..at] + s + c[at + |s|..]
  }

  /** What lies behind the last word. */
  function Tail(c: seq<Byte>): seq<Byte> {
    c[|c| - |c| % 8..]
  }

  /** A word that is stored changes that word only. */
  lemma PutWord(c: seq<Byte>, at: nat, s: seq<Byte>, v: nat)
    requires IsWord(c, at) && |s| == 8 && IsWord(c, v)
    ensures Word(Put(c, at, s), v) == if v == at then s else Word(c, v)
  {
    assert v < at ==> v + 8 <= at;
    assert at < v ==> at + 8 <= v;
  }

  lemma PutTail(c: seq<Byte>, at: nat, s: seq<Byte>)
    requires IsWord(c, at) && |s| == 8
    ensures Tail(Put(c, at, s)) == Tail(c)
  {
    assert at + 8 <= |c| - |c| % 8;
  }

  /** Bytes stored inside a word are that word stored anew. */
  lemma PutInside(c: seq<Byte>, at: nat, k: nat, s: seq<Byte>)
    requires at + 8 <= |c| && k + |s| <= 8
    ensures Put(c, at + k, s) == Put(c, at, Put(Word(c, at), k, s))
  {
    var w := Word(c, at);
    assert c[..at + k] == c[..at] + w[..k];
    assert c[at + k + |s|..] == w[k + |s|..] + c[at + 8..];
    assert c[..at] + w[..k] + s + (w[k + |s|..] + c[at + 8..]) == c[..at] + (w[..k] + s + w[k + |s|..]) + c[at + 8..];
  }

  /** Code is its words and its tail. */
  lemma SameWords(a: seq<Byte>, b: seq<Byte>)
    requires |a| == |b| && Tail(a) == Tail(b)
    requires forall v :: IsWord(a, v) ==> Word(a, v) == Word(b, v)
    ensures a == b
  {
    forall i | 0 <= i < |a| ensures a[i] == b[i] {
      var v := i - i % 8;
      if v + 8 <= |a| {
        assert IsWord(a, v) && a[i] == Word(a, v)[i % 8] && b[i] == Word(b, v)[i % 8];
      } else {
        var t := |a| - |a| % 8;
        assert t <= i && a[i] == Tail(a)[i - t] && b[i] == Tail(b)[i - t];
      }
    }
  }

  // ---------- calls ----------

  /** A call site: the offset of its return address, a multiple of 8, and whether the call is indirect. */
  datatype Site = Site(key: nat, indirect: bool)

  /** The displacement that is written for a call that returns to an offset. */
  function Displacement(target: nat, ret: int): (d: seq<Byte>)
    ensures |d| == 4
  {
    Put32(false, U32(target - ret))
  }

  /** A word that ends at a call site's return address, patched to call the stub. */
  function PatchedCall(w: seq<Byte>, site: Site, stub: nat): (v: seq<Byte>)
    requires |w| == 8
    ensures |v| == 8
  {
    if !site.indirect then w[..4] + Displacement(stub, site.key)
    else if w[5] != 0 then [CALL] + Displacement(stub, site.key - 3) + w[5..]
    else [w[0], CALL] + Displacement(stub, site.key - 2) + w[6..]
  }

  /** A word at a function's entry, patched to call the stub. */
  function PatchedEntry(w: seq<Byte>, entry: nat, stub: nat): (v: seq<Byte>)
    requires |w| == 8
    ensures |v| == 8
  {
    [CALL] + Displacement(stub, entry + 5) + w[5..]
  }

  /** The signed value of a displacement. */
  function Signed32(x: nat): int
    requires x < WORD32
  {
    if x < WORD32 / 2 then x else x - WORD32
  }

  /** Where a call instruction goes and where it returns, if one stands at an offset of a word. */
  datatype Call = Call(target: int, ret: nat)

  function Decode(w: seq<Byte>, at: nat, k: nat): Option<Call>
    requires |w| == 8
  {
    if k + 5 <= 8 && w[k] == CALL then
      Some(Call(at + k + 5 + Signed32(Get32(false, w[k + 1..k + 5])), at + k + 5))
    else None
  }

  /** A displacement leads to its target exactly when the two are less than 2^31 apart. */
  lemma DisplacementLeads(target: nat, ret: int)
    ensures var to := ret + Signed32(Get32(false, Displacement(target, ret)));
      && (to == target <==> -(WORD32 / 2) <= target - ret < WORD32 / 2)
      && U32(to) == U32(target)
  {
    var d := U32(target - ret);
    GetPut32(false, d);
  }

  /** The address to which patch_call() rounds the return address that it is given. */
  function RoundUp(x: nat): nat {
    (x + 7) / 8 * 8
  }

  /** The offset in its word at which a patched call stands. */
  function CallPlace(w: seq<Byte>, site: Site): (k: nat)
    requires |w| == 8
    ensures k + 5 <= 8
  {
    if !site.indirect then 3 else if w[5] != 0 then 0 else 1
  }

  lemma {:induction false} DecodesAs(v: seq<Byte>, at: nat, k: nat, target: nat)
    requires |v| == 8 && k + 5 <= 8 && v[k] == CALL && v[k + 1..k + 5] == Displacement(target, at + k + 5)
    ensures var c := Decode(v, at, k);
      && c.Some? && c.value.ret == at + k + 5 && U32(c.value.target) == U32(target)
      && (c.value.target == target <==> -(WORD32 / 2) <= target - c.value.ret < WORD32 / 2)
  {
    DisplacementLeads(target, at + k + 5);
  }

  lemma {:induction false} CallStands(w: seq<Byte>, site: Site, stub: nat, v: seq<Byte>, k: nat)
    requires |w| == 8 && 8 <= site.key && (!site.indirect ==> w[3] == CALL)
    requires v == PatchedCall(w, site, stub) && k == CallPlace(w, site)
    ensures v[k] == CALL && v[k + 1..k + 5] == Displacement(stub, site.key - 8 + k + 5)
  {
  }

  lemma RoundsUp(key: nat, d: nat)
    requires key % 8 == 0 && d < 8 && d <= key
    ensures RoundUp(key - d) == key
  {
  }

  /** Each patched call goes to the stub, and its return address rounds up to the key. A direct call stands in
      front of its return address from the start. */
  lemma {:induction false} CallDecodes(w: seq<Byte>, site: Site, stub: nat)
    requires |w| == 8 && site.key % 8 == 0 && 8 <= site.key
    requires !site.indirect ==> w[3] == CALL
    ensures var c := Decode(PatchedCall(w, site, stub), site.key - 8, CallPlace(w, site));
      && c.Some? && c.value.ret == site.key - 3 + CallPlace(w, site) && RoundUp(c.value.ret) == site.key
      && U32(c.value.target) == U32(stub)
      && (c.value.target == stub <==> -(WORD32 / 2) <= stub - c.value.ret < WORD32 / 2)
  {
    var v, k := PatchedCall(w, site, stub), CallPlace(w, site);
    CallStands(w, site, stub, v, k);
    DecodesAs(v, site.key - 8, k, stub);
    RoundsUp(site.key, 3 - k);
  }

  /** A patched entry calls its stub. */
  lemma EntryDecodes(w: seq<Byte>, entry: nat, stub: nat)
    requires |w| == 8
    ensures var c := Decode(PatchedEntry(w, entry, stub), entry, 0);
      && c.Some? && c.value.ret == entry + 5 && U32(c.value.target) == U32(stub)
      && (c.value.target == stub <==> -(WORD32 / 2) <= stub - c.value.ret < WORD32 / 2)
  {
    DecodesAs(PatchedEntry(w, entry, stub), entry, 0, stub);
  }
}
