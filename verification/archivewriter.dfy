/** The writers of archive.c: member list to map, map to bytes, and the whole file. */
module ArchiveWriter {
  import opened Bytes
  import opened Options
  import opened Archive

  // ---------- _bfd_compute_and_write_armap() ----------

  /** The loop that collects the map. */
  method CollectMap(ms: seq<Member>) returns (map': seq<Orl>, stridx: nat)
    requires GoodSymbols(ms)
    ensures map' == MapOf(ms) && stridx == NamesEnd(MapOf(ms))
  {
    map', stridx := [], 0;
    var current := 0;
    while current < |ms|
      invariant 0 <= current <= |ms| && map' == MapOf(ms[..current]) && stridx == NamesEnd(map')
    {
      map', stridx := CollectMember(map', stridx, current, ms[current].symbols);
      assert ms[..current + 1][..current] == ms[..current];
      current := current + 1;
    }
    assert ms[..|ms|] == ms;
  }

  method CollectMember(map0: seq<Orl>, stridx0: nat, member: nat, syms: seq<Symbol>)
    returns (map': seq<Orl>, stridx: nat)
    requires stridx0 == NamesEnd(map0)
    ensures map' == map0 + MemberMap(member, syms, stridx0) && stridx == NamesEnd(map')
  {
    map', stridx := map0, stridx0;
    var src := 0;
    assert syms[0..] == syms;
    while src < |syms|
      invariant 0 <= src <= |syms| && stridx == NamesEnd(map')
      invariant map0 + MemberMap(member, syms, stridx0) == map' + MemberMap(member, syms[src..], stridx)
    {
      assert syms[src..][1..] == syms[src + 1..];
      if syms[src].wanted {
        var o := Orl(syms[src].name, member, stridx);
        Shift(map', o, MemberMap(member, syms[src + 1..], stridx + |o.name| + 1));
        map', stridx := map' + [o], stridx + |o.name| + 1;
      }
      src := src + 1;
    }
    assert map' + [] == map';
  }

  lemma Shift(map': seq<Orl>, o: Orl, rest: seq<Orl>)
    ensures map' + ([o] + rest) == map' + [o] + rest
  {
  }

  // ---------- coff_write_armap() ----------

  /** Sizes and the position of the first member as coff_write_armap() computes them in 32 bits. */
  function CoffMapSize(count: nat, stridx: nat): nat {
    U32(U32(stridx) + U32(U32(count * 4) + 4))
  }

  function Padded(size: nat): nat {
    if size % 2 == 1 then U32(size + 1) else size
  }

  function CoffBase(count: nat, stridx: nat, elength: nat): nat {
    U32(Padded(CoffMapSize(count, stridx)) + elength) + AR_HDR + SARMAG
  }

  /** The offsets of the first k symbols. */
  function CoffOffsets(ms: seq<Member>, map': seq<Orl>, base: nat, thin: bool, k: nat): (s: seq<Byte>)
    requires k <= |map'| && forall i :: 0 <= i < |map'| ==> map'[i].member < |ms|
    ensures |s| == 4 * k
  {
    if k == 0 then []
    else CoffOffsets(ms, map', base, thin, k - 1) + Put32(true, U32(CoffPosition(ms, base, thin, map'[k - 1].member)))
  }

  /** The contents of a COFF map. */
  function CoffData(ms: seq<Member>, map': seq<Orl>, base: nat, thin: bool, pad: bool): seq<Byte>
    requires forall i :: 0 <= i < |map'| ==> map'[i].member < |ms|
  {
    Put32(true, U32(|map'|)) + CoffOffsets(ms, map', base, thin, |map'|) + Strings(map') + if pad then [0] else []
  }

  /** The offsets of the first k symbols fit 32 bits. */
  predicate CoffFit(ms: seq<Member>, map': seq<Orl>, base: nat, thin: bool, k: nat)
    requires k <= |map'| && forall i :: 0 <= i < |map'| ==> map'[i].member < |ms|
  {
    k == 0 || (CoffFit(ms, map', base, thin, k - 1) && CoffPosition(ms, base, thin, map'[k - 1].member) < WORD32)
  }

  lemma {:induction false} CoffFitLess(ms: seq<Member>, map': seq<Orl>, base: nat, thin: bool, j: nat, k: nat)
    requires j <= k <= |map'| && forall i :: 0 <= i < |map'| ==> map'[i].member < |ms|
    requires CoffFit(ms, map', base, thin, k)
    ensures CoffFit(ms, map', base, thin, j)
  {
    if j < k {
      CoffFitLess(ms, map', base, thin, j, k - 1);
    }
  }

  /** The strings, written one after another. */
  method WriteStrings(out0: seq<Byte>, map': seq<Orl>) returns (out: seq<Byte>)
    ensures out == out0 + Strings(map')
  {
    out := out0;
    var count := 0;
    assert out0 + Strings(map'[..0]) == out0;
    while count < |map'|
      invariant 0 <= count <= |map'| && out == out0 + Strings(map'[..count])
    {
      assert map'[..count + 1][..count] == map'[..count];
      out := out + (map'[count].name + [0]);
      count := count + 1;
    }
    assert map'[..|map'|] == map';
  }

  /** The archive format has four bytes for an offset. */
  method FitOffset(ptr: nat) returns (ok: bool, offset: nat)
    ensures offset == U32(ptr) && (ok <==> ptr < WORD32)
  {
    offset := U32(ptr);
    ok := ptr == offset;
  }

  /** The two nested loops over members and symbols. */
  method WriteOffsets(out0: seq<Byte>, ms: seq<Member>, map': seq<Orl>, base: nat, thin: bool)
    returns (ok: bool, out: seq<Byte>)
    requires GoodMap(map', |ms|)
    ensures ok <==> CoffFit(ms, map', base, thin, |map'|)
    ensures ok ==> out == out0 + CoffOffsets(ms, map', base, thin, |map'|)
  {
    out, ok := out0, true;
    var ptr, current: nat, count: nat := base, 0, 0;
    assert out0 + [] == out0;
    while current < |ms| && count < |map'| && ok
      invariant current <= |ms| && count <= |map'| && ptr == CoffPosition(ms, base, thin, current)
      invariant ok ==> (count < |map'| ==> current <= map'[count].member)
      invariant ok ==> out == out0 + CoffOffsets(ms, map', base, thin, count) && CoffFit(ms, map', base, thin, count)
      invariant !ok ==> !CoffFit(ms, map', base, thin, |map'|)
      decreases |ms| - current, ok
    {
      ok, out, count := WriteMemberOffsets(out0, out, ms, map', base, thin, current, count, ptr);
      ptr := CoffNext(ptr, ms[current], thin);
      current := current + 1;
    }
  }

  /** The inner loop. */
  method WriteMemberOffsets(ghost out0: seq<Byte>, out1: seq<Byte>, ms: seq<Member>, map': seq<Orl>,
                            base: nat, thin: bool, current: nat, count0: nat, ptr: nat)
    returns (ok: bool, out: seq<Byte>, count: nat)
    requires GoodMap(map', |ms|) && current < |ms| && ptr == CoffPosition(ms, base, thin, current)
    requires count0 <= |map'| && (count0 < |map'| ==> current <= map'[count0].member)
    requires out1 == out0 + CoffOffsets(ms, map', base, thin, count0) && CoffFit(ms, map', base, thin, count0)
    ensures count0 <= count <= |map'|
    ensures ok ==> (count < |map'| ==> current < map'[count].member)
    ensures ok ==> out == out0 + CoffOffsets(ms, map', base, thin, count) && CoffFit(ms, map', base, thin, count)
    ensures !ok ==> !CoffFit(ms, map', base, thin, |map'|)
  {
    out, count, ok := out1, count0, true;
    while count < |map'| && map'[count].member == current && ok
      invariant count0 <= count <= |map'|
      invariant ok ==> (count < |map'| ==> current <= map'[count].member)
      invariant ok ==> out == out0 + CoffOffsets(ms, map', base, thin, count) && CoffFit(ms, map', base, thin, count)
      invariant !ok ==> count < |map'| && !CoffFit(ms, map', base, thin, count + 1)
      decreases |map'| - count, ok
    {
      var offset;
      ok, offset := FitOffset(ptr);
      if ok {
        OffsetStep(out0, ms, map', base, thin, count);
        NextMember(map', |ms|, count);
        out := out + Put32(true, offset);
        count := count + 1;
      }
    }
    if !ok && CoffFit(ms, map', base, thin, |map'|) {
      CoffFitLess(ms, map', base, thin, count + 1, |map'|);
    }
  }

  lemma NextMember(map': seq<Orl>, n: nat, i: nat)
    requires GoodMap(map', n) && i < |map'|
    ensures i + 1 < |map'| ==> map'[i].member <= map'[i + 1].member
  {
    if i + 1 < |map'| {
      InOrder(map', n, i, i + 1);
    }
  }

  lemma OffsetStep(out0: seq<Byte>, ms: seq<Member>, map': seq<Orl>, base: nat, thin: bool, k: nat)
    requires k < |map'| && forall i :: 0 <= i < |map'| ==> map'[i].member < |ms|
    ensures out0 + CoffOffsets(ms, map', base, thin, k + 1) == out0 + CoffOffsets(ms, map', base, thin, k) +
      Put32(true, U32(CoffPosition(ms, base, thin, map'[k].member)))
  {
  }

  /** coff_write_armap() */
  method CoffWriteArmap(hdr: seq<Byte>, elength: nat, map': seq<Orl>, stridx: nat, ms: seq<Member>, thin: bool)
    returns (r: Option<seq<Byte>>)
    requires GoodMap(map', |ms|)
    ensures var base := CoffBase(|map'|, stridx, elength);
      && (r.Some? <==> CoffFit(ms, map', base, thin, |map'|))
      && (r.Some? ==> r.value == hdr + CoffData(ms, map', base, thin, CoffMapSize(|map'|, stridx) % 2 == 1))
  {
    var ranlibsize := U32(U32(|map'| * 4) + 4);
    var stringsize := U32(stridx);
    var mapsize := U32(stringsize + ranlibsize);
    var padit := mapsize % 2 == 1;
    if padit {
      mapsize := U32(mapsize + 1);
    }
    var ptr := U32(mapsize + elength) + AR_HDR + SARMAG;
    var out := hdr + Put32(true, U32(|map'|));
    var ok;
    ok, out := WriteOffsets(out, ms, map', ptr, thin);
    if !ok {
      return None;
    }
    out := WriteStrings(out, map');
    if padit {
      out := out + [0];
    }
    CoffJoined(hdr, Put32(true, U32(|map'|)), CoffOffsets(ms, map', ptr, thin, |map'|), Strings(map'),
               if padit then [0] else []);
    return Some(out);
  }

  lemma CoffJoined(a: seq<Byte>, b: seq<Byte>, c: seq<Byte>, d: seq<Byte>, e: seq<Byte>)
    ensures a + b + c + d + e == a + (b + c + d + e)
    ensures e == [] ==> a + b + c + d == a + (b + c + d + e)
  {
  }

  // ---------- bsd_write_armap() ----------

  function BsdStringSize(stridx: nat): nat {
    U32(stridx + stridx % 2)
  }

  function BsdMapSize(count: nat, stridx: nat): nat {
    U32(U32(count * 8) + BsdStringSize(stridx) + 8)
  }

  function BsdBase(count: nat, stridx: nat, elength: nat): nat {
    U32(BsdMapSize(count, stridx) + elength) + AR_HDR + SARMAG
  }

  function BsdEntry(be: bool, ms: seq<Member>, o: Orl, base: nat): (s: seq<Byte>)
    requires o.member < |ms|
    ensures |s| == 8
  {
    Put32(be, U32(o.namidx)) + Put32(be, U32(BsdPosition(ms, base, o.member)))
  }

  /** The entries of the first k symbols: where the name and the member start. */
  function BsdEntries(be: bool, ms: seq<Member>, map': seq<Orl>, base: nat, k: nat): (s: seq<Byte>)
    requires k <= |map'| && forall i :: 0 <= i < |map'| ==> map'[i].member < |ms|
    ensures |s| == 8 * k
  {
    if k == 0 then []
    else BsdEntries(be, ms, map', base, k - 1) + BsdEntry(be, ms, map'[k - 1], base)
  }

  predicate BsdFit(ms: seq<Member>, map': seq<Orl>, base: nat, k: nat)
    requires k <= |map'| && forall i :: 0 <= i < |map'| ==> map'[i].member < |ms|
  {
    k == 0 || (BsdFit(ms, map', base, k - 1) && BsdPosition(ms, base, map'[k - 1].member) < WORD32)
  }

  lemma {:induction false} BsdFitLess(ms: seq<Member>, map': seq<Orl>, base: nat, j: nat, k: nat)
    requires j <= k <= |map'| && forall i :: 0 <= i < |map'| ==> map'[i].member < |ms|
    requires BsdFit(ms, map', base, k)
    ensures BsdFit(ms, map', base, j)
  {
    if j < k {
      BsdFitLess(ms, map', base, j, k - 1);
    }
  }

  /** The contents of a BSD map. */
  function BsdData(be: bool, ms: seq<Member>, map': seq<Orl>, base: nat, stridx: nat): seq<Byte>
    requires forall i :: 0 <= i < |map'| ==> map'[i].member < |ms|
  {
    Put32(be, U32(|map'| * 8)) + BsdEntries(be, ms, map', base, |map'|) + Put32(be, BsdStringSize(stridx)) +
      Strings(map') + if stridx % 2 == 1 then [0] else []
  }

  /** Walking on to the member that defines the next symbol. */
  method StepTo(ms: seq<Member>, base: nat, current0: nat, member: nat, ptr0: nat) returns (ptr: nat)
    requires current0 <= member <= |ms| && ptr0 == BsdPosition(ms, base, current0)
    ensures ptr == BsdPosition(ms, base, member)
  {
    ptr := ptr0;
    var current := current0;
    while current != member
      invariant current0 <= current <= member && ptr == BsdPosition(ms, base, current)
    {
      ptr := BsdNext(ptr, ms[current]);
      current := current + 1;
    }
  }

  /** The loop over the symbols. */
  method WriteEntries(be: bool, out0: seq<Byte>, ms: seq<Member>, map': seq<Orl>, base: nat)
    returns (ok: bool, out: seq<Byte>)
    requires GoodMap(map', |ms|)
    ensures ok <==> BsdFit(ms, map', base, |map'|)
    ensures ok ==> out == out0 + BsdEntries(be, ms, map', base, |map'|)
  {
    out, ok := out0, true;
    var ptr, current: nat, count: nat := base, 0, 0;
    assert out0 + [] == out0;
    while count < |map'| && ok
      invariant count <= |map'| && current <= |ms| && ptr == BsdPosition(ms, base, current)
      invariant count < |map'| ==> current <= map'[count].member
      invariant ok ==> out == out0 + BsdEntries(be, ms, map', base, count) && BsdFit(ms, map', base, count)
      invariant !ok ==> count < |map'| && !BsdFit(ms, map', base, count + 1)
      decreases |map'| - count, ok
    {
      ptr := StepTo(ms, base, current, map'[count].member, ptr);
      current := map'[count].member;
      var offset;
      ok, offset := FitOffset(ptr);
      if ok {
        EntryStep(be, out0, ms, map', base, count);
        NextMember(map', |ms|, count);
        out := out + (Put32(be, U32(map'[count].namidx)) + Put32(be, offset));
        count := count + 1;
      }
    }
    if !ok && BsdFit(ms, map', base, |map'|) {
      BsdFitLess(ms, map', base, count + 1, |map'|);
    }
  }

  lemma EntryStep(be: bool, out0: seq<Byte>, ms: seq<Member>, map': seq<Orl>, base: nat, k: nat)
    requires k < |map'| && forall i :: 0 <= i < |map'| ==> map'[i].member < |ms|
    ensures out0 + BsdEntries(be, ms, map', base, k + 1) ==
      out0 + BsdEntries(be, ms, map', base, k) + BsdEntry(be, ms, map'[k], base)
  {
  }

  /** bsd_write_armap(); be is the byte order of the target. */
  method BsdWriteArmap(be: bool, hdr: seq<Byte>, elength: nat, map': seq<Orl>, stridx: nat, ms: seq<Member>)
    returns (r: Option<seq<Byte>>)
    requires GoodMap(map', |ms|)
    ensures var base := BsdBase(|map'|, stridx, elength);
      && (r.Some? <==> BsdFit(ms, map', base, |map'|))
      && (r.Some? ==> r.value == hdr + BsdData(be, ms, map', base, stridx))
  {
    var padit := stridx % 2;
    var ranlibsize := U32(|map'| * 8);
    var stringsize := U32(stridx + padit);
    var mapsize := U32(ranlibsize + stringsize + 8);
    var firstreal := U32(mapsize + elength) + AR_HDR + SARMAG;
    var out := hdr + Put32(be, ranlibsize);
    var ok;
    ok, out := WriteEntries(be, out, ms, map', firstreal);
    if !ok {
      return None;
    }
    out := out + Put32(be, stringsize);
    out := WriteStrings(out, map');
    if padit == 1 {
      out := out + [0];
    }
    BsdJoined(hdr, Put32(be, ranlibsize), BsdEntries(be, ms, map', firstreal, |map'|), Put32(be, stringsize),
              Strings(map'), if padit == 1 then [0] else []);
    return Some(out);
  }

  lemma BsdJoined(a: seq<Byte>, b: seq<Byte>, c: seq<Byte>, d: seq<Byte>, e: seq<Byte>, f: seq<Byte>)
    ensures a + b + c + d + e + f == a + (b + c + d + e + f)
    ensures f == [] ==> a + b + c + d + e == a + (b + c + d + e + f)
  {
  }

  // ---------- _bfd_write_archive_contents() ----------

  /** The members after the ones that hold an old map. */
  function WithoutOldMap(ms: seq<Member>): seq<Member> {
    if ms != [] && ms[0].isSymdef then WithoutOldMap(ms[1..]) else ms
  }

  /** The extended name table with its header. */
  function NameTable(hdr: seq<Byte>, etable: seq<Byte>): seq<Byte> {
    if etable == [] then [] else hdr + etable + Padding(|etable|)
  }

  /** What _bfd_compute_and_write_armap() adds for it, in 32 bits. */
  function TableLength(elength: nat): nat {
    var e := if elength != 0 then U32(elength + AR_HDR) else elength;
    U32(e + e % 2)
  }

  /** Copying the members. */
  method WriteMembers(out0: seq<Byte>, ms: seq<Member>, thin: bool) returns (out: seq<Byte>)
    ensures out == out0 + Body(ms, thin)
  {
    out := out0;
    var current := 0;
    assert out0 + Body(ms[..0], thin) == out0;
    while current < |ms|
      invariant 0 <= current <= |ms| && out == out0 + Body(ms[..current], thin)
    {
      BodyStep(ms, thin, current + 1);
      Associate(out0, Body(ms[..current], thin), MemberBytes(ms[current], thin));
      out := WriteMember(out, ms[current], thin);
      current := current + 1;
    }
    assert ms[..|ms|] == ms;
  }

  lemma Associate(a: seq<Byte>, b: seq<Byte>, c: seq<Byte>)
    ensures a + b + c == a + (b + c)
  {
  }

  /** Header, name, contents and padding. */
  method WriteMember(out0: seq<Byte>, m: Member, thin: bool) returns (out: seq<Byte>)
    ensures out == out0 + MemberBytes(m, thin)
  {
    out := out0 + m.header + m.longName;
    if !thin {
      out := out + m.contents;
      if |m.contents| % 2 == 1 {
        out := out + [10];
      }
    }
    MemberAppended(out0, m, thin, out);
  }

  lemma MemberAppended(before: seq<Byte>, m: Member, thin: bool, out: seq<Byte>)
    requires out == if thin then before + m.header + m.longName
                    else if |m.contents| % 2 == 1 then before + m.header + m.longName + m.contents + [10]
                    else before + m.header + m.longName + m.contents
    ensures out == before + MemberBytes(m, thin)
  {
  }

  /** _bfd_write_archive_contents(), with the headers given. makemap says that there are objects and a map is
      wanted, bsd which kind of map. */
  method WriteArchiveContents(magic: seq<Byte>, mapHdr: seq<Byte>, tableHdr: seq<Byte>, etable: seq<Byte>,
                              members: seq<Member>, thin: bool, makemap: bool, bsd: bool, be: bool)
    returns (r: Option<seq<Byte>>)
    requires GoodSymbols(members)
    ensures !makemap ==> r == Some(magic + NameTable(tableHdr, etable) + Body(members, thin))
    ensures makemap && bsd ==>
      r == BsdArchive(be, magic, mapHdr, tableHdr, etable, WithoutOldMap(members), thin)
    ensures makemap && !bsd ==>
      r == CoffArchive(magic, mapHdr, tableHdr, etable, WithoutOldMap(members), thin)
  {
    var ms, out := members, magic;
    if makemap {
      ms := WithoutOldMap(members);
      var elength := TableLength(|etable|);
      WithoutOldMapGood(members);
      MapOfGood(ms);
      var map', stridx := CollectMap(ms);
      var written;
      if bsd {
        written := BsdWriteArmap(be, mapHdr, elength, map', stridx, ms);
      } else {
        written := CoffWriteArmap(mapHdr, elength, map', stridx, ms, thin);
      }
      if written.None? {
        return None;
      }
      out := out + written.value;
    }
    out := out + NameTable(tableHdr, etable);
    out := WriteMembers(out, ms, thin);
    return Some(out);
  }

  lemma {:induction false} WithoutOldMapGood(ms: seq<Member>)
    requires GoodSymbols(ms)
    ensures GoodSymbols(WithoutOldMap(ms)) && |WithoutOldMap(ms)| <= |ms|
  {
    if ms != [] && ms[0].isSymdef {
      WithoutOldMapGood(ms[1..]);
    }
  }

  /** A whole archive with a COFF map; None when an offset does not fit. */
  function CoffArchive(magic: seq<Byte>, mapHdr: seq<Byte>, tableHdr: seq<Byte>, etable: seq<Byte>,
                       ms: seq<Member>, thin: bool): Option<seq<Byte>>
  {
    MapMembers(ms);
    var map', stridx := MapOf(ms), NamesEnd(MapOf(ms));
    var base := CoffBase(|map'|, stridx, TableLength(|etable|));
    if CoffFit(ms, map', base, thin, |map'|) then
      Some(magic + (mapHdr + CoffData(ms, map', base, thin, CoffMapSize(|map'|, stridx) % 2 == 1)) +
           NameTable(tableHdr, etable) + Body(ms, thin))
    else None
  }

  /** A whole archive with a BSD map. */
  function BsdArchive(be: bool, magic: seq<Byte>, mapHdr: seq<Byte>, tableHdr: seq<Byte>, etable: seq<Byte>,
                      ms: seq<Member>, thin: bool): Option<seq<Byte>>
  {
    MapMembers(ms);
    var map', stridx := MapOf(ms), NamesEnd(MapOf(ms));
    var base := BsdBase(|map'|, stridx, TableLength(|etable|));
    if BsdFit(ms, map', base, |map'|) then
      Some(magic + (mapHdr + BsdData(be, ms, map', base, stridx)) + NameTable(tableHdr, etable) + Body(ms, thin))
    else None
  }

  lemma {:induction false} MapMembers(ms: seq<Member>)
    ensures forall i :: 0 <= i < |MapOf(ms)| ==> MapOf(ms)[i].member < |ms|
  {
    if ms != [] {
      var n := |ms| - 1;
      MapMembers(ms[..n]);
      MemberMapOf(n, ms[n].symbols, NamesEnd(MapOf(ms[..n])));
    }
  }

  lemma {:induction false} MemberMapOf(member: nat, syms: seq<Symbol>, stridx: nat)
    ensures forall i :: 0 <= i < |MemberMap(member, syms, stridx)| ==>
      MemberMap(member, syms, stridx)[i].member == member
    decreases |syms|
  {
    if syms != [] {
      if syms[0].wanted {
        MemberMapOf(member, syms[1..], stridx + |syms[0].name| + 1);
      } else {
        MemberMapOf(member, syms[1..], stridx);
      }
    }
  }
}
