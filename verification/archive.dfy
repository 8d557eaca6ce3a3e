/** The symbol map of archive.c: its writers, and where they say that members begin. */
module Archive {
  import opened Bytes
  import opened Options

  const SARMAG: nat := 8
  const AR_HDR: nat := 60

  /** A symbol of a member; wanted says that it goes into the map. */
  datatype Symbol = Symbol(name: seq<Byte>, wanted: bool)

  /** An archive member: its header, the name that BSD 4.4 puts after the header, and its contents. */
  datatype Member = Member(isSymdef: bool, header: seq<Byte>, longName: seq<Byte>, contents: seq<Byte>,
                           symbols: seq<Symbol>)

  /** struct orl: a symbol of the map, the member that defines it, and where its name starts. */
  datatype Orl = Orl(name: seq<Byte>, member: nat, namidx: nat)

  predicate GoodMember(m: Member) {
    |m.header| == AR_HDR && |m.longName| % 4 == 0
  }

  predicate GoodMembers(ms: seq<Member>) {
    forall i :: 0 <= i < |ms| ==> GoodMember(ms[i])
  }

  /** C strings hold no NUL. */
  predicate GoodName(name: seq<Byte>) {
    0 !in name
  }

  // ---------- the members in the file ----------

  function Padding(size: nat): (pad: seq<Byte>)
    ensures |pad| == size % 2
  {
    if size % 2 == 1 then [10] else []
  }

  /** What is written for a member; a thin archive holds headers only. */
  function MemberBytes(m: Member, thin: bool): seq<Byte> {
    m.header + m.longName + if thin then [] else m.contents + Padding(|m.contents|)
  }

  function Body(ms: seq<Member>, thin: bool): seq<Byte> {
    if ms == [] then [] else Body(ms[..|ms| - 1], thin) + MemberBytes(ms[|ms| - 1], thin)
  }

  // ---------- collecting the map ----------

  /** The symbols of one member that go into the map, from symbol j on. */
  function MemberMap(member: nat, syms: seq<Symbol>, stridx: nat): seq<Orl> {
    if syms == [] then []
    else if syms[0].wanted then
      [Orl(syms[0].name, member, stridx)] + MemberMap(member, syms[1..], stridx + |syms[0].name| + 1)
    else MemberMap(member, syms[1..], stridx)
  }

  /** Where the next name would start. */
  function NamesEnd(map': seq<Orl>): nat {
    if map' == [] then 0 else map'[|map'| - 1].namidx + |map'[|map'| - 1].name| + 1
  }

  /** The names with their NULs. */
  function Strings(map': seq<Orl>): seq<Byte> {
    if map' == [] then [] else Strings(map'[..|map'| - 1]) + (map'[|map'| - 1].name + [0])
  }

  /** The map of a list of members. */
  function MapOf(ms: seq<Member>): seq<Orl> {
    if ms == [] then []
    else
      var n := |ms| - 1;
      MapOf(ms[..n]) + MemberMap(n, ms[n].symbols, NamesEnd(MapOf(ms[..n])))
  }

  predicate Follows(o: Orl, o': Orl) {
    o.member <= o'.member && o'.namidx == o.namidx + |o.name| + 1
  }

  /** A map in the order of the members, with the names packed one after another. */
  ghost predicate GoodMap(map': seq<Orl>, n: nat) {
    && (forall i :: 0 <= i < |map'| ==> map'[i].member < n && GoodName(map'[i].name))
    && (forall i, j :: 0 <= i && j == i + 1 < |map'| ==> Follows(map'[i], map'[j]))
    && (map' != [] ==> map'[0].namidx == 0)
  }

  lemma GoodMapMore(map': seq<Orl>, o: Orl, n: nat)
    requires GoodMap(map', n) && o.member < n && GoodName(o.name) && o.namidx == NamesEnd(map')
    requires map' != [] ==> map'[|map'| - 1].member <= o.member
    ensures GoodMap(map' + [o], n) && NamesEnd(map' + [o]) == o.namidx + |o.name| + 1
  {
    var longer := map' + [o];
    forall i, j | 0 <= i && j == i + 1 < |longer| ensures Follows(longer[i], longer[j]) {
      if j < |map'| {
        assert Follows(map'[i], map'[j]);
      }
    }
  }

  lemma {:induction false} MemberMapGood(map': seq<Orl>, member: nat, syms: seq<Symbol>, n: nat)
    requires GoodMap(map', n) && member < n && (map' != [] ==> map'[|map'| - 1].member <= member)
    requires forall j :: 0 <= j < |syms| ==> GoodName(syms[j].name)
    ensures GoodMap(map' + MemberMap(member, syms, NamesEnd(map')), n)
    decreases |syms|
  {
    var more := MemberMap(member, syms, NamesEnd(map'));
    if syms == [] {
      assert map' + more == map';
    } else if syms[0].wanted {
      var o := Orl(syms[0].name, member, NamesEnd(map'));
      GoodMapMore(map', o, n);
      MemberMapGood(map' + [o], member, syms[1..], n);
      assert map' + more == map' + [o] + MemberMap(member, syms[1..], NamesEnd(map' + [o]));
    } else {
      MemberMapGood(map', member, syms[1..], n);
    }
  }

  predicate GoodSymbols(ms: seq<Member>) {
    forall i, j :: 0 <= i < |ms| && 0 <= j < |ms[i].symbols| ==> GoodName(ms[i].symbols[j].name)
  }

  lemma GoodMapWider(map': seq<Orl>, n: nat, m: nat)
    requires GoodMap(map', n) && n < m
    ensures GoodMap(map', m) && (map' != [] ==> map'[|map'| - 1].member <= n)
  {
  }

  lemma {:induction false} MapOfGood(ms: seq<Member>)
    requires GoodSymbols(ms)
    ensures GoodMap(MapOf(ms), |ms|)
  {
    if ms != [] {
      var n := |ms| - 1;
      assert GoodSymbols(ms[..n]);
      MapOfGood(ms[..n]);
      GoodMapWider(MapOf(ms[..n]), n, |ms|);
      MemberMapGood(MapOf(ms[..n]), n, ms[n].symbols, |ms|);
    }
  }

  lemma {:induction false} InOrder(map': seq<Orl>, n: nat, i: nat, j: nat)
    requires GoodMap(map', n) && i <= j < |map'|
    ensures map'[i].member <= map'[j].member && map'[i].namidx <= map'[j].namidx
    decreases j
  {
    if i < j {
      InOrder(map', n, i, j - 1);
      assert Follows(map'[j - 1], map'[j]);
    }
  }

  lemma GoodPrefix(map': seq<Orl>, n: nat, k: nat)
    requires GoodMap(map', n) && k <= |map'|
    ensures GoodMap(map'[..k], n)
  {
    forall i, j | 0 <= i && j == i + 1 < k ensures Follows(map'[..k][i], map'[..k][j]) {
      assert Follows(map'[i], map'[j]);
    }
  }

  lemma {:induction false} LastStored(map': seq<Orl>, n: nat, k: nat, front: seq<Orl>)
    requires GoodMap(map', n) && k + 1 == |map'| && front == map'[..k] && |Strings(front)| == NamesEnd(front)
    ensures |Strings(map')| == NamesEnd(map') && NameStored(map', k)
  {
    if k > 0 {
      assert Follows(map'[k - 1], map'[k]);
    }
    assert Strings(map') == Strings(front) + map'[k].name + [0];
  }

  lemma {:induction false} StoredStays(map': seq<Orl>, k: nat, front: seq<Orl>, i: nat)
    requires k + 1 == |map'| && front == map'[..k] && i < k && NameStored(front, i)
    ensures NameStored(map', i)
  {
    var tail := map'[k].name + [0];
    assert Strings(map') == Strings(front) + tail;
  }

  /** The names are packed: each one starts at its index and is followed by a NUL. */
  lemma {:induction false} StringsAt(map': seq<Orl>, n: nat)
    requires GoodMap(map', n)
    ensures |Strings(map')| == NamesEnd(map')
    ensures forall i :: 0 <= i < |map'| ==> NameStored(map', i)
  {
    if map' != [] {
      var k := |map'| - 1;
      var front := map'[..k];
      GoodPrefix(map', n, k);
      StringsAt(front, n);
      LastStored(map', n, k, front);
      hide Strings, NameStored, GoodMap;
      forall i | 0 <= i < k ensures NameStored(map', i) {
        StoredStays(map', k, front, i);
      }
    }
  }

  ghost predicate NameStored(map': seq<Orl>, i: nat)
    requires i < |map'|
  {
    var s, o := Strings(map'), map'[i];
    o.namidx + |o.name| < |s| && s[o.namidx..o.namidx + |o.name|] == o.name && s[o.namidx + |o.name|] == 0
  }

  // ---------- predicted positions ----------

  /** coff_write_armap() steps over a member. */
  function CoffNext(ptr: nat, m: Member, thin: bool): nat {
    if thin then ptr + AR_HDR
    else
      var next := ptr + AR_HDR + |m.contents|;
      next + next % 2
  }

  /** bsd_write_armap() steps over a member. */
  function BsdNext(ptr: nat, m: Member): nat {
    var next := ptr + |m.contents| + |m.longName| + AR_HDR;
    next + next % 2
  }

  /** Where member k is predicted when the first is at base. */
  function CoffPosition(ms: seq<Member>, base: nat, thin: bool, k: nat): nat
    requires k <= |ms|
  {
    if k == 0 then base else CoffNext(CoffPosition(ms, base, thin, k - 1), ms[k - 1], thin)
  }

  function BsdPosition(ms: seq<Member>, base: nat, k: nat): nat
    requires k <= |ms|
  {
    if k == 0 then base else BsdNext(BsdPosition(ms, base, k - 1), ms[k - 1])
  }

  predicate NoLongNames(ms: seq<Member>) {
    forall i :: 0 <= i < |ms| ==> ms[i].longName == []
  }

  predicate Even(x: nat) {
    x % 2 == 0
  }

  lemma EvenStep(ptr: nat, size: nat)
    requires Even(ptr)
    ensures ptr + size + (ptr + size) % 2 == ptr + size + size % 2 && Even(ptr + size + size % 2)
  {
  }

  lemma CoffStep(ptr: nat, m: Member, thin: bool)
    requires GoodMember(m) && m.longName == [] && Even(ptr)
    ensures CoffNext(ptr, m, thin) == ptr + |MemberBytes(m, thin)| && Even(CoffNext(ptr, m, thin))
  {
    EvenStep(ptr, AR_HDR);
    EvenStep(ptr + AR_HDR, |m.contents|);
  }

  lemma BsdStep(ptr: nat, m: Member)
    requires GoodMember(m) && Even(ptr)
    ensures BsdNext(ptr, m) == ptr + |MemberBytes(m, false)| && Even(BsdNext(ptr, m))
  {
    StaysEven(ptr, AR_HDR, |m.longName|);
    EvenStep(ptr + AR_HDR + |m.longName|, |m.contents|);
  }

  lemma StaysEven(ptr: nat, header: nat, extra: nat)
    requires Even(ptr) && header == AR_HDR && extra % 4 == 0
    ensures Even(ptr + header + extra)
  {
    var half, q := ptr / 2, extra / 4;
    assert ptr + header + extra == 2 * (half + AR_HDR / 2 + 2 * q);
  }

  lemma BodyStep(ms: seq<Member>, thin: bool, k: nat)
    requires 0 < k <= |ms|
    ensures Body(ms[..k], thin) == Body(ms[..k - 1], thin) + MemberBytes(ms[k - 1], thin)
  {
    assert ms[..k][..k - 1] == ms[..k - 1];
  }

  /** The predictions of coff_write_armap() are where the members will be, for thin archives too. */
  lemma {:induction false} CoffPositionIs(ms: seq<Member>, base: nat, thin: bool, k: nat)
    requires GoodMembers(ms) && NoLongNames(ms) && k <= |ms| && Even(base)
    ensures CoffPosition(ms, base, thin, k) == base + |Body(ms[..k], thin)|
    ensures Even(CoffPosition(ms, base, thin, k))
  {
    if k > 0 {
      CoffPositionIs(ms, base, thin, k - 1);
      CoffStep(CoffPosition(ms, base, thin, k - 1), ms[k - 1], thin);
      BodyStep(ms, thin, k);
    }
  }

  /** So are those of bsd_write_armap() for archives that are not thin. */
  lemma {:induction false} BsdPositionIs(ms: seq<Member>, base: nat, k: nat)
    requires GoodMembers(ms) && k <= |ms| && Even(base)
    ensures BsdPosition(ms, base, k) == base + |Body(ms[..k], false)| && Even(BsdPosition(ms, base, k))
  {
    if k > 0 {
      BsdPositionIs(ms, base, k - 1);
      BsdStep(BsdPosition(ms, base, k - 1), ms[k - 1]);
      BodyStep(ms, false, k);
    }
  }

  /** A member's header is found at its position in the body. */
  lemma {:induction false} HeaderAt(ms: seq<Member>, thin: bool, k: nat)
    requires GoodMembers(ms) && k < |ms|
    ensures |Body(ms[..k], thin)| + AR_HDR <= |Body(ms, thin)|
    ensures Body(ms, thin)[|Body(ms[..k], thin)|..|Body(ms[..k], thin)| + AR_HDR] == ms[k].header
    decreases |ms|
  {
    var n := |ms| - 1;
    if k < n {
      HeaderAt(ms[..n], thin, k);
      assert ms[..n][..k] == ms[..k] && ms[..n][k] == ms[k];
      HeaderKept(Body(ms[..n], thin), MemberBytes(ms[n], thin), |Body(ms[..k], thin)|);
    } else {
      assert GoodMember(ms[n]);
      HeaderLast(Body(ms[..n], thin), ms[n], thin);
    }
  }

  predicate AllEmpty(ms: seq<Member>, k: nat)
    requires k <= |ms|
  {
    forall i :: 0 <= i < k ==> ms[i].contents == []
  }

  /** In a thin archive bsd_write_armap() still steps over the contents that are not there: its prediction for a
      member is right exactly when every member before it is empty. */
  lemma {:induction false} BsdThin(ms: seq<Member>, base: nat, k: nat)
    requires GoodMembers(ms) && k <= |ms| && Even(base)
    ensures Even(BsdPosition(ms, base, k)) && BsdPosition(ms, base, k) >= base + |Body(ms[..k], true)|
    ensures BsdPosition(ms, base, k) == base + |Body(ms[..k], true)| <==> AllEmpty(ms, k)
  {
    if k > 0 {
      BsdThin(ms, base, k - 1);
      BsdStep(BsdPosition(ms, base, k - 1), ms[k - 1]);
      BodyStep(ms, true, k);
      ThinSize(ms[k - 1]);
    }
  }

  lemma ThinSize(m: Member)
    ensures |MemberBytes(m, false)| >= |MemberBytes(m, true)| + |m.contents|
    ensures m.contents == [] ==> |MemberBytes(m, false)| == |MemberBytes(m, true)|
  {
  }

  lemma HeaderKept(head: seq<Byte>, last: seq<Byte>, at: nat)
    requires at + AR_HDR <= |head|
    ensures (head + last)[at..at + AR_HDR] == head[at..at + AR_HDR]
  {
  }

  lemma HeaderLast(head: seq<Byte>, m: Member, thin: bool)
    requires GoodMember(m)
    ensures |head| + AR_HDR <= |head + MemberBytes(m, thin)|
    ensures (head + MemberBytes(m, thin))[|head|..|head| + AR_HDR] == m.header
  {
  }
}
