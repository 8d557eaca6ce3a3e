/** The initial stack of main.c: sizes summed first, then written, and what a program reads from it. */
module InitialStack {
  import opened Bytes

  const WORD64: nat := 0x1_0000_0000_0000_0000

  const AT_BASE: nat := 7
  const AT_PLATFORM: nat := 15
  const AT_HWCAP: nat := 16
  const AT_RANDOM: nat := 25
  const AT_EXECFN: nat := 31
  const AT_SYSINFO_EHDR: nat := 33

  /** An entry of the auxiliary vector, with what its value points to where it is a pointer. */
  datatype Aux = Aux(ty: nat, val: nat, data: seq<Byte>)

  predicate IsString(s: seq<Byte>) {
    0 !in s
  }

  predicate PointsToString(ty: nat) {
    ty == AT_PLATFORM || ty == AT_EXECFN
  }

  predicate GoodAux(a: Aux) {
    && 0 < a.ty < WORD64 && a.val < WORD64
    && (PointsToString(a.ty) ==> IsString(a.data)) && (a.ty == AT_RANDOM ==> |a.data| == 16)
  }

  // ---------- words in memory ----------

  function Little(k: nat, x: nat): (s: seq<Byte>)
    ensures |s| == k
    decreases k, x
  {
    if k == 0 then []
    else
      var b: Byte := x % 256;
      [b] + Little(k - 1, x / 256)
  }

  function Value(s: seq<Byte>): nat {
    if s == [] then 0 else
      var b: nat := s[0];
      b + 256 * Value(s[1..])
  }

  function Power256(k: nat): nat {
    if k == 0 then 1 else 256 * Power256(k - 1)
  }

  lemma {:induction false} ValueLittle(k: nat, x: nat)
    requires x < Power256(k)
    ensures Value(Little(k, x)) == x
    decreases k
  {
    if k > 0 {
      ValueLittle(k - 1, x / 256);
      assert Little(k, x)[1..] == Little(k - 1, x / 256);
    }
  }

  lemma WordBack(x: nat)
    requires x < WORD64
    ensures Value(Little(8, x)) == x
  {
    assert Power256(4) == 4294967296 && Power256(8) == WORD64 by {
      assert Power256(1) == 256 && Power256(2) == 65536 && Power256(3) == 16777216;
      assert Power256(5) == 1099511627776 && Power256(6) == 281474976710656 && Power256(7) == 72057594037927936;
    }
    ValueLittle(8, x);
  }

  function Zeros(n: nat): (s: seq<Byte>)
    ensures |s| == n && forall i :: 0 <= i < n ==> s[i] == 0
  {
    seq(n, i => 0)
  }

  // ---------- what is written ----------

  /** A word, or a pointer to bytes that go to the pool. */
  datatype Item = Word(val: nat) | Pointer(bytes: seq<Byte>)

  function Pool(items: seq<Item>): seq<Byte> {
    if items == [] then []
    else Pool(items[..|items| - 1]) + if items[|items| - 1].Pointer? then items[|items| - 1].bytes else []
  }

  /** The bytes written so far to the pointer area and to the pool. */
  datatype Progress = Progress(ws: seq<Byte>, ps: seq<Byte>)

  /** The word written for an item, when the pool begins at an address. */
  function WordFor(p: Progress, item: Item, pool: nat): nat {
    match item
    case Word(val) => val
    case Pointer(_) => pool + |p.ps|
  }

  function BytesFor(item: Item): seq<Byte> {
    match item
    case Word(_) => []
    case Pointer(bytes) => bytes
  }

  function Next(p: Progress, item: Item, pool: nat): Progress {
    Progress(p.ws + Little(8, WordFor(p, item, pool)), p.ps + BytesFor(item))
  }

  /** The progress after some items. */
  function Advance(items: seq<Item>, pool: nat): Progress {
    if items == [] then Progress([], []) else Next(Advance(items[..|items| - 1], pool), items[|items| - 1], pool)
  }

  lemma {:induction false} AdvanceWord(items: seq<Item>, longer: seq<Item>, val: nat, pool: nat, p: Progress,
                                       p': Progress)
    requires longer == items + [Word(val)] && p == Advance(items, pool) && p' == Advance(longer, pool)
    ensures p'.ws == p.ws + Little(8, val) && p'.ps == p.ps
  {
    assert longer[..|items|] == items;
    assert p.ps + [] == p.ps;
  }

  lemma {:induction false} AdvancePointer(items: seq<Item>, longer: seq<Item>, bytes: seq<Byte>, pool: nat,
                                          p: Progress, p': Progress, address: nat)
    requires longer == items + [Pointer(bytes)] && p == Advance(items, pool) && p' == Advance(longer, pool)
    requires address == pool + |p.ps|
    ensures p'.ws == p.ws + Little(8, address) && p'.ps == p.ps + bytes
  {
    assert longer[..|items|] == items;
  }

  lemma {:induction false} AdvanceSizes(items: seq<Item>, pool: nat)
    ensures |Advance(items, pool).ws| == 8 * |items| && |Advance(items, pool).ps| == |Pool(items)|
  {
    if items != [] {
      AdvanceSizes(items[..|items| - 1], pool);
    }
  }

  function StringItems(ss: seq<seq<Byte>>): (items: seq<Item>)
    ensures |items| == |ss|
  {
    if ss == [] then [] else StringItems(ss[..|ss| - 1]) + [Pointer(ss[|ss| - 1] + [0])]
  }

  function AuxItems(a: Aux, libcBase: nat): seq<Item> {
    if a.ty == AT_SYSINFO_EHDR || a.ty == AT_HWCAP then []
    else if a.ty == AT_BASE then [Word(a.ty), Word(libcBase)]
    else if a.ty == AT_RANDOM then [Word(a.ty), Pointer(a.data)]
    else if PointsToString(a.ty) then [Word(a.ty), Pointer(a.data + [0])]
    else [Word(a.ty), Word(a.val)]
  }

  function AuxvItems(auxv: seq<Aux>, libcBase: nat): seq<Item> {
    if auxv == [] then [] else AuxvItems(auxv[..|auxv| - 1], libcBase) + AuxItems(auxv[|auxv| - 1], libcBase)
  }

  /** Everything, in the order in which it is written. */
  function StackItems(argv: seq<seq<Byte>>, envp: seq<seq<Byte>>, auxv: seq<Aux>, libcBase: nat): seq<Item> {
    [Word(|argv|)] + StringItems(argv) + [Word(0)] + StringItems(envp) + [Word(0)] + AuxvItems(auxv, libcBase)
  }

  // ---------- sizes ----------

  function StringBytes(ss: seq<seq<Byte>>): nat {
    if ss == [] then 0 else StringBytes(ss[..|ss| - 1]) + |ss[|ss| - 1]| + 1
  }

  function AuxBytes(auxv: seq<Aux>): nat {
    if auxv == [] then 0
    else
      var a := auxv[|auxv| - 1];
      AuxBytes(auxv[..|auxv| - 1]) +
        if PointsToString(a.ty) then |a.data| + 1 else if a.ty == AT_RANDOM then 16 else 0
  }

  function AreaSize(argv: seq<seq<Byte>>, envp: seq<seq<Byte>>, auxv: seq<Aux>): nat {
    8 + 8 * (|argv| + 1) + 8 * (|envp| + 1) + 16 * (|auxv| + 1)
  }

  function StackSize(argv: seq<seq<Byte>>, envp: seq<seq<Byte>>, auxv: seq<Aux>): nat {
    AreaSize(argv, envp, auxv) + StringBytes(argv) + StringBytes(envp) + AuxBytes(auxv)
  }

  lemma PoolMore(items: seq<Item>, item: Item)
    ensures Pool(items + [item]) == Pool(items) + if item.Pointer? then item.bytes else []
  {
    assert (items + [item])[..|items|] == items;
  }

  lemma {:induction false} PoolAppend(a: seq<Item>, b: seq<Item>)
    ensures Pool(a + b) == Pool(a) + Pool(b)
  {
    if b == [] {
      assert a + b == a;
    } else {
      var n := |b| - 1;
      PoolAppend(a, b[..n]);
      assert a + b == a + b[..n] + [b[n]] && b == b[..n] + [b[n]];
      PoolMore(a + b[..n], b[n]);
    }
  }

  lemma {:induction false} StringPool(ss: seq<seq<Byte>>)
    ensures |Pool(StringItems(ss))| == StringBytes(ss)
  {
    if ss != [] {
      var n := |ss| - 1;
      StringPool(ss[..n]);
      PoolMore(StringItems(ss[..n]), Pointer(ss[n] + [0]));
    }
  }

  lemma {:induction false} AuxPool(auxv: seq<Aux>, libcBase: nat)
    requires forall i :: 0 <= i < |auxv| ==> GoodAux(auxv[i])
    ensures |Pool(AuxvItems(auxv, libcBase))| == AuxBytes(auxv) && |AuxvItems(auxv, libcBase)| <= 2 * |auxv|
  {
    hide Pool, AuxItems, GoodAux;
    if auxv == [] {
      EmptyPool();
    } else {
      var n := |auxv| - 1;
      AuxPool(auxv[..n], libcBase);
      PoolAppend(AuxvItems(auxv[..n], libcBase), AuxItems(auxv[n], libcBase));
      OneAuxPool(auxv[n], libcBase);
    }
  }

  function PoolPart(item: Item): seq<Byte> {
    if item.Pointer? then item.bytes else []
  }

  lemma EmptyPool()
    ensures Pool([]) == []
  {
  }

  lemma PairPool(x: Item, y: Item)
    ensures Pool([x, y]) == PoolPart(x) + PoolPart(y)
  {
    assert [x, y][..1] == [x] && [x][..0] == [];
    assert Pool([x]) == PoolPart(x);
  }

  lemma OneAuxPool(a: Aux, libcBase: nat)
    requires GoodAux(a)
    ensures |Pool(AuxItems(a, libcBase))| ==
      if PointsToString(a.ty) then |a.data| + 1 else if a.ty == AT_RANDOM then 16 else 0
    ensures |AuxItems(a, libcBase)| <= 2
  {
    var items := AuxItems(a, libcBase);
    if items == [] {
      assert Pool(items) == [];
    } else {
      hide Pool;
      PairPool(items[0], items[1]);
      assert items == [items[0], items[1]];
    }
  }

  /** What is written is exactly as large as the sizes say, and the pointer area keeps room for a final zero
      entry of the auxiliary vector. */
  lemma SizesFit(argv: seq<seq<Byte>>, envp: seq<seq<Byte>>, auxv: seq<Aux>, libcBase: nat)
    requires forall i :: 0 <= i < |auxv| ==> GoodAux(auxv[i])
    ensures var items := StackItems(argv, envp, auxv, libcBase);
      && AreaSize(argv, envp, auxv) + |Pool(items)| == StackSize(argv, envp, auxv)
      && 8 * |items| + 16 <= AreaSize(argv, envp, auxv)
  {
    var a, b := [Word(|argv|)] + StringItems(argv) + [Word(0)], StringItems(envp) + [Word(0)];
    StringPool(argv);
    StringPool(envp);
    AuxPool(auxv, libcBase);
    PoolMore([], Word(|argv|));
    assert [] + [Word(|argv|)] == [Word(|argv|)];
    PoolAppend([Word(|argv|)], StringItems(argv));
    PoolMore([Word(|argv|)] + StringItems(argv), Word(0));
    PoolAppend(a, StringItems(envp));
    PoolMore(a + StringItems(envp), Word(0));
    PoolAppend(a + StringItems(envp) + [Word(0)], AuxvItems(auxv, libcBase));
  }
}
