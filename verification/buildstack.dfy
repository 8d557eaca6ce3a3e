/** extract_elf_load_data() and build_stack() of main.c, on an array whose indices are addresses. */
module BuildStack {
  import opened Bytes
  import opened InitialStack

  predicate GoodInput(argv: seq<seq<Byte>>, envp: seq<seq<Byte>>, auxv: seq<Aux>) {
    && (forall i :: 0 <= i < |argv| ==> IsString(argv[i])) && (forall i :: 0 <= i < |envp| ==> IsString(envp[i]))
    && (forall i :: 0 <= i < |auxv| ==> GoodAux(auxv[i]))
  }

  /** The loops of extract_elf_load_data() that sum the sizes. */
  method ExtractElfLoadData(argv: seq<seq<Byte>>, envp: seq<seq<Byte>>, auxv: seq<Aux>)
    returns (stackSize: nat, arrayAreaSize: nat)
    ensures stackSize == StackSize(argv, envp, auxv) && arrayAreaSize == AreaSize(argv, envp, auxv)
  {
    stackSize, arrayAreaSize := 8, 8;
    var strings := SumStrings(argv);
    stackSize := stackSize + strings + (|argv| + 1) * 8;
    arrayAreaSize := arrayAreaSize + (|argv| + 1) * 8;
    strings := SumStrings(envp);
    stackSize := stackSize + strings + (|envp| + 1) * 8;
    arrayAreaSize := arrayAreaSize + (|envp| + 1) * 8;
    var i := 0;
    while i < |auxv|
      invariant 0 <= i <= |auxv|
      invariant stackSize == arrayAreaSize + StringBytes(argv) + StringBytes(envp) + AuxBytes(auxv[..i])
    {
      if auxv[i].ty == AT_PLATFORM {
        stackSize := stackSize + |auxv[i].data| + 1;
      } else if auxv[i].ty == AT_RANDOM {
        stackSize := stackSize + 16;
      } else if auxv[i].ty == AT_EXECFN {
        stackSize := stackSize + |auxv[i].data| + 1;
      }
      assert auxv[..i + 1][..i] == auxv[..i];
      i := i + 1;
    }
    assert auxv[..|auxv|] == auxv;
    stackSize := stackSize + (|auxv| + 1) * 16;
    arrayAreaSize := arrayAreaSize + (|auxv| + 1) * 16;
  }

  method SumStrings(ss: seq<seq<Byte>>) returns (sum: nat)
    ensures sum == StringBytes(ss)
  {
    sum := 0;
    var i := 0;
    while i < |ss|
      invariant 0 <= i <= |ss| && sum == StringBytes(ss[..i])
    {
      assert ss[..i + 1][..i] == ss[..i];
      sum := sum + |ss[i]| + 1;
      i := i + 1;
    }
    assert ss[..|ss|] == ss;
  }

  // ---------- memory while it is written ----------

  function Splice(m: seq<Byte>, at: nat, s: seq<Byte>): seq<Byte>
    requires at + |s| <= |m|
  {
    m[..at] + s + m[at + |s|..]
  }

  /** The block that is written: where it begins, how large its pointer area is, and its whole size. */
  datatype Block = Block(rv: nat, area: nat, size: nat)

  /** Memory with the block filled in as far as these words and this part of the pool. */
  function Filled(before: seq<Byte>, b: Block, ws: seq<Byte>, pool: seq<Byte>): (m: seq<Byte>)
    requires b.rv + b.size <= |before| && |ws| <= b.area && b.area + |pool| <= b.size
    ensures |m| == |before|
  {
    before[..b.rv] + ws + Zeros(b.area - |ws|) + pool + Zeros(b.size - b.area - |pool|) + before[b.rv + b.size..]
  }

  /** Writing to the front of a stretch of zeros. */
  lemma SpliceZeros(a: seq<Byte>, n: nat, s: seq<Byte>, r: seq<Byte>)
    requires |s| <= n
    ensures Splice(a + Zeros(n) + r, |a|, s) == a + s + Zeros(n - |s|) + r
  {
    assert (a + Zeros(n) + r)[..|a|] == a;
    assert (a + Zeros(n) + r)[|a| + |s|..] == Zeros(n - |s|) + r;
  }

  lemma FilledWord(before: seq<Byte>, b: Block, ws: seq<Byte>, pool: seq<Byte>, s: seq<Byte>)
    requires b.rv + b.size <= |before| && |ws| + |s| <= b.area && b.area + |pool| <= b.size
    ensures b.rv + |ws| + |s| <= |before|
    ensures Splice(Filled(before, b, ws, pool), b.rv + |ws|, s) == Filled(before, b, ws + s, pool)
  {
    var head, n := before[..b.rv], b.area - |ws|;
    var r := pool + Zeros(b.size - b.area - |pool|) + before[b.rv + b.size..];
    SpliceZeros(head + ws, n, s, r);
    assert Filled(before, b, ws, pool) == head + ws + Zeros(n) + r;
    assert Filled(before, b, ws + s, pool) == head + ws + s + Zeros(n - |s|) + r;
  }

  lemma FilledPool(before: seq<Byte>, b: Block, ws: seq<Byte>, pool: seq<Byte>, s: seq<Byte>)
    requires b.rv + b.size <= |before| && |ws| <= b.area && b.area + |pool| + |s| <= b.size
    ensures Splice(Filled(before, b, ws, pool), b.rv + b.area + |pool|, s) == Filled(before, b, ws, pool + s)
  {
    var head, n := before[..b.rv] + ws + Zeros(b.area - |ws|) + pool, b.size - b.area - |pool|;
    SpliceZeros(head, n, s, before[b.rv + b.size..]);
    assert before[..b.rv] + ws + Zeros(b.area - |ws|) + (pool + s) == head + s;
  }

  // ---------- the writers ----------

  /** A store of consecutive bytes. */
  method Store(mem: array<Byte>, at: nat, s: seq<Byte>)
    requires at + |s| <= mem.Length
    modifies mem
    ensures mem[..] == Splice(old(mem[..]), at, s)
  {
    forall i | 0 <= i < |s| {
      mem[at + i] := s[i];
    }
  }

  /** Memory, and the pointers top and pool, at some progress. */
  ghost predicate Stage(mem: seq<Byte>, before: seq<Byte>, b: Block, p: Progress, top: nat, pool: nat) {
    && b.rv + b.size <= |before| && |p.ws| <= b.area && b.area + |p.ps| <= b.size
    && mem == Filled(before, b, p.ws, p.ps) && top == b.rv + |p.ws| && pool == b.rv + b.area + |p.ps|
  }

  lemma StageWord(mem: seq<Byte>, mem': seq<Byte>, before: seq<Byte>, b: Block, p: Progress, p': Progress,
                  top: nat, pool: nat, s: seq<Byte>)
    requires Stage(mem, before, b, p, top, pool) && |p.ws| + |s| <= b.area
    requires top + |s| <= |mem| && mem' == Splice(mem, top, s) && p'.ws == p.ws + s && p'.ps == p.ps
    ensures Stage(mem', before, b, p', top + |s|, pool)
  {
    FilledWord(before, b, p.ws, p.ps, s);
  }

  lemma StagePool(mem: seq<Byte>, mem': seq<Byte>, before: seq<Byte>, b: Block, p: Progress, p': Progress,
                  top: nat, pool: nat, s: seq<Byte>)
    requires Stage(mem, before, b, p, top, pool) && b.area + |p.ps| + |s| <= b.size
    requires pool + |s| <= |mem| && mem' == Splice(mem, pool, s) && p'.ws == p.ws && p'.ps == p.ps + s
    ensures Stage(mem', before, b, p', top, pool + |s|)
  {
    FilledPool(before, b, p.ws, p.ps, s);
  }

  /** The NUL after a string is in memory already. */
  lemma StageNul(mem: seq<Byte>, before: seq<Byte>, b: Block, p: Progress, p': Progress, top: nat, pool: nat)
    requires Stage(mem, before, b, p, top, pool) && b.area + |p.ps| + 1 <= b.size
    requires p'.ws == p.ws && p'.ps == p.ps + [0]
    ensures Stage(mem, before, b, p', top, pool + 1)
  {
    FilledNul(before, b, p.ws, p.ps);
  }

  lemma FilledNul(before: seq<Byte>, b: Block, ws: seq<Byte>, ps: seq<Byte>)
    requires b.rv + b.size <= |before| && |ws| <= b.area && b.area + |ps| + 1 <= b.size
    ensures Filled(before, b, ws, ps + [0]) == Filled(before, b, ws, ps)
  {
    var n := b.size - b.area - |ps|;
    assert Zeros(n) == [0] + Zeros(n - 1);
  }

  /** writeval(val) */
  method WriteVal(mem: array<Byte>, top0: nat, pool: nat, val: nat, ghost before: seq<Byte>, ghost b: Block,
                  ghost p: Progress, ghost p': Progress) returns (top: nat)
    requires Stage(mem[..], before, b, p, top0, pool) && |p.ws| + 8 <= b.area
    requires p'.ws == p.ws + Little(8, val) && p'.ps == p.ps
    modifies mem
    ensures Stage(mem[..], before, b, p', top, pool)
  {
    ghost var m := mem[..];
    Store(mem, top0, Little(8, val));
    StageWord(m, mem[..], before, b, p, p', top0, pool, Little(8, val));
    top := top0 + 8;
  }

  /** Bytes for the pool, with room for a NUL after them if it is a string. */
  method WritePool(mem: array<Byte>, ghost top: nat, pool0: nat, s: seq<Byte>, isString: bool, ghost before: seq<Byte>,
                   ghost b: Block, ghost p: Progress, ghost p': Progress) returns (pool: nat)
    requires Stage(mem[..], before, b, p, top, pool0) && b.area + |p'.ps| <= b.size
    requires p'.ws == p.ws && p'.ps == p.ps + if isString then s + [0] else s
    modifies mem
    ensures Stage(mem[..], before, b, p', top, pool)
  {
    ghost var m, mid := mem[..], Progress(p.ws, p.ps + s);
    Store(mem, pool0, s);
    StagePool(m, mem[..], before, b, p, mid, top, pool0, s);
    pool := pool0 + |s|;
    if isString {
      assert p'.ps == mid.ps + [0];
      StageNul(mem[..], before, b, mid, p', top, pool);
      pool := pool + 1;
    }
  }

  /** What is still to be written fits. */
  ghost predicate Fits(b: Block, all: seq<Item>) {
    8 * |all| <= b.area && b.area + |Pool(all)| <= b.size
  }

  lemma {:induction false} PoolPrefix(items: seq<Item>, all: seq<Item>)
    requires items <= all
    ensures |Pool(items)| <= |Pool(all)|
    decreases |all|
  {
    if items != all {
      assert items <= all[..|all| - 1];
      PoolPrefix(items, all[..|all| - 1]);
    }
  }

  lemma {:induction false} WordRoom(limit: nat, items: seq<Item>, longer: seq<Item>, all: seq<Item>, item: Item,
                                    pool: nat, p: Progress)
    requires longer == items + [item] && |longer| <= |all| && 8 * |all| <= limit && p == Advance(items, pool)
    ensures |p.ws| + 8 <= limit
  {
    AdvanceSizes(items, pool);
  }

  lemma {:induction false} PoolRoom(limit: nat, longer: seq<Item>, all: seq<Item>, pool: nat, p: Progress)
    requires longer <= all && |Pool(all)| <= limit && p == Advance(longer, pool)
    ensures |p.ps| <= limit
  {
    AdvanceSizes(longer, pool);
    PoolPrefix(longer, all);
  }

  /** Memory holds these items. */
  ghost predicate At(mem: seq<Byte>, before: seq<Byte>, b: Block, items: seq<Item>, top: nat, pool: nat) {
    Stage(mem, before, b, Advance(items, b.rv + b.area), top, pool)
  }

  lemma {:induction false} WordFacts(b: Block, all: seq<Item>, items: seq<Item>, longer: seq<Item>, val: nat,
                                     p: Progress, p': Progress)
    requires Fits(b, all) && longer == items + [Word(val)] && longer <= all
    requires p == Advance(items, b.rv + b.area) && p' == Advance(longer, b.rv + b.area)
    ensures |p.ws| + 8 <= b.area && p'.ws == p.ws + Little(8, val) && p'.ps == p.ps
  {
    hide Advance, Pool;
    WordRoom(b.area, items, longer, all, Word(val), b.rv + b.area, p);
    AdvanceWord(items, longer, val, b.rv + b.area, p, p');
  }

  /** A value. */
  method PushWord(mem: array<Byte>, top0: nat, pool: nat, val: nat, ghost before: seq<Byte>, ghost b: Block,
                  ghost all: seq<Item>, ghost items: seq<Item>, ghost longer: seq<Item>) returns (top: nat)
    requires At(mem[..], before, b, items, top0, pool)
    requires Fits(b, all) && longer == items + [Word(val)] && longer <= all
    modifies mem
    ensures At(mem[..], before, b, longer, top, pool)
  {
    ghost var p, p' := Advance(items, b.rv + b.area), Advance(longer, b.rv + b.area);
    hide Advance, Stage, Fits, Little;
    WordFacts(b, all, items, longer, val, p, p');
    top := WriteVal(mem, top0, pool, val, before, b, p, p');
  }

  function StringBytesOf(s: seq<Byte>, isString: bool): seq<Byte> {
    if isString then s + [0] else s
  }

  /** The address of the pool, and bytes for it. */
  method PushPointer(mem: array<Byte>, top0: nat, pool0: nat, s: seq<Byte>, isString: bool, ghost before: seq<Byte>,
                     ghost b: Block, ghost all: seq<Item>, ghost items: seq<Item>, ghost longer: seq<Item>)
    returns (top: nat, pool: nat)
    requires At(mem[..], before, b, items, top0, pool0)
    requires Fits(b, all) && longer == items + [Pointer(StringBytesOf(s, isString))] && longer <= all
    modifies mem
    ensures At(mem[..], before, b, longer, top, pool)
  {
    ghost var p, p' := Advance(items, b.rv + b.area), Advance(longer, b.rv + b.area);
    PointerFacts(b, all, items, longer, StringBytesOf(s, isString), p, p', pool0);
    top, pool := WritePointer(mem, top0, pool0, s, isString, before, b, p, p');
  }

  lemma {:induction false} PointerFacts(b: Block, all: seq<Item>, items: seq<Item>, longer: seq<Item>, bytes: seq<Byte>,
                                        p: Progress, p': Progress, pool: nat)
    requires Fits(b, all) && longer == items + [Pointer(bytes)] && longer <= all && pool == b.rv + b.area + |p.ps|
    requires p == Advance(items, b.rv + b.area) && p' == Advance(longer, b.rv + b.area)
    ensures |p.ws| + 8 <= b.area && b.area + |p'.ps| <= b.size
    ensures p'.ws == p.ws + Little(8, pool) && p'.ps == p.ps + bytes
  {
    hide Advance;
    WordRoom(b.area, items, longer, all, Pointer(bytes), b.rv + b.area, p);
    PoolRoom(b.size - b.area, longer, all, b.rv + b.area, p');
    AdvancePointer(items, longer, bytes, b.rv + b.area, p, p', pool);
  }

  method WritePointer(mem: array<Byte>, top0: nat, pool0: nat, s: seq<Byte>, isString: bool, ghost before: seq<Byte>,
                      ghost b: Block, ghost p: Progress, ghost p': Progress) returns (top: nat, pool: nat)
    requires Stage(mem[..], before, b, p, top0, pool0) && |p.ws| + 8 <= b.area && b.area + |p'.ps| <= b.size
    requires p'.ws == p.ws + Little(8, pool0) && p'.ps == p.ps + StringBytesOf(s, isString)
    modifies mem
    ensures Stage(mem[..], before, b, p', top, pool)
  {
    ghost var mid := Progress(p'.ws, p.ps);
    top := WriteVal(mem, top0, pool0, pool0, before, b, p, mid);
    pool := WritePool(mem, top, pool0, s, isString, before, b, mid, p');
  }

  /** The loops that write argv and envp. */
  method WriteStrings(mem: array<Byte>, top0: nat, pool0: nat, ss: seq<seq<Byte>>, ghost before: seq<Byte>,
                      ghost b: Block, ghost all: seq<Item>, ghost items: seq<Item>, ghost longer: seq<Item>)
    returns (top: nat, pool: nat)
    requires At(mem[..], before, b, items, top0, pool0)
    requires Fits(b, all) && longer == items + StringItems(ss) && longer <= all
    modifies mem
    ensures At(mem[..], before, b, longer, top, pool)
  {
    hide At, Fits;
    top, pool := top0, pool0;
    var i := 0;
    ghost var done := items;
    assert ss[..|ss|] == ss;
    while i < |ss|
      invariant 0 <= i <= |ss| && done == items + StringItems(ss[..i])
      invariant At(mem[..], before, b, done, top, pool)
    {
      ghost var more := items + StringItems(ss[..i + 1]);
      StringsStep(items, ss, i, done, more);
      top, pool := PushPointer(mem, top, pool, ss[i], true, before, b, all, done, more);
      done := more;
      i := i + 1;
    }
    assert ss[..|ss|] == ss;
    assert done == longer;
  }

  lemma {:induction false} StringItemsPrefix(ss: seq<seq<Byte>>, i: nat)
    requires i <= |ss|
    ensures StringItems(ss[..i]) <= StringItems(ss)
    decreases |ss|
  {
    if i < |ss| {
      StringItemsPrefix(ss[..|ss| - 1], i);
      assert ss[..|ss| - 1][..i] == ss[..i];
    } else {
      assert ss[..i] == ss;
    }
  }

  lemma {:induction false} StringsStep(items: seq<Item>, ss: seq<seq<Byte>>, i: nat, done: seq<Item>, more: seq<Item>)
    requires i < |ss| && done == items + StringItems(ss[..i]) && more == items + StringItems(ss[..i + 1])
    ensures more == done + [Pointer(StringBytesOf(ss[i], true))] && more <= items + StringItems(ss)
  {
    StringItemsMore(ss[..i], ss[..i + 1], ss[i]);
    StringItemsPrefix(ss, i + 1);
    Extended(items, StringItems(ss[..i]), StringItems(ss[..i + 1]), [Pointer(ss[i] + [0])], StringItems(ss));
  }

  lemma StringItemsMore(ss: seq<seq<Byte>>, longer: seq<seq<Byte>>, s: seq<Byte>)
    requires longer == ss + [s]
    ensures StringItems(longer) == StringItems(ss) + [Pointer(s + [0])]
  {
    assert longer[..|ss|] == ss;
  }

  lemma Extended(items: seq<Item>, a: seq<Item>, b: seq<Item>, c: seq<Item>, all: seq<Item>)
    requires b == a + c && b <= all
    ensures items + b == items + a + c && items + b <= items + all
  {
  }

  /** One entry of the auxiliary vector. */
  method WriteAux(mem: array<Byte>, top0: nat, pool0: nat, a: Aux, libcBase: nat, ghost before: seq<Byte>,
                  ghost b: Block, ghost all: seq<Item>, ghost items: seq<Item>, ghost longer: seq<Item>)
    returns (top: nat, pool: nat)
    requires At(mem[..], before, b, items, top0, pool0)
    requires Fits(b, all) && longer == items + AuxItems(a, libcBase) && longer <= all
    modifies mem
    ensures At(mem[..], before, b, longer, top, pool)
  {
    top, pool := top0, pool0;
    if a.ty == AT_SYSINFO_EHDR || a.ty == AT_HWCAP {
      assert longer == items;
      return;
    }
    ghost var mid := items + [Word(a.ty)];
    assert mid <= longer && longer == mid + [AuxItems(a, libcBase)[1]];
    top := PushWord(mem, top, pool, a.ty, before, b, all, items, mid);
    if a.ty == AT_BASE {
      top := PushWord(mem, top, pool, libcBase, before, b, all, mid, longer);
    } else if a.ty == AT_RANDOM || PointsToString(a.ty) {
      top, pool := PushPointer(mem, top, pool, a.data, PointsToString(a.ty), before, b, all, mid, longer);
    } else {
      top := PushWord(mem, top, pool, a.val, before, b, all, mid, longer);
    }
  }

  /** The loop over the auxiliary vector. */
  method WriteAuxv(mem: array<Byte>, top0: nat, pool0: nat, auxv: seq<Aux>, libcBase: nat, ghost before: seq<Byte>,
                   ghost b: Block, ghost all: seq<Item>, ghost items: seq<Item>)
    returns (top: nat, pool: nat)
    requires At(mem[..], before, b, items, top0, pool0)
    requires Fits(b, all) && all == items + AuxvItems(auxv, libcBase)
    modifies mem
    ensures At(mem[..], before, b, all, top, pool)
  {
    top, pool := top0, pool0;
    var i := 0;
    ghost var done := items;
    while i < |auxv|
      invariant 0 <= i <= |auxv| && done == items + AuxvItems(auxv[..i], libcBase)
      invariant At(mem[..], before, b, done, top, pool)
    {
      ghost var more := items + AuxvItems(auxv[..i + 1], libcBase);
      AuxvStep(items, auxv, libcBase, i, done, more);
      top, pool := WriteAux(mem, top, pool, auxv[i], libcBase, before, b, all, done, more);
      done := more;
      i := i + 1;
    }
    assert auxv[..|auxv|] == auxv;
  }

  lemma {:induction false} AuxvItemsPrefix(auxv: seq<Aux>, libcBase: nat, i: nat)
    requires i <= |auxv|
    ensures AuxvItems(auxv[..i], libcBase) <= AuxvItems(auxv, libcBase)
    decreases |auxv|
  {
    if i < |auxv| {
      AuxvItemsPrefix(auxv[..|auxv| - 1], libcBase, i);
      assert auxv[..|auxv| - 1][..i] == auxv[..i];
    } else {
      assert auxv[..i] == auxv;
    }
  }

  lemma {:induction false} AuxvStep(items: seq<Item>, auxv: seq<Aux>, libcBase: nat, i: nat, done: seq<Item>,
                                    more: seq<Item>)
    requires i < |auxv| && done == items + AuxvItems(auxv[..i], libcBase)
    requires more == items + AuxvItems(auxv[..i + 1], libcBase)
    ensures more == done + AuxItems(auxv[i], libcBase) && more <= items + AuxvItems(auxv, libcBase)
  {
    AuxvItemsMore(auxv[..i], auxv[..i + 1], auxv[i], libcBase);
    AuxvItemsPrefix(auxv, libcBase, i + 1);
    Extended(items, AuxvItems(auxv[..i], libcBase), AuxvItems(auxv[..i + 1], libcBase), AuxItems(auxv[i], libcBase),
             AuxvItems(auxv, libcBase));
  }

  lemma AuxvItemsMore(auxv: seq<Aux>, longer: seq<Aux>, a: Aux, libcBase: nat)
    requires longer == auxv + [a]
    ensures AuxvItems(longer, libcBase) == AuxvItems(auxv, libcBase) + AuxItems(a, libcBase)
  {
    assert longer[..|auxv|] == auxv;
  }

  /** memset() of the block. */
  method Clear(mem: array<Byte>, rv: nat, size: nat)
    requires rv + size <= mem.Length
    modifies mem
    ensures mem[..] == Splice(old(mem[..]), rv, Zeros(size))
  {
    forall i | rv <= i < rv + size {
      mem[i] := 0;
    }
  }

  lemma {:induction false} Cleared(before: seq<Byte>, mem: seq<Byte>, b: Block)
    requires b.rv + b.size <= |before| && b.area <= b.size && mem == Splice(before, b.rv, Zeros(b.size))
    ensures At(mem, before, b, [], b.rv, b.rv + b.area)
  {
    var n, m := b.area, b.size - b.area;
    assert Zeros(b.size) == [] + Zeros(n) + [] + Zeros(m);
    assert Filled(before, b, [], []) == mem;
  }

  /** The parts of what is written. */
  lemma {:induction false} Parts(argv: seq<seq<Byte>>, envp: seq<seq<Byte>>, auxv: seq<Aux>, libcBase: nat,
                                 a: seq<Item>, c: seq<Item>, d: seq<Item>, e: seq<Item>, f: seq<Item>)
    requires a == [] + [Word(|argv|)] && c == a + StringItems(argv) && d == c + [Word(0)]
    requires e == d + StringItems(envp) && f == e + [Word(0)]
    ensures StackItems(argv, envp, auxv, libcBase) == f + AuxvItems(auxv, libcBase)
    ensures var all := f + AuxvItems(auxv, libcBase);
      a <= all && c <= all && d <= all && e <= all && f <= all
  {
  }

  /** Everything from argc to the last entry of the auxiliary vector; a to f are what has been written after
      each part. */
  method WriteAll(mem: array<Byte>, top0: nat, pool0: nat, argv: seq<seq<Byte>>, envp: seq<seq<Byte>>, auxv: seq<Aux>,
                  libcBase: nat, ghost before: seq<Byte>, ghost bl: Block, ghost all: seq<Item>, ghost a: seq<Item>,
                  ghost c: seq<Item>, ghost d: seq<Item>, ghost e: seq<Item>, ghost f: seq<Item>)
    returns (top: nat, pool: nat)
    requires At(mem[..], before, bl, [], top0, pool0) && Fits(bl, all)
    requires a == [] + [Word(|argv|)] && c == a + StringItems(argv) && d == c + [Word(0)]
    requires e == d + StringItems(envp) && f == e + [Word(0)] && all == f + AuxvItems(auxv, libcBase)
    requires a <= all && c <= all && d <= all && e <= all && f <= all
    modifies mem
    ensures At(mem[..], before, bl, all, top, pool)
  {
    top, pool := top0, pool0;
    top := PushWord(mem, top, pool, |argv|, before, bl, all, [], a);
    top, pool := WriteStrings(mem, top, pool, argv, before, bl, all, a, c);
    top := PushWord(mem, top, pool, 0, before, bl, all, c, d);
    top, pool := WriteStrings(mem, top, pool, envp, before, bl, all, d, e);
    top := PushWord(mem, top, pool, 0, before, bl, all, e, f);
    top, pool := WriteAuxv(mem, top, pool, auxv, libcBase, before, bl, all, f);
  }

  /** Rounding down to a multiple of 16. */
  function AlignDown(x: nat): (y: nat)
    ensures y % 16 == 0 && y <= x < y + 16
  {
    x - x % 16
  }

  /** build_stack(): the block lies below the old top, aligned, and holds exactly the items. */
  method Build(mem: array<Byte>, stackTop: nat, argv: seq<seq<Byte>>, envp: seq<seq<Byte>>, auxv: seq<Aux>,
               libcBase: nat, stackSize: nat, arrayAreaSize: nat) returns (rv: nat)
    requires forall i :: 0 <= i < |auxv| ==> GoodAux(auxv[i])
    requires stackSize == StackSize(argv, envp, auxv) && arrayAreaSize == AreaSize(argv, envp, auxv)
    requires stackSize + 15 <= stackTop <= mem.Length
    modifies mem
    ensures rv == AlignDown(stackTop - stackSize)
    ensures Holds(mem[..], old(mem[..]), Block(rv, arrayAreaSize, stackSize), StackItems(argv, envp, auxv, libcBase))
  {
    rv := AlignDown(stackTop - stackSize);
    ghost var before, bl := mem[..], Block(rv, arrayAreaSize, stackSize);
    SizesFit(argv, envp, auxv, libcBase);
    Clear(mem, rv, stackSize);
    Cleared(before, mem[..], bl);
    ghost var a := [] + [Word(|argv|)];
    ghost var c := a + StringItems(argv);
    ghost var d := c + [Word(0)];
    ghost var e := d + StringItems(envp);
    ghost var f := e + [Word(0)];
    ghost var all := StackItems(argv, envp, auxv, libcBase);
    Parts(argv, envp, auxv, libcBase, a, c, d, e, f);
    var top, pool := WriteAll(mem, rv, rv + arrayAreaSize, argv, envp, auxv, libcBase, before, bl, all, a, c, d, e, f);
  }

  /** Memory outside the block is as before; inside it are the items. */
  ghost predicate Holds(mem: seq<Byte>, before: seq<Byte>, b: Block, items: seq<Item>) {
    exists top: nat, pool: nat :: At(mem, before, b, items, top, pool)
  }
}
