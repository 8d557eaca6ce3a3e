/** What a program finds on its initial stack, section 3.4.1 of the System V AMD64 psABI. */
module ReadStack {
  import opened Bytes
  import opened InitialStack
  import opened BuildStack

  function WordAt(m: seq<Byte>, addr: nat): nat
    requires addr + 8 <= |m|
  {
    Value(m[addr..addr + 8])
  }

  /** Up to the NUL. */
  function StringAt(m: seq<Byte>, addr: nat): seq<Byte>
    decreases if addr < |m| then |m| - addr else 0
  {
    if addr < |m| && m[addr] != 0 then [m[addr]] + StringAt(m, addr + 1) else []
  }

  /** Strings behind pointers, up to a null pointer. */
  function ReadStrings(m: seq<Byte>, addr: nat): seq<seq<Byte>>
    decreases if addr < |m| then |m| - addr else 0
  {
    if addr + 8 > |m| || WordAt(m, addr) == 0 then []
    else [StringAt(m, WordAt(m, addr))] + ReadStrings(m, addr + 8)
  }

  /** An entry with what its value points to. */
  function ReadEntry(m: seq<Byte>, ty: nat, val: nat): Aux {
    if PointsToString(ty) then Aux(ty, 0, StringAt(m, val))
    else if ty == AT_RANDOM then Aux(ty, 0, if val + 16 <= |m| then m[val..val + 16] else [])
    else Aux(ty, val, [])
  }

  /** The auxiliary vector, up to an entry of type AT_NULL. */
  function ReadAuxv(m: seq<Byte>, addr: nat): seq<Aux>
    decreases if addr < |m| then |m| - addr else 0
  {
    if addr + 16 > |m| || WordAt(m, addr) == 0 then []
    else [ReadEntry(m, WordAt(m, addr), WordAt(m, addr + 8))] + ReadAuxv(m, addr + 16)
  }

  datatype Vectors = Vectors(argc: nat, argv: seq<seq<Byte>>, envp: seq<seq<Byte>>, auxv: seq<Aux>)

  function ReadAll(m: seq<Byte>, rv: nat): Vectors
    requires rv + 8 <= |m|
  {
    var argc := WordAt(m, rv);
    var env := rv + 8 + 8 * (argc + 1);
    var envp := ReadStrings(m, env);
    Vectors(argc, ReadStrings(m, rv + 8), envp, ReadAuxv(m, env + 8 * (|envp| + 1)))
  }

  /** What a program sees of an entry. */
  function Seen(a: Aux, libcBase: nat): seq<Aux> {
    if a.ty == AT_SYSINFO_EHDR || a.ty == AT_HWCAP then []
    else if a.ty == AT_BASE then [Aux(a.ty, libcBase, [])]
    else if a.ty == AT_RANDOM || PointsToString(a.ty) then [Aux(a.ty, 0, a.data)]
    else [Aux(a.ty, a.val, [])]
  }

  function SeenAll(auxv: seq<Aux>, libcBase: nat): seq<Aux> {
    if auxv == [] then [] else Seen(auxv[0], libcBase) + SeenAll(auxv[1..], libcBase)
  }

  // ---------- words and strings in memory ----------

  lemma {:induction false} StringIs(m: seq<Byte>, addr: nat, s: seq<Byte>)
    requires IsString(s) && addr + |s| < |m| && m[addr..addr + |s|] == s && m[addr + |s|] == 0
    ensures StringAt(m, addr) == s
    decreases |s|
  {
    if s != [] {
      assert m[addr] == m[addr..addr + |s|][0] == s[0] && s[0] in s;
      assert m[addr + 1..addr + |s|] == m[addr..addr + |s|][1..] == s[1..];
      StringIs(m, addr + 1, s[1..]);
    }
  }

  lemma {:induction false} ZeroValue(s: seq<Byte>)
    requires forall i :: 0 <= i < |s| ==> s[i] == 0
    ensures Value(s) == 0
  {
    if s != [] {
      ZeroValue(s[1..]);
    }
  }

  /** What stands in memory at an address. */
  ghost function Standing(m: seq<Byte>, addr: nat): iset<seq<Byte>> {
    iset s: seq<Byte> | addr + |s| <= |m| && m[addr..addr + |s|] == s
  }

  /** The items that the word at an address is read as; behind a pointer stand its bytes. */
  ghost function ItemsAt(m: seq<Byte>, addr: nat): iset<Item> {
    iset item: Item | addr + 8 <= |m| && IsRead(m, item, WordAt(m, addr))
  }

  ghost predicate IsRead(m: seq<Byte>, item: Item, word: nat) {
    match item
    case Word(val) => val < WORD64 ==> word == val
    case Pointer(bytes) => 0 < word && bytes in Standing(m, word)
  }

  /** The lists of items that consecutive words are read as. */
  ghost function Readable(m: seq<Byte>, addr: nat): iset<seq<Item>> {
    iset items: seq<Item> | forall k :: 0 <= k < |items| ==> items[k] in ItemsAt(m, addr + 8 * k)
  }

  lemma {:induction false} ReadsParts(m: seq<Byte>, addr: nat, all: seq<Item>, a: seq<Item>, b: seq<Item>, addr': nat)
    requires all in Readable(m, addr) && all == a + b && addr' == addr + 8 * |a|
    ensures a in Readable(m, addr) && b in Readable(m, addr')
  {
    forall k | 0 <= k < |a| ensures a[k] in ItemsAt(m, addr + 8 * k) {
      assert all[k] == a[k];
    }
    forall k | 0 <= k < |b| ensures b[k] in ItemsAt(m, addr' + 8 * k) {
      assert all[|a| + k] == b[k];
      assert addr' + 8 * k == addr + 8 * (|a| + k);
    }
  }

  lemma {:induction false} ReadsOne(m: seq<Byte>, addr: nat, item: Item, one: seq<Item>)
    requires one in Readable(m, addr) && one == [item]
    ensures item in ItemsAt(m, addr)
  {
    assert one[0] in ItemsAt(m, addr + 8 * 0);
  }

  lemma {:induction false} LastReads(m: seq<Byte>, addr: nat, items: seq<Item>, front: seq<Item>, item: Item,
                                     addr': nat)
    requires items == front + [item] && front in Readable(m, addr) && addr' == addr + 8 * |front|
    requires item in ItemsAt(m, addr')
    ensures items in Readable(m, addr)
  {
    forall k | 0 <= k < |items| ensures items[k] in ItemsAt(m, addr + 8 * k) {
      if k < |front| {
        assert front[k] == items[k];
      }
    }
  }

  // ---------- a filled block holds its items ----------

  lemma StandsParts(m: seq<Byte>, addr: nat, s: seq<Byte>, a: seq<Byte>, b: seq<Byte>, addr': nat)
    requires s in Standing(m, addr) && s == a + b && addr' == addr + |a|
    ensures a in Standing(m, addr) && b in Standing(m, addr')
  {
    assert m[addr..addr + |s|][..|a|] == a && m[addr..addr + |s|][|a|..] == b;
  }

  lemma {:induction false} WordReads(m: seq<Byte>, addr: nat, item: Item, word: nat, at: nat)
    requires Little(8, word) in Standing(m, addr) && BytesFor(item) in Standing(m, at) && 0 < at && |m| < WORD64
    requires word == if item.Word? then item.val else at
    ensures item in ItemsAt(m, addr)
  {
    if word < WORD64 {
      WordBack(word);
    }
  }

  /** One more item. */
  lemma {:induction false} NextReads(m: seq<Byte>, rv: nat, pool: nat, items: seq<Item>, front: seq<Item>, item: Item,
                                     q: Progress, p: Progress, word: nat, at: nat)
    requires items == front + [item] && front in Readable(m, rv) && |q.ws| == 8 * |front| && at == pool + |q.ps|
    requires p.ws == q.ws + Little(8, word) && p.ps == q.ps + BytesFor(item)
    requires word == if item.Word? then item.val else at
    requires p.ws in Standing(m, rv) && p.ps in Standing(m, pool) && 0 < pool && |m| < WORD64
    ensures items in Readable(m, rv)
  {
    var addr := rv + 8 * |front|;
    StandsParts(m, rv, p.ws, q.ws, Little(8, word), addr);
    StandsParts(m, pool, p.ps, q.ps, BytesFor(item), at);
    WordReads(m, addr, item, word, at);
    LastReads(m, rv, items, front, item, addr);
  }

  lemma {:induction false} AdvanceLast(items: seq<Item>, front: seq<Item>, item: Item, pool: nat, q: Progress,
                                       p: Progress, word: nat)
    requires items == front + [item] && p == Advance(items, pool) && q == Advance(front, pool)
    requires word == WordFor(q, item, pool)
    ensures p.ws == q.ws + Little(8, word) && p.ps == q.ps + BytesFor(item) && |q.ws| == 8 * |front|
  {
    AdvanceSizes(front, pool);
    assert items[..|front|] == front;
  }

  /** Words and pool that stand in memory are read as the items. */
  lemma {:induction false} ProgressReads(m: seq<Byte>, rv: nat, pool: nat, items: seq<Item>, p: Progress)
    requires p == Advance(items, pool) && p.ws in Standing(m, rv) && p.ps in Standing(m, pool) && 0 < pool
    requires |m| < WORD64
    ensures items in Readable(m, rv)
    decreases |items|
  {
    if items != [] {
      var n := |items| - 1;
      var front, item := items[..n], items[n];
      var q := Advance(front, pool);
      var word, at := WordFor(q, item, pool), pool + |q.ps|;
      AdvanceLast(items, front, item, pool, q, p, word);
      FrontStands(m, rv, p.ws, q.ws, Little(8, word));
      FrontStands(m, pool, p.ps, q.ps, BytesFor(item));
      ProgressReads(m, rv, pool, front, q);
      NextReads(m, rv, pool, items, front, item, q, p, word, at);
    }
  }

  lemma FrontStands(m: seq<Byte>, addr: nat, s: seq<Byte>, a: seq<Byte>, b: seq<Byte>)
    requires s in Standing(m, addr) && s == a + b
    ensures a in Standing(m, addr)
  {
    assert m[addr..addr + |s|][..|a|] == a;
  }

  lemma {:induction false} FilledStands(before: seq<Byte>, b: Block, ws: seq<Byte>, ps: seq<Byte>, m: seq<Byte>)
    requires b.rv + b.size <= |before| && |ws| <= b.area && b.area + |ps| <= b.size && m == Filled(before, b, ws, ps)
    ensures ws in Standing(m, b.rv) && ps in Standing(m, b.rv + b.area)
    ensures Zeros(b.area - |ws|) in Standing(m, b.rv + |ws|)
  {
  }

  lemma {:induction false} ZeroRead(m: seq<Byte>, addr: nat, n: nat)
    requires Zeros(n) in Standing(m, addr) && 8 <= n
    ensures WordAt(m, addr) == 0
  {
    assert m[addr..addr + n] == Zeros(n);
    assert m[addr..addr + 8] == m[addr..addr + n][..8];
    ZeroValue(m[addr..addr + 8]);
  }

  /** What a finished block reads as: its items, then zero. */
  lemma {:induction false} BlockReads(m: seq<Byte>, before: seq<Byte>, b: Block, items: seq<Item>, end: nat)
    requires Holds(m, before, b, items) && 8 * |items| + 16 <= b.area && |m| < WORD64 && end == b.rv + 8 * |items|
    ensures items in Readable(m, b.rv) && end + 16 <= |m| && WordAt(m, end) == 0
  {
    hide Advance, Readable, Standing, WordAt;
    var top: nat, pool: nat :| At(m, before, b, items, top, pool);
    var p := Advance(items, b.rv + b.area);
    AdvanceSizes(items, b.rv + b.area);
    FilledStands(before, b, p.ws, p.ps, m);
    ZeroRead(m, end, b.area - |p.ws|);
    ProgressReads(m, b.rv, b.rv + b.area, items, p);
  }

  // ---------- argv and envp ----------

  lemma {:induction false} StringsCons(ss: seq<seq<Byte>>)
    requires ss != []
    ensures StringItems(ss) == [Pointer(ss[0] + [0])] + StringItems(ss[1..])
    decreases |ss|
  {
    var n := |ss| - 1;
    if n > 0 {
      StringsCons(ss[..n]);
      assert ss[..n][1..] == ss[1..][..n - 1] && ss[1..][n - 1] == ss[n];
    }
  }

  lemma Terminated(m: seq<Byte>, at: nat, s: seq<Byte>, bytes: seq<Byte>)
    requires bytes == s + [0] && bytes in Standing(m, at)
    ensures at + |s| < |m| && m[at..at + |s|] == s && m[at + |s|] == 0
  {
    var slice := m[at..at + |bytes|];
    assert slice[..|s|] == s && slice[|s|] == 0;
  }

  lemma {:induction false} StringRead(m: seq<Byte>, addr: nat, s: seq<Byte>)
    requires Pointer(s + [0]) in ItemsAt(m, addr) && IsString(s)
    ensures WordAt(m, addr) != 0 && StringAt(m, WordAt(m, addr)) == s
  {
    var at := WordAt(m, addr);
    var bytes := s + [0];
    assert IsRead(m, Pointer(bytes), at) && bytes in Standing(m, at);
    Terminated(m, at, s, bytes);
    StringIs(m, at, s);
  }

  /** The strings of a list are read back, when a zero word follows. */
  lemma {:induction false} StringsRead(m: seq<Byte>, addr: nat, ss: seq<seq<Byte>>, end: nat)
    requires StringItems(ss) in Readable(m, addr) && end == addr + 8 * |ss| && Word(0) in ItemsAt(m, end)
    requires forall k :: 0 <= k < |ss| ==> IsString(ss[k])
    ensures ReadStrings(m, addr) == ss
    decreases |ss|
  {
    if ss != [] {
      var first, rest := [Pointer(ss[0] + [0])], StringItems(ss[1..]);
      StringsCons(ss);
      ReadsParts(m, addr, StringItems(ss), first, rest, addr + 8);
      ReadsOne(m, addr, first[0], first);
      StringRead(m, addr, ss[0]);
      StringsRead(m, addr + 8, ss[1..], end);
      assert ss == [ss[0]] + ss[1..];
    }
  }

  // ---------- the auxiliary vector ----------

  lemma {:induction false} AuxvCons(auxv: seq<Aux>, libcBase: nat)
    requires auxv != []
    ensures AuxvItems(auxv, libcBase) == AuxItems(auxv[0], libcBase) + AuxvItems(auxv[1..], libcBase)
    decreases |auxv|
  {
    var n := |auxv| - 1;
    if n > 0 {
      AuxvCons(auxv[..n], libcBase);
      assert auxv[..n][1..] == auxv[1..][..n - 1] && auxv[1..][n - 1] == auxv[n];
    }
  }

  /** One entry is read back. */
  lemma {:induction false} EntryRead(m: seq<Byte>, addr: nat, a: Aux, libcBase: nat, item: Item)
    requires libcBase < WORD64 && GoodAux(a) && AuxItems(a, libcBase) == [Word(a.ty), item]
    requires item in ItemsAt(m, addr)
    ensures [ReadEntry(m, a.ty, WordAt(m, addr))] == Seen(a, libcBase)
  {
    if PointsToString(a.ty) {
      assert item == AuxItems(a, libcBase)[1] == Pointer(a.data + [0]);
      StringRead(m, addr, a.data);
    } else {
      assert item == AuxItems(a, libcBase)[1];
    }
  }

  /** The entry in front of what is read back. */
  lemma {:induction false} AuxvReadCons(m: seq<Byte>, addr: nat, a: Aux, libcBase: nat, first: seq<Item>,
                                        seen: seq<Aux>)
    requires libcBase < WORD64 && GoodAux(a) && first == AuxItems(a, libcBase)
    requires first in Readable(m, addr) && ReadAuxv(m, addr + 8 * |first|) == seen
    ensures ReadAuxv(m, addr) == Seen(a, libcBase) + seen
  {
    if first != [] {
      assert first == [Word(a.ty)] + [first[1]];
      ReadsParts(m, addr, first, [Word(a.ty)], [first[1]], addr + 8);
      ReadsOne(m, addr, Word(a.ty), [Word(a.ty)]);
      ReadsOne(m, addr + 8, first[1], [first[1]]);
      EntryRead(m, addr + 8, a, libcBase, first[1]);
    }
  }

  /** The auxiliary vector is read back, when a zero word follows. */
  lemma {:induction false} AuxvRead(m: seq<Byte>, addr: nat, auxv: seq<Aux>, libcBase: nat, items: seq<Item>, end: nat)
    requires libcBase < WORD64 && items == AuxvItems(auxv, libcBase) && items in Readable(m, addr)
    requires end == addr + 8 * |items| && end + 16 <= |m| && WordAt(m, end) == 0
    requires forall k :: 0 <= k < |auxv| ==> GoodAux(auxv[k])
    ensures ReadAuxv(m, addr) == SeenAll(auxv, libcBase)
    decreases |auxv|
  {
    if auxv != [] {
      var first, rest := AuxItems(auxv[0], libcBase), AuxvItems(auxv[1..], libcBase);
      AuxvCons(auxv, libcBase);
      ReadsParts(m, addr, items, first, rest, addr + 8 * |first|);
      AuxvRead(m, addr + 8 * |first|, auxv[1..], libcBase, rest, end);
      AuxvReadCons(m, addr, auxv[0], libcBase, first, SeenAll(auxv[1..], libcBase));
    }
  }

  // ---------- the whole stack ----------

  /** The five parts of a finished stack. */
  lemma {:induction false} PartsRead(m: seq<Byte>, rv: nat, argv: seq<seq<Byte>>, envp: seq<seq<Byte>>, auxv: seq<Aux>,
                                     libcBase: nat, items: seq<Item>, env: nat, aux: nat)
    requires items in Readable(m, rv) && items == StackItems(argv, envp, auxv, libcBase)
    requires env == rv + 8 + 8 * (|argv| + 1) && aux == env + 8 * (|envp| + 1)
    ensures Word(|argv|) in ItemsAt(m, rv)
    ensures StringItems(argv) in Readable(m, rv + 8) && Word(0) in ItemsAt(m, env - 8)
    ensures StringItems(envp) in Readable(m, env) && Word(0) in ItemsAt(m, aux - 8)
    ensures AuxvItems(auxv, libcBase) in Readable(m, aux)
  {
    var a, e, x := StringItems(argv), StringItems(envp), AuxvItems(auxv, libcBase);
    var b := [Word(|argv|)] + a;
    var c := b + [Word(0)];
    var d := c + e;
    ReadsParts(m, rv, items, d + [Word(0)], x, aux);
    ReadsParts(m, rv, d + [Word(0)], d, [Word(0)], aux - 8);
    ReadsParts(m, rv, d, c, e, env);
    ReadsParts(m, rv, c, b, [Word(0)], env - 8);
    ReadsParts(m, rv, b, [Word(|argv|)], a, rv + 8);
    ReadsOne(m, rv, Word(|argv|), [Word(|argv|)]);
    ReadsOne(m, env - 8, Word(0), [Word(0)]);
    ReadsOne(m, aux - 8, Word(0), [Word(0)]);
  }

  /** The parts put together. */
  lemma {:induction false} AllRead(m: seq<Byte>, rv: nat, v: Vectors, env: nat, aux: nat)
    requires rv + 8 <= |m| && WordAt(m, rv) == v.argc == |v.argv|
    requires env == rv + 8 + 8 * (|v.argv| + 1) && aux == env + 8 * (|v.envp| + 1)
    requires ReadStrings(m, rv + 8) == v.argv && ReadStrings(m, env) == v.envp && ReadAuxv(m, aux) == v.auxv
    ensures ReadAll(m, rv) == v
  {
  }

  lemma {:induction false} ItemCount(argv: seq<seq<Byte>>, envp: seq<seq<Byte>>, auxv: seq<Aux>, libcBase: nat)
    ensures |StackItems(argv, envp, auxv, libcBase)| == 3 + |argv| + |envp| + |AuxvItems(auxv, libcBase)|
  {
  }

  /** A finished stack reads as its items, then zero. */
  lemma {:induction false} StackReads(m: seq<Byte>, before: seq<Byte>, b: Block, argv: seq<seq<Byte>>,
                                      envp: seq<seq<Byte>>, auxv: seq<Aux>, libcBase: nat, items: seq<Item>, end: nat)
    requires GoodInput(argv, envp, auxv) && |m| < WORD64 && items == StackItems(argv, envp, auxv, libcBase)
    requires Holds(m, before, b, items)
    requires b.area == AreaSize(argv, envp, auxv) && b.size == StackSize(argv, envp, auxv)
    requires end == b.rv + 8 * (3 + |argv| + |envp| + |AuxvItems(auxv, libcBase)|)
    ensures items in Readable(m, b.rv) && end + 16 <= |m| && WordAt(m, end) == 0
  {
    SizesFit(argv, envp, auxv, libcBase);
    ItemCount(argv, envp, auxv, libcBase);
    BlockReads(m, before, b, items, end);
  }

  /** The strings of a finished stack. */
  lemma {:induction false} StringVectorsRead(m: seq<Byte>, argv: seq<seq<Byte>>, arg: nat, envp: seq<seq<Byte>>,
                                             env: nat, aux: nat)
    requires (forall k :: 0 <= k < |argv| ==> IsString(argv[k])) && (forall k :: 0 <= k < |envp| ==> IsString(envp[k]))
    requires env == arg + 8 * (|argv| + 1) && aux == env + 8 * (|envp| + 1)
    requires StringItems(argv) in Readable(m, arg) && Word(0) in ItemsAt(m, env - 8)
    requires StringItems(envp) in Readable(m, env) && Word(0) in ItemsAt(m, aux - 8)
    ensures ReadStrings(m, arg) == argv && ReadStrings(m, env) == envp
  {
    StringsRead(m, arg, argv, env - 8);
    StringsRead(m, env, envp, aux - 8);
  }

  lemma {:induction false} ArgcRead(m: seq<Byte>, rv: nat, argc: nat)
    requires Word(argc) in ItemsAt(m, rv) && argc < WORD64
    ensures rv + 8 <= |m| && WordAt(m, rv) == argc
  {
  }

  /** argv, envp and the auxiliary vector of a finished stack. */
  lemma {:induction false} VectorsRead(m: seq<Byte>, rv: nat, argv: seq<seq<Byte>>, envp: seq<seq<Byte>>,
                                       auxv: seq<Aux>, libcBase: nat, items: seq<Item>, last: seq<Item>,
                                       env: nat, aux: nat, end: nat)
    requires GoodInput(argv, envp, auxv) && |argv| < WORD64 && libcBase < WORD64
    requires env == rv + 8 + 8 * (|argv| + 1) && aux == env + 8 * (|envp| + 1)
    requires items in Readable(m, rv) && items == StackItems(argv, envp, auxv, libcBase)
    requires last == AuxvItems(auxv, libcBase) && end == aux + 8 * |last| && end + 16 <= |m| && WordAt(m, end) == 0
    ensures ReadAll(m, rv) == Vectors(|argv|, argv, envp, SeenAll(auxv, libcBase))
  {
    PartsRead(m, rv, argv, envp, auxv, libcBase, items, env, aux);
    ArgcRead(m, rv, |argv|);
    StringVectorsRead(m, argv, rv + 8, envp, env, aux);
    AuxvRead(m, aux, auxv, libcBase, last, end);
    AllRead(m, rv, Vectors(|argv|, argv, envp, SeenAll(auxv, libcBase)), env, aux);
  }

  /** Reading the finished stack recovers argc, argv, envp and the auxiliary vector, without the entries that are
      dropped and with AT_BASE replaced. */
  lemma {:induction false} StackRead(m: seq<Byte>, before: seq<Byte>, b: Block, argv: seq<seq<Byte>>,
                                     envp: seq<seq<Byte>>, auxv: seq<Aux>, libcBase: nat, items: seq<Item>)
    requires GoodInput(argv, envp, auxv) && |argv| < WORD64 && libcBase < WORD64 && |m| < WORD64
    requires Holds(m, before, b, items) && items == StackItems(argv, envp, auxv, libcBase)
    requires b.area == AreaSize(argv, envp, auxv) && b.size == StackSize(argv, envp, auxv)
    ensures b.rv + 8 <= |m| && ReadAll(m, b.rv) == Vectors(|argv|, argv, envp, SeenAll(auxv, libcBase))
  {
    var last := AuxvItems(auxv, libcBase);
    var env := b.rv + 8 + 8 * (|argv| + 1);
    var aux := env + 8 * (|envp| + 1);
    StackReads(m, before, b, argv, envp, auxv, libcBase, items, aux + 8 * |last|);
    VectorsRead(m, b.rv, argv, envp, auxv, libcBase, items, last, env, aux, aux + 8 * |last|);
  }

  /** Nothing but the block is written. */
  lemma {:induction false} StackFrame(m: seq<Byte>, before: seq<Byte>, b: Block, items: seq<Item>)
    requires Holds(m, before, b, items)
    ensures |m| == |before| && b.rv + b.size <= |m|
    ensures m[..b.rv] == before[..b.rv] && m[b.rv + b.size..] == before[b.rv + b.size..]
  {
    var top: nat, pool: nat :| At(m, before, b, items, top, pool);
    var p := Advance(items, b.rv + b.area);
    assert m == Filled(before, b, p.ws, p.ps);
  }
}
