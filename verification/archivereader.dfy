/** The readers of archive.c, and what they recover from a written map. */
module ArchiveReader {
  import opened Bytes
  import opened Options
  import opened Archive
  import opened ArchiveWriter

  /** carsym: a symbol as read back, with the file position of the member that defines it. */
  datatype Carsym = Carsym(name: seq<Byte>, fileOffset: nat)

  /** strlen() from a position, in an area that a NUL follows. */
  function StrLen(area: seq<Byte>, pos: nat): (n: nat)
    ensures pos <= |area| ==> pos + n <= |area|
    decreases if pos <= |area| then |area| - pos else 0
  {
    if pos < |area| && area[pos] != 0 then 1 + StrLen(area, pos + 1) else 0
  }

  function NameAt(area: seq<Byte>, pos: nat): seq<Byte> {
    if pos <= |area| then area[pos..pos + StrLen(area, pos)] else []
  }

  /** The name stored at a position is the one up to the NUL. */
  lemma {:induction false} StrLenIs(area: seq<Byte>, pos: nat, k: nat)
    requires pos + k < |area| && area[pos + k] == 0 && 0 !in area[pos..pos + k]
    ensures StrLen(area, pos) == k
    decreases k
  {
    if k > 0 {
      assert area[pos] == area[pos..pos + k][0] && area[pos + 1..pos + k] == area[pos..pos + k][1..];
      StrLenIs(area, pos + 1, k - 1);
    }
  }

  // ---------- do_slurp_coff_armap() ----------

  /** The symbols from symbol i and string position pos on. */
  function CoffSymbols(offsets: seq<Byte>, area: seq<Byte>, n: nat, i: nat, pos: nat): seq<Carsym>
    requires i <= n && |offsets| == 4 * n
    decreases n - i
  {
    if i == n then []
    else
      [Carsym(NameAt(area, pos), Get32(true, offsets[4 * i..4 * i + 4]))] +
        CoffSymbols(offsets, area, n, i + 1, pos + |NameAt(area, pos)| + 1)
  }

  /** What do_slurp_coff_armap() makes of a map of parsedSize bytes at the start of the rest of the file. */
  function SlurpCoff(data: seq<Byte>, parsedSize: nat): Option<seq<Carsym>> {
    if |data| < 4 then None
    else
      var n := Get32(true, data[..4]);
      if parsedSize < 4 + 4 * n || |data| < parsedSize then None
      else Some(CoffSymbols(data[4..4 + 4 * n], data[4 + 4 * n..parsedSize], n, 0, 0))
  }

  method DoSlurpCoffArmap(data: seq<Byte>, parsedSize: nat) returns (r: Option<seq<Carsym>>)
    ensures r == SlurpCoff(data, parsedSize)
  {
    if |data| < 4 {
      return None;
    }
    var nsymz := Get32(true, data[..4]);
    if parsedSize < 4 * nsymz + 4 || |data| < parsedSize {
      return None;
    }
    var raw, area := data[4..4 + 4 * nsymz], data[4 + 4 * nsymz..parsedSize];
    var symdefs := new Carsym[nsymz];
    FillCoff(symdefs, raw, area);
    return Some(symdefs[..]);
  }

  /** Its loop, which fills the symbol table. */
  method FillCoff(symdefs: array<Carsym>, raw: seq<Byte>, area: seq<Byte>)
    requires |raw| == 4 * symdefs.Length
    modifies symdefs
    ensures symdefs[..] == CoffSymbols(raw, area, symdefs.Length, 0, 0)
  {
    hide CoffSymbols, NameAt, Get32;
    var i: nat, stringbase: nat, n := 0, 0, symdefs.Length;
    while i < n
      invariant i <= n
      invariant symdefs[..i] + CoffSymbols(raw, area, n, i, stringbase) == CoffSymbols(raw, area, n, 0, 0)
    {
      var name := NameAt(area, stringbase);
      var sym := Carsym(name, Get32(true, raw[4 * i..4 * i + 4]));
      CoffSymbolsStep(raw, area, n, i, stringbase, name, stringbase + |name| + 1);
      Moved(symdefs[..i], sym, CoffSymbols(raw, area, n, i + 1, stringbase + |name| + 1));
      symdefs[i] := sym;
      stringbase := stringbase + |name| + 1;
      i := i + 1;
    }
    CoffSymbolsEnd(raw, area, n, stringbase);
  }

  lemma Moved(a: seq<Carsym>, s: Carsym, b: seq<Carsym>)
    ensures a + ([s] + b) == a + [s] + b
  {
  }

  // ---------- do_slurp_bsd_armap() ----------

  function BsdSymbol(be: bool, entry: seq<Byte>, area: seq<Byte>): Carsym
    requires |entry| == 8
  {
    Carsym(NameAt(area, Get32(be, entry[..4])), Get32(be, entry[4..]))
  }

  function BsdSymbols(be: bool, entries: seq<Byte>, area: seq<Byte>, n: nat): seq<Carsym>
    requires |entries| >= 8 * n
  {
    if n == 0 then []
    else BsdSymbols(be, entries, area, n - 1) + [BsdSymbol(be, entries[8 * (n - 1)..8 * (n - 1) + 8], area)]
  }

  function StringArea(data: seq<Byte>, stringbase: nat, parsedSize: nat): seq<Byte>
    requires parsedSize <= |data|
  {
    if stringbase <= parsedSize then data[stringbase..parsedSize] else []
  }

  /** What do_slurp_bsd_armap() makes of a map of parsedSize bytes. The string area begins after the string
      size, which is not looked at. */
  function SlurpBsd(be: bool, data: seq<Byte>, parsedSize: nat): Option<seq<Carsym>> {
    if |data| < parsedSize || parsedSize < 4 then None
    else
      var n := Get32(be, data[..4]) / 8;
      if n * 8 > parsedSize - 4 then None
      else Some(BsdSymbols(be, data[4..4 + 8 * n], StringArea(data, 8 + 8 * n, parsedSize), n))
  }

  method DoSlurpBsdArmap(be: bool, data: seq<Byte>, parsedSize: nat) returns (r: Option<seq<Carsym>>)
    ensures r == SlurpBsd(be, data, parsedSize)
  {
    hide BsdSymbols, Get32, StringArea;
    if |data| < parsedSize || parsedSize < 4 {
      return None;
    }
    var count := Get32(be, data[..4]) / 8;
    if count * 8 > parsedSize - 4 {
      return None;
    }
    var symdefs := new Carsym[count];
    FillBsd(be, symdefs, data[4..4 + 8 * count], StringArea(data, 8 + 8 * count, parsedSize));
    return Some(symdefs[..]);
  }

  method FillBsd(be: bool, symdefs: array<Carsym>, entries: seq<Byte>, area: seq<Byte>)
    requires |entries| == 8 * symdefs.Length
    modifies symdefs
    ensures symdefs[..] == BsdSymbols(be, entries, area, symdefs.Length)
  {
    var counter: nat, rbase: nat := 0, 0;
    while counter < symdefs.Length
      invariant counter <= symdefs.Length && rbase == 8 * counter
      invariant symdefs[..counter] == BsdSymbols(be, entries, area, counter)
    {
      symdefs[counter] := Carsym(NameAt(area, Get32(be, entries[rbase..rbase + 4])),
                                 Get32(be, entries[rbase + 4..rbase + 8]));
      assert entries[rbase..rbase + 8][..4] == entries[rbase..rbase + 4];
      assert entries[rbase..rbase + 8][4..] == entries[rbase + 4..rbase + 8];
      counter := counter + 1;
      rbase := rbase + 8;
    }
  }

  // ---------- reading back what was written ----------

  lemma NameBefore(s: seq<Byte>, pad: seq<Byte>, at: nat, name: seq<Byte>)
    requires at + |name| < |s| && s[at..at + |name|] == name && s[at + |name|] == 0 && GoodName(name)
    ensures NameAt(s + pad, at) == name
  {
    var area := s + pad;
    assert area[at..at + |name|] == s[at..at + |name|];
    StrLenIs(area, at, |name|);
  }

  lemma NameStands(map': seq<Orl>, n: nat, i: nat)
    requires GoodMap(map', n) && i < |map'|
    ensures NameStored(map', i) && GoodName(map'[i].name)
  {
    hide Strings, NameStored, GoodName;
    StringsAt(map', n);
  }

  /** A name is read back from the string area, whatever padding follows it. */
  lemma NameBack(map': seq<Orl>, n: nat, i: nat, pad: seq<Byte>)
    requires GoodMap(map', n) && i < |map'|
    ensures NameAt(Strings(map') + pad, map'[i].namidx) == map'[i].name
  {
    hide Strings, NameAt, GoodMap;
    NameStands(map', n, i);
    NameBefore(Strings(map'), pad, map'[i].namidx, map'[i].name);
  }

  lemma {:induction false} CoffOffsetAt(ms: seq<Member>, map': seq<Orl>, base: nat, thin: bool, k: nat, i: nat)
    requires i < k <= |map'| && forall j :: 0 <= j < |map'| ==> map'[j].member < |ms|
    ensures CoffOffsets(ms, map', base, thin, k)[4 * i..4 * i + 4] ==
      Put32(true, U32(CoffPosition(ms, base, thin, map'[i].member)))
  {
    var head := CoffOffsets(ms, map', base, thin, k - 1);
    if i < k - 1 {
      CoffOffsetAt(ms, map', base, thin, k - 1, i);
      Prefix(head, CoffOffsets(ms, map', base, thin, k), 4 * i, 4 * i + 4);
    }
  }

  lemma Prefix(a: seq<Byte>, b: seq<Byte>, i: nat, j: nat)
    requires i <= j <= |a| && a <= b
    ensures b[i..j] == a[i..j]
  {
  }

  /** What a COFF map says: each symbol with the position of its member. */
  function CoffExpected(ms: seq<Member>, map': seq<Orl>, base: nat, thin: bool): (cs: seq<Carsym>)
    requires forall j :: 0 <= j < |map'| ==> map'[j].member < |ms|
    ensures |cs| == |map'|
  {
    seq(|map'|, i requires 0 <= i < |map'| =>
      Carsym(map'[i].name, CoffPosition(ms, base, thin, map'[i].member)))
  }

  lemma CoffSymbolIs(ms: seq<Member>, map': seq<Orl>, base: nat, thin: bool, pad: seq<Byte>, i: nat)
    requires GoodMap(map', |ms|) && CoffFit(ms, map', base, thin, |map'|) && i < |map'|
    ensures NameAt(Strings(map') + pad, map'[i].namidx) == map'[i].name
    ensures Get32(true, CoffOffsets(ms, map', base, thin, |map'|)[4 * i..4 * i + 4]) ==
      CoffPosition(ms, base, thin, map'[i].member)
    ensures map'[i].namidx + |map'[i].name| + 1 == if i + 1 < |map'| then map'[i + 1].namidx else NamesEnd(map')
  {
    NameBack(map', |ms|, i, pad);
    CoffOffsetAt(ms, map', base, thin, |map'|, i);
    CoffFitLess(ms, map', base, thin, i + 1, |map'|);
    GetPut32(true, CoffPosition(ms, base, thin, map'[i].member));
    if i + 1 < |map'| {
      assert Follows(map'[i], map'[i + 1]);
    }
  }

  lemma {:induction false} CoffSymbolsStep(offsets: seq<Byte>, area: seq<Byte>, n: nat, i: nat, pos: nat,
                                           name: seq<Byte>, next: nat)
    requires i < n && |offsets| == 4 * n && name == NameAt(area, pos) && next == pos + |name| + 1
    ensures CoffSymbols(offsets, area, n, i, pos) ==
      [Carsym(name, Get32(true, offsets[4 * i..4 * i + 4]))] + CoffSymbols(offsets, area, n, i + 1, next)
  {
  }

  lemma {:induction false} CoffSymbolsEnd(offsets: seq<Byte>, area: seq<Byte>, n: nat, pos: nat)
    requires |offsets| == 4 * n
    ensures CoffSymbols(offsets, area, n, n, pos) == []
  {
  }

  lemma {:induction false} CoffSymbolsAre(ms: seq<Member>, map': seq<Orl>, base: nat, thin: bool, pad: seq<Byte>,
                                          i: nat, pos: nat)
    requires GoodMap(map', |ms|) && CoffFit(ms, map', base, thin, |map'|) && i <= |map'|
    requires pos == if i < |map'| then map'[i].namidx else NamesEnd(map')
    ensures CoffSymbols(CoffOffsets(ms, map', base, thin, |map'|), Strings(map') + pad, |map'|, i, pos) ==
      CoffExpected(ms, map', base, thin)[i..]
    decreases |map'| - i
  {
    hide CoffOffsets, Strings, CoffSymbols, NameAt, Get32, CoffPosition;
    var offsets, area := CoffOffsets(ms, map', base, thin, |map'|), Strings(map') + pad;
    if i < |map'| {
      CoffSymbolIs(ms, map', base, thin, pad, i);
      var next := pos + |map'[i].name| + 1;
      CoffSymbolsStep(offsets, area, |map'|, i, pos, map'[i].name, next);
      CoffSymbolsAre(ms, map', base, thin, pad, i + 1, next);
      FirstOf(CoffExpected(ms, map', base, thin), i);
    } else {
      CoffSymbolsEnd(offsets, area, i, pos);
    }
  }

  lemma FirstOf(cs: seq<Carsym>, i: nat)
    requires i < |cs|
    ensures cs[i..] == [cs[i]] + cs[i + 1..]
  {
  }

  /** Reading a written COFF map gives back every symbol with its member's position, in order. */
  lemma CoffRoundTrip(ms: seq<Member>, map': seq<Orl>, base: nat, thin: bool, pad: bool, rest: seq<Byte>)
    requires GoodMap(map', |ms|) && |map'| < WORD32 && CoffFit(ms, map', base, thin, |map'|)
    ensures var data := CoffData(ms, map', base, thin, pad);
      SlurpCoff(data + rest, |data|) == Some(CoffExpected(ms, map', base, thin))
  {
    var data := CoffData(ms, map', base, thin, pad);
    var n := |map'|;
    var count, offsets := Put32(true, n), CoffOffsets(ms, map', base, thin, n);
    var area := Strings(map') + if pad then [0] else [];
    GetPut32(true, n);
    CoffParts(count, offsets, Strings(map'), if pad then [0] else [], rest);
    if n > 0 {
      CoffSymbolsAre(ms, map', base, thin, if pad then [0] else [], 0, 0);
    } else {
      CoffSymbolsAre(ms, map', base, thin, if pad then [0] else [], 0, NamesEnd(map'));
    }
    assert CoffExpected(ms, map', base, thin)[0..] == CoffExpected(ms, map', base, thin);
  }

  lemma CoffParts(count: seq<Byte>, offsets: seq<Byte>, strings: seq<Byte>, pad: seq<Byte>, rest: seq<Byte>)
    requires |count| == 4
    ensures var data := count + offsets + strings + pad;
      && (data + rest)[..4] == count && (data + rest)[4..4 + |offsets|] == offsets
      && (data + rest)[4 + |offsets|..|data|] == strings + pad
  {
  }

  lemma {:induction false} BsdEntryAt(be: bool, ms: seq<Member>, map': seq<Orl>, base: nat, k: nat, i: nat)
    requires i < k <= |map'| && forall j :: 0 <= j < |map'| ==> map'[j].member < |ms|
    ensures BsdEntries(be, ms, map', base, k)[8 * i..8 * i + 8] == BsdEntry(be, ms, map'[i], base)
  {
    var head := BsdEntries(be, ms, map', base, k - 1);
    if i < k - 1 {
      BsdEntryAt(be, ms, map', base, k - 1, i);
      Prefix(head, BsdEntries(be, ms, map', base, k), 8 * i, 8 * i + 8);
    }
  }

  function BsdExpected(ms: seq<Member>, map': seq<Orl>, base: nat, k: nat): (cs: seq<Carsym>)
    requires k <= |map'| && forall j :: 0 <= j < |map'| ==> map'[j].member < |ms|
    ensures |cs| == k
  {
    seq(k, i requires 0 <= i < k => Carsym(map'[i].name, BsdPosition(ms, base, map'[i].member)))
  }

  lemma BsdSymbolIs(be: bool, ms: seq<Member>, map': seq<Orl>, base: nat, pad: seq<Byte>, i: nat)
    requires GoodMap(map', |ms|) && BsdFit(ms, map', base, |map'|) && i < |map'| && NamesEnd(map') < WORD32
    ensures BsdSymbol(be, BsdEntries(be, ms, map', base, |map'|)[8 * i..8 * i + 8], Strings(map') + pad) ==
      Carsym(map'[i].name, BsdPosition(ms, base, map'[i].member))
  {
    BsdEntryAt(be, ms, map', base, |map'|, i);
    BsdFitLess(ms, map', base, i + 1, |map'|);
    InOrder(map', |ms|, i, |map'| - 1);
    BsdEntryBack(be, ms, map'[i], base);
    NameBack(map', |ms|, i, pad);
  }

  lemma {:induction false} BsdSymbolsAre(be: bool, ms: seq<Member>, map': seq<Orl>, base: nat, pad: seq<Byte>, k: nat)
    requires GoodMap(map', |ms|) && BsdFit(ms, map', base, |map'|) && k <= |map'| && NamesEnd(map') < WORD32
    ensures BsdSymbols(be, BsdEntries(be, ms, map', base, |map'|), Strings(map') + pad, k) ==
      BsdExpected(ms, map', base, k)
  {
    hide BsdEntries, Strings;
    if k > 0 {
      BsdSymbolsAre(be, ms, map', base, pad, k - 1);
      BsdSymbolIs(be, ms, map', base, pad, k - 1);
      ExpectedStep(ms, map', base, k);
    }
  }

  lemma ExpectedStep(ms: seq<Member>, map': seq<Orl>, base: nat, k: nat)
    requires 0 < k <= |map'| && forall j :: 0 <= j < |map'| ==> map'[j].member < |ms|
    ensures BsdExpected(ms, map', base, k) ==
      BsdExpected(ms, map', base, k - 1) + [Carsym(map'[k - 1].name, BsdPosition(ms, base, map'[k - 1].member))]
  {
  }

  lemma BsdEntryBack(be: bool, ms: seq<Member>, o: Orl, base: nat)
    requires o.member < |ms| && o.namidx < WORD32 && BsdPosition(ms, base, o.member) < WORD32
    ensures Get32(be, BsdEntry(be, ms, o, base)[..4]) == o.namidx
    ensures Get32(be, BsdEntry(be, ms, o, base)[4..]) == BsdPosition(ms, base, o.member)
  {
    var a, b := Put32(be, o.namidx), Put32(be, BsdPosition(ms, base, o.member));
    assert (a + b)[..4] == a && (a + b)[4..] == b;
    GetPut32(be, o.namidx);
    GetPut32(be, BsdPosition(ms, base, o.member));
  }

  /** Reading a written BSD map, in either byte order, gives back every symbol with its member's position. */
  lemma BsdRoundTrip(be: bool, ms: seq<Member>, map': seq<Orl>, base: nat, rest: seq<Byte>)
    requires GoodMap(map', |ms|) && |map'| * 8 < WORD32 && NamesEnd(map') < WORD32
    requires BsdFit(ms, map', base, |map'|)
    ensures var data := BsdData(be, ms, map', base, NamesEnd(map'));
      SlurpBsd(be, data + rest, |data|) == Some(BsdExpected(ms, map', base, |map'|))
  {
    var n, stridx := |map'|, NamesEnd(map');
    var pad: seq<Byte> := if stridx % 2 == 1 then [0] else [];
    GetPut32(be, n * 8);
    Eighth(n);
    BsdSymbolsAre(be, ms, map', base, pad, n);
    BsdSlurped(be, n, BsdEntries(be, ms, map', base, n), Put32(be, BsdStringSize(stridx)), Strings(map'), pad, rest);
  }

  lemma BsdSlurped(be: bool, n: nat, entries: seq<Byte>, size: seq<Byte>, strings: seq<Byte>, pad: seq<Byte>,
                   rest: seq<Byte>)
    requires n * 8 < WORD32 && |entries| == 8 * n && |size| == 4
    requires Get32(be, Put32(be, n * 8)) / 8 == n
    ensures var data := Put32(be, n * 8) + entries + size + strings + pad;
      SlurpBsd(be, data + rest, |data|) == Some(BsdSymbols(be, entries, strings + pad, n))
  {
    BsdParts(Put32(be, n * 8), entries, size, strings, pad, rest);
  }

  lemma Eighth(n: nat)
    ensures n * 8 / 8 == n
  {
  }

  lemma BsdParts(count: seq<Byte>, entries: seq<Byte>, size: seq<Byte>, strings: seq<Byte>, pad: seq<Byte>,
                 rest: seq<Byte>)
    requires |count| == 4 && |size| == 4
    ensures var data := count + entries + size + strings + pad;
      && (data + rest)[..4] == count && (data + rest)[4..4 + |entries|] == entries
      && (data + rest)[8 + |entries|..|data|] == strings + pad
  {
  }

  // ---------- whole archives ----------

  /** The headers have their sizes, and nothing in front of the members overflows 32 bits. */
  predicate GoodFile(magic: seq<Byte>, mapHdr: seq<Byte>, tableHdr: seq<Byte>, etable: seq<Byte>, ms: seq<Member>) {
    && |magic| == SARMAG && |mapHdr| == AR_HDR && |tableHdr| == AR_HDR && GoodMembers(ms) && GoodSymbols(ms)
    && 8 * |MapOf(ms)| + NamesEnd(MapOf(ms)) + |etable| + 100 < WORD32
  }

  /** Sizes as computed in 32 bits are the true ones. */
  lemma CoffSizes(ms: seq<Member>, map': seq<Orl>, base: nat, thin: bool, tableHdr: seq<Byte>, etable: seq<Byte>)
    requires GoodMap(map', |ms|) && |tableHdr| == AR_HDR
    requires 8 * |map'| + NamesEnd(map') + |etable| + 100 < WORD32
    ensures var size := CoffMapSize(|map'|, NamesEnd(map'));
      var data := CoffData(ms, map', base, thin, size % 2 == 1);
      && |data| == Padded(size)
      && CoffBase(|map'|, NamesEnd(map'), TableLength(|etable|)) ==
           SARMAG + AR_HDR + |data| + |NameTable(tableHdr, etable)|
      && Even(CoffBase(|map'|, NamesEnd(map'), TableLength(|etable|)))
  {
    StringsAt(map', |ms|);
    TableSize(tableHdr, etable);
    var size := CoffMapSize(|map'|, NamesEnd(map'));
    assert size == NamesEnd(map') + 4 * |map'| + 4;
    EvenStep(0, size);
    EvenParts(Padded(size), TableLength(|etable|));
  }

  lemma EvenParts(a: nat, b: nat)
    requires Even(a) && Even(b)
    ensures Even(a + b + AR_HDR + SARMAG)
  {
  }

  lemma TableSize(tableHdr: seq<Byte>, etable: seq<Byte>)
    requires |tableHdr| == AR_HDR && |etable| + 100 < WORD32
    ensures TableLength(|etable|) == |NameTable(tableHdr, etable)| <= |etable| + 61 && Even(TableLength(|etable|))
  {
  }

  /** In an archive with a COFF map, thin or not, the map that is read back names every symbol with the position
      at which the header of its member stands. */
  lemma CoffArchivePoints(magic: seq<Byte>, mapHdr: seq<Byte>, tableHdr: seq<Byte>, etable: seq<Byte>,
                          ms: seq<Member>, thin: bool, i: nat)
    requires GoodFile(magic, mapHdr, tableHdr, etable, ms) && NoLongNames(ms) && i < |MapOf(ms)|
    requires CoffArchive(magic, mapHdr, tableHdr, etable, ms, thin).Some?
    ensures MapOf(ms)[i].member < |ms|
    ensures var file := CoffArchive(magic, mapHdr, tableHdr, etable, ms, thin).value;
      var syms := SlurpCoff(file[SARMAG + AR_HDR..], Padded(CoffMapSize(|MapOf(ms)|, NamesEnd(MapOf(ms)))));
      && syms.Some? && |syms.value| == |MapOf(ms)| && syms.value[i].name == MapOf(ms)[i].name
      && HeaderStands(file, syms.value[i].fileOffset, ms[MapOf(ms)[i].member])
  {
    var map' := MapOf(ms);
    MapMembers(ms);
    MapOfGood(ms);
    var size := CoffMapSize(|map'|, NamesEnd(map'));
    var base := CoffBase(|map'|, NamesEnd(map'), TableLength(|etable|));
    var data := CoffData(ms, map', base, thin, size % 2 == 1);
    var table, body := NameTable(tableHdr, etable), Body(ms, thin);
    CoffSizes(ms, map', base, thin, tableHdr, etable);
    CoffRoundTrip(ms, map', base, thin, size % 2 == 1, table + body);
    AfterHeaders(magic, mapHdr, data, table, body);
    CoffHeaderStands(magic, mapHdr, data, table, ms, base, thin, map'[i].member);
  }

  lemma CoffHeaderStands(magic: seq<Byte>, mapHdr: seq<Byte>, data: seq<Byte>, table: seq<Byte>,
                         ms: seq<Member>, base: nat, thin: bool, k: nat)
    requires |magic| == SARMAG && |mapHdr| == AR_HDR && GoodMembers(ms) && NoLongNames(ms) && k < |ms|
    requires base == SARMAG + AR_HDR + |data| + |table| && Even(base)
    ensures HeaderStands(magic + (mapHdr + data) + table + Body(ms, thin), CoffPosition(ms, base, thin, k), ms[k])
  {
    CoffPositionIs(ms, base, thin, k);
    HeaderAt(ms, thin, k);
    HeaderInFile(magic, mapHdr, data, table, Body(ms, thin), |Body(ms[..k], thin)|, ms[k]);
  }

  predicate HeaderStands(file: seq<Byte>, at: nat, m: Member) {
    at + AR_HDR <= |file| && file[at..at + AR_HDR] == m.header
  }

  lemma AfterHeaders(magic: seq<Byte>, mapHdr: seq<Byte>, data: seq<Byte>, table: seq<Byte>, body: seq<Byte>)
    requires |magic| == SARMAG && |mapHdr| == AR_HDR
    ensures (magic + (mapHdr + data) + table + body)[SARMAG + AR_HDR..] == data + (table + body)
  {
  }

  lemma HeaderInFile(magic: seq<Byte>, mapHdr: seq<Byte>, data: seq<Byte>, table: seq<Byte>, body: seq<Byte>,
                     at: nat, m: Member)
    requires |magic| == SARMAG && |mapHdr| == AR_HDR && HeaderStands(body, at, m)
    ensures HeaderStands(magic + (mapHdr + data) + table + body, SARMAG + AR_HDR + |data| + |table| + at, m)
  {
    var front := magic + (mapHdr + data) + table;
    assert (front + body)[|front| + at..|front| + at + AR_HDR] == body[at..at + AR_HDR];
  }

  lemma BsdSizes(be: bool, ms: seq<Member>, map': seq<Orl>, base: nat, tableHdr: seq<Byte>, etable: seq<Byte>)
    requires GoodMap(map', |ms|) && |tableHdr| == AR_HDR
    requires 8 * |map'| + NamesEnd(map') + |etable| + 100 < WORD32
    ensures var data := BsdData(be, ms, map', base, NamesEnd(map'));
      && |data| == BsdMapSize(|map'|, NamesEnd(map'))
      && BsdBase(|map'|, NamesEnd(map'), TableLength(|etable|)) ==
           SARMAG + AR_HDR + |data| + |NameTable(tableHdr, etable)|
      && Even(BsdBase(|map'|, NamesEnd(map'), TableLength(|etable|)))
  {
    StringsAt(map', |ms|);
    hide GoodMap, Strings, NamesEnd;
    TableSize(tableHdr, etable);
    EvenSum(NamesEnd(map'), |map'|, TableLength(|etable|));
  }

  lemma EvenSum(s: nat, n: nat, t: nat)
    requires Even(t)
    ensures Even(8 * n + (s + s % 2) + 8 + t + AR_HDR + SARMAG)
  {
    EvenStep(0, s);
    var h := (s + s % 2) / 2;
    var k := t / 2;
    assert 8 * n + (s + s % 2) + 8 + t + AR_HDR + SARMAG == 2 * (4 * n + h + 4 + k + 34);
  }

  /** The same for a BSD map in an archive that is not thin, with the long names that BSD 4.4 puts after headers. */
  lemma BsdArchivePoints(be: bool, magic: seq<Byte>, mapHdr: seq<Byte>, tableHdr: seq<Byte>, etable: seq<Byte>,
                         ms: seq<Member>, i: nat)
    requires GoodFile(magic, mapHdr, tableHdr, etable, ms) && i < |MapOf(ms)|
    requires BsdArchive(be, magic, mapHdr, tableHdr, etable, ms, false).Some?
    ensures MapOf(ms)[i].member < |ms|
    ensures var file := BsdArchive(be, magic, mapHdr, tableHdr, etable, ms, false).value;
      var syms := SlurpBsd(be, file[SARMAG + AR_HDR..], BsdMapSize(|MapOf(ms)|, NamesEnd(MapOf(ms))));
      && syms.Some? && |syms.value| == |MapOf(ms)| && syms.value[i].name == MapOf(ms)[i].name
      && HeaderStands(file, syms.value[i].fileOffset, ms[MapOf(ms)[i].member])
  {
    var map' := MapOf(ms);
    MapMembers(ms);
    MapOfGood(ms);
    var base := BsdBase(|map'|, NamesEnd(map'), TableLength(|etable|));
    var data := BsdData(be, ms, map', base, NamesEnd(map'));
    var table, body := NameTable(tableHdr, etable), Body(ms, false);
    BsdSizes(be, ms, map', base, tableHdr, etable);
    BsdRoundTrip(be, ms, map', base, table + body);
    AfterHeaders(magic, mapHdr, data, table, body);
    BsdHeaderStands(magic, mapHdr, data, table, ms, base, map'[i].member);
  }

  lemma BsdHeaderStands(magic: seq<Byte>, mapHdr: seq<Byte>, data: seq<Byte>, table: seq<Byte>,
                        ms: seq<Member>, base: nat, k: nat)
    requires |magic| == SARMAG && |mapHdr| == AR_HDR && GoodMembers(ms) && k < |ms|
    requires base == SARMAG + AR_HDR + |data| + |table| && Even(base)
    ensures HeaderStands(magic + (mapHdr + data) + table + Body(ms, false), BsdPosition(ms, base, k), ms[k])
  {
    BsdPositionIs(ms, base, k);
    HeaderAt(ms, false, k);
    HeaderInFile(magic, mapHdr, data, table, Body(ms, false), |Body(ms[..k], false)|, ms[k]);
  }
}
