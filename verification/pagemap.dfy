/** Page map entries, and the map from pages to attributes that a collection of them stands for. */
module PageMaps {
  import opened Heaps

  const PAGE_LIMIT: nat := 0x1_0000_0000_0000_0000
  const PAGE_SIZE: nat := 4096

  datatype VmmapEntryType = Anonymous | Mapped

  /** What one slot of vmentry[] points to. */
  datatype VmmapEntry =
    | NullEntry
    | Entry(pageNum: nat, npages: nat, prot: nat, maxProt: nat, vmmapType: VmmapEntryType, removed: bool)

  datatype Attr = Attr(prot: nat, maxProt: nat, vmmapType: VmmapEntryType)

  predicate Live(e: VmmapEntry) {
    e.Entry? && !e.removed
  }

  function End(e: VmmapEntry): nat
    requires e.Entry?
  {
    e.pageNum + e.npages
  }

  function AttrOf(e: VmmapEntry): Attr
    requires e.Entry?
  {
    Attr(e.prot, e.maxProt, e.vmmapType)
  }

  predicate Covers(e: VmmapEntry, p: nat) {
    Live(e) && e.pageNum <= p < End(e)
  }

  /** The entries map page p to these attributes. */
  ghost predicate Maps(es: seq<VmmapEntry>, p: nat, a: Attr) {
    exists e :: e in es && Covers(e, p) && AttrOf(e) == a
  }

  ghost predicate IsMapped(es: seq<VmmapEntry>, p: nat) {
    exists a :: Maps(es, p, a)
  }

  ghost function AttrAt(es: seq<VmmapEntry>, p: nat): Attr
    requires IsMapped(es, p)
  {
    var a :| Maps(es, p, a);
    a
  }

  /** The map the entries stand for. */
  ghost function PageMap(es: seq<VmmapEntry>): imap<nat, Attr> {
    imap p: nat | IsMapped(es, p) :: AttrAt(es, p)
  }

  predicate Apart(e: VmmapEntry, f: VmmapEntry) {
    Live(e) && Live(f) ==> End(e) <= f.pageNum || End(f) <= e.pageNum
  }

  ghost predicate Disjoint(es: seq<VmmapEntry>) {
    forall i, j :: 0 <= i < j < |es| ==> Apart(es[i], es[j])
  }

  predicate Sound(e: VmmapEntry) {
    e.Entry? && e.npages > 0 && End(e) < PAGE_LIMIT
  }

  /** Entries between two operations: all live, none empty, no two overlapping. */
  ghost predicate Clean(es: seq<VmmapEntry>) {
    Disjoint(es) && forall i :: 0 <= i < |es| ==> Live(es[i]) && Sound(es[i])
  }

  /** Entries during an operation, some perhaps marked for removal. */
  ghost predicate Marked(es: seq<VmmapEntry>) {
    Disjoint(es) && forall i :: 0 <= i < |es| ==> Sound(es[i])
  }

  lemma ApartAt(es: seq<VmmapEntry>, i: int, j: int)
    requires Disjoint(es) && 0 <= i < |es| && 0 <= j < |es| && i != j
    ensures Apart(es[i], es[j])
  {
    if i < j {
      assert Apart(es[i], es[j]);
    } else {
      assert Apart(es[j], es[i]);
    }
  }

  /** Disjoint entries give a page one set of attributes. */
  lemma MapsUnique(es: seq<VmmapEntry>, p: nat, a: Attr, b: Attr)
    requires Disjoint(es) && Maps(es, p, a) && Maps(es, p, b)
    ensures a == b
  {
    var e :| e in es && Covers(e, p) && AttrOf(e) == a;
    var f :| f in es && Covers(f, p) && AttrOf(f) == b;
    if e != f {
      var i :| 0 <= i < |es| && es[i] == e;
      var j :| 0 <= j < |es| && es[j] == f;
      ApartAt(es, i, j);
    }
  }

  lemma PageMapAt(es: seq<VmmapEntry>, p: nat, a: Attr)
    requires Disjoint(es)
    ensures Maps(es, p, a) <==> p in PageMap(es) && PageMap(es)[p] == a
  {
    if p in PageMap(es) {
      MapsUnique(es, p, PageMap(es)[p], PageMap(es)[p]);
      if Maps(es, p, a) {
        MapsUnique(es, p, a, PageMap(es)[p]);
      }
    }
  }

  /** Two disjoint collections that map the same pages alike stand for one map. */
  lemma SamePageMap(es: seq<VmmapEntry>, fs: seq<VmmapEntry>)
    requires Disjoint(es) && Disjoint(fs)
    requires forall p: nat, a :: Maps(es, p, a) <==> Maps(fs, p, a)
    ensures PageMap(es) == PageMap(fs)
  {
    forall p: nat
      ensures p in PageMap(es) <==> p in PageMap(fs)
      ensures p in PageMap(es) ==> PageMap(es)[p] == PageMap(fs)[p]
    {
      if p in PageMap(es) {
        PageMapAt(es, p, PageMap(es)[p]);
        PageMapAt(fs, p, PageMap(es)[p]);
      }
      if p in PageMap(fs) {
        PageMapAt(fs, p, PageMap(fs)[p]);
        PageMapAt(es, p, PageMap(fs)[p]);
      }
    }
  }

  // ---------- rearranging and dropping entries ----------

  /** fs holds exactly the live entries of es, in any order. */
  ghost predicate KeepsLive(es: seq<VmmapEntry>, fs: seq<VmmapEntry>) {
    forall e :: Live(e) ==> multiset(es)[e] == multiset(fs)[e]
  }

  lemma {:induction false} TwoPlaces(es: seq<VmmapEntry>, e: VmmapEntry) returns (i: int, j: int)
    requires multiset(es)[e] >= 2
    ensures 0 <= i < j < |es| && es[i] == e && es[j] == e
  {
    var n := |es| - 1;
    assert es == es[..n] + [es[n]];
    if es[n] == e {
      j := n;
      assert e in multiset(es[..n]);
      assert e in es[..n];
      i :| 0 <= i < n && es[..n][i] == e;
    } else {
      i, j := TwoPlaces(es[..n], e);
    }
  }

  lemma TwoCounts(es: seq<VmmapEntry>, i: int, j: int)
    requires 0 <= i < j < |es| && es[i] == es[j]
    ensures multiset(es)[es[i]] >= 2
  {
    assert es == es[..i] + [es[i]] + es[i + 1..j] + [es[j]] + es[j + 1..];
  }

  lemma KeepsMember(es: seq<VmmapEntry>, fs: seq<VmmapEntry>, e: VmmapEntry)
    requires KeepsLive(es, fs) && Live(e)
    ensures e in es <==> e in fs
  {
    assert e in es <==> multiset(es)[e] > 0;
    assert e in fs <==> multiset(fs)[e] > 0;
  }

  /** Dropping marked entries and permuting the rest changes neither the map nor disjointness. */
  lemma KeepsMap(es: seq<VmmapEntry>, fs: seq<VmmapEntry>)
    requires Marked(es) && KeepsLive(es, fs)
    ensures Disjoint(fs) && PageMap(es) == PageMap(fs)
    ensures forall i :: 0 <= i < |fs| && Live(fs[i]) ==> Sound(fs[i])
  {
    forall i | 0 <= i < |fs| && Live(fs[i]) ensures Sound(fs[i]) && fs[i] in es {
      KeepsMember(es, fs, fs[i]);
    }
    forall i, j | 0 <= i < j < |fs| ensures Apart(fs[i], fs[j]) {
      if Live(fs[i]) && Live(fs[j]) {
        KeepsApart(es, fs, i, j);
      }
    }
    forall p: nat, a ensures Maps(es, p, a) <==> Maps(fs, p, a) {
      forall e | Covers(e, p) ensures e in es <==> e in fs {
        KeepsMember(es, fs, e);
      }
    }
    SamePageMap(es, fs);
  }

  lemma KeepsApart(es: seq<VmmapEntry>, fs: seq<VmmapEntry>, i: int, j: int)
    requires Marked(es) && KeepsLive(es, fs) && 0 <= i < j < |fs| && Live(fs[i]) && Live(fs[j])
    ensures Apart(fs[i], fs[j])
  {
    if fs[i] == fs[j] {
      TwoCounts(fs, i, j);
      var k, l := TwoPlaces(es, fs[i]);
      ApartAt(es, k, l);
    } else {
      KeepsMember(es, fs, fs[i]);
      KeepsMember(es, fs, fs[j]);
      var k :| 0 <= k < |es| && es[k] == fs[i];
      var l :| 0 <= l < |es| && es[l] == fs[j];
      ApartAt(es, k, l);
    }
  }

  ghost function LiveKept(es: seq<VmmapEntry>): iset<seq<VmmapEntry>> {
    iset fs: seq<VmmapEntry> | KeepsLive(es, fs)
  }

  lemma AllLiveKept(es: seq<VmmapEntry>)
    ensures es in LiveKept(es)
  {
  }

  /** Dropping a marked entry from the end. */
  lemma DropMarked(es: seq<VmmapEntry>, fs: seq<VmmapEntry>, n: nat)
    requires fs in LiveKept(es) && |fs| == n + 1 && !Live(fs[n])
    ensures fs[..n] in LiveKept(es)
  {
    assert fs == fs[..n] + [fs[n]];
  }

  /** Moving the last entry over a marked one. */
  lemma MoveToFront(es: seq<VmmapEntry>, fs: seq<VmmapEntry>, i: nat, n: nat)
    requires fs in LiveKept(es) && |fs| == n + 1 && i < n && !Live(fs[i])
    ensures fs[i := fs[n]][..n] in LiveKept(es)
  {
    MovedCounts(fs, i, n);
    var gs := fs[i := fs[n]][..n];
    forall e | Live(e) ensures multiset(es)[e] == multiset(gs)[e] {
      assert e != fs[i];
    }
  }

  lemma MovedCounts(fs: seq<VmmapEntry>, i: nat, n: nat)
    requires |fs| == n + 1 && i < n
    ensures multiset(fs[i := fs[n]][..n]) == multiset(fs) - multiset{fs[i]}
  {
    var gs := fs[i := fs[n]];
    assert gs == gs[..n] + [fs[n]];
    assert fs[i] in multiset(fs);
    forall e ensures multiset(gs[..n])[e] == (multiset(fs) - multiset{fs[i]})[e] {
      assert multiset(gs)[e] == multiset(gs[..n])[e] + multiset{fs[n]}[e];
    }
  }

  /** Where the second loop of VmmapRemoveMarked stands: live entries before i, entries up to last, the
      last of them live, and together the live entries of es. */
  ghost predicate Front(es: seq<VmmapEntry>, s: seq<VmmapEntry>, i: int, last: int) {
    && 0 <= i <= last + 1 && 0 <= last < |s| && Live(s[last])
    && (forall j :: 0 <= j < i ==> Live(s[j])) && (forall j :: 0 <= j <= last ==> s[j].Entry?)
    && s[..last + 1] in LiveKept(es)
  }

  ghost function Fronts(es: seq<VmmapEntry>, i: int, last: int): iset<seq<VmmapEntry>> {
    iset s: seq<VmmapEntry> | Front(es, s, i, last)
  }

  lemma FrontSteps(es: seq<VmmapEntry>, s: seq<VmmapEntry>, i: nat, last: nat)
    requires s in Fronts(es, i, last) && i < last
    ensures i < |s| && s[i].Entry? && (!s[i].removed ==> s in Fronts(es, i + 1, last))
  {
    if !s[i].removed {
      assert Front(es, s, i + 1, last);
    }
  }

  lemma FrontEnds(es: seq<VmmapEntry>, s: seq<VmmapEntry>, i: nat, last: nat)
    requires s in Fronts(es, i, last) && i >= last
    ensures last < |s| && s[..last + 1] in LiveKept(es)
    ensures forall e :: e in s[..last + 1] ==> Live(e)
  {
  }

  /** The last entry moves into the marked place i. */
  function Filled(s: seq<VmmapEntry>, i: nat, last: nat): seq<VmmapEntry>
    requires i < last < |s|
  {
    s[i := s[last]][last := NullEntry]
  }

  /** After it, marked entries at the end go, down to one that is live. */
  lemma FrontFills(es: seq<VmmapEntry>, s: seq<VmmapEntry>, i: nat, last: nat, t: seq<VmmapEntry>, l: nat)
    requires s in Fronts(es, i, last) && i < last && s[i].Entry? && s[i].removed && i <= l < last
    requires |t| == |s| && t[..l + 1] == Filled(s, i, last)[..l + 1] && t[..l + 1] in LiveKept(es) && Live(t[l])
    ensures t in Fronts(es, i + 1, l)
  {
    var f := Filled(s, i, last);
    forall j | 0 <= j <= l ensures t[j].Entry? && (j < i + 1 ==> Live(t[j])) {
      assert t[j] == t[..l + 1][j] == f[..l + 1][j] == f[j];
    }
    assert Front(es, t, i + 1, l);
  }

  lemma FilledKeeps(es: seq<VmmapEntry>, s: seq<VmmapEntry>, i: nat, last: nat)
    requires s in Fronts(es, i, last) && i < last && s[i].Entry? && s[i].removed
    ensures Filled(s, i, last)[..last] in LiveKept(es) && Live(Filled(s, i, last)[i])
    ensures forall j :: 0 <= j < last ==> Filled(s, i, last)[j].Entry?
  {
    var fs := s[..last + 1];
    MoveToFront(es, fs, i, last);
    assert Filled(s, i, last)[..last] == fs[i := fs[last]][..last];
  }

  // ---------- sorting ----------

  /** VmmapCmpEntries(). */
  function CmpEntries(left: VmmapEntry, right: VmmapEntry): int {
    var l := if left.Entry? then left.pageNum else 0;
    var r := if right.Entry? then right.pageNum else 0;
    if l < r then -1 else if l == r then 0 else 1
  }

  lemma CmpEntriesPreorder()
    ensures TotalPreorder(CmpEntries)
  {
  }

  ghost predicate InOrder(es: seq<VmmapEntry>) {
    forall i, j :: 0 <= i < j < |es| ==> es[i].Entry? && es[j].Entry? && End(es[i]) <= es[j].pageNum
  }

  lemma SortedInOrder(es: seq<VmmapEntry>)
    requires Clean(es)
    ensures Sorted(CmpEntries, es) <==> InOrder(es)
  {
    if Sorted(CmpEntries, es) {
      forall i, j | 0 <= i < j < |es| ensures End(es[i]) <= es[j].pageNum {
        assert Le(CmpEntries, es[i], es[j]) && Apart(es[i], es[j]);
      }
    }
    if InOrder(es) {
      forall i, j | 0 <= i <= j < |es| ensures Le(CmpEntries, es[i], es[j]) {
      }
    }
  }

  /** There is nothing to keep, or something to keep. */
  predicate AnyLeft(es: seq<VmmapEntry>) {
    es == [] || exists e :: e in es && Live(e)
  }

  /** What VmmapRemoveMarked may make of es: the live entries, in any order. */
  ghost function Compacted(es: seq<VmmapEntry>): iset<seq<VmmapEntry>> {
    iset fs: seq<VmmapEntry> | fs in LiveKept(es) && forall f :: f in fs ==> Live(f)
  }

  /** It leaves clean entries that stand for the same map. */
  lemma CompactedMap(es: seq<VmmapEntry>, fs: seq<VmmapEntry>)
    requires Marked(es) && fs in Compacted(es)
    ensures Clean(fs) && PageMap(fs) == PageMap(es)
  {
    KeepsMap(es, fs);
    forall i | 0 <= i < |fs| ensures Live(fs[i]) && Sound(fs[i]) {
      assert fs[i] in fs;
    }
  }

  /** When nothing is marked, something is left. */
  lemma CleanLeft(es: seq<VmmapEntry>)
    requires Clean(es)
    ensures AnyLeft(es)
  {
    if es != [] {
      assert es[0] in es;
    }
  }

  /** Sorting clean entries. */
  lemma SortedEntries(fs: seq<VmmapEntry>, gs: seq<VmmapEntry>)
    requires Clean(fs) && multiset(gs) == multiset(fs) && Sorted(CmpEntries, gs)
    ensures Clean(gs) && InOrder(gs) && PageMap(gs) == PageMap(fs)
  {
    KeepsMap(fs, gs);
    forall i | 0 <= i < |gs| ensures Live(gs[i]) {
      assert gs[i] in multiset(fs);
    }
    SortedInOrder(gs);
  }

  /** Something is mapped exactly when an entry is live. */
  lemma LiveMeansMapped(es: seq<VmmapEntry>)
    requires Marked(es)
    ensures (exists e :: e in es && Live(e)) <==> Nonempty(PageMap(es))
  {
    if e :| e in es && Live(e) {
      var i :| 0 <= i < |es| && es[i] == e;
      assert Maps(es, e.pageNum, AttrOf(e)) by {
        assert Covers(e, e.pageNum);
      }
      assert e.pageNum in PageMap(es);
    }
    if Nonempty(PageMap(es)) {
      var p: nat :| p in PageMap(es);
      var a :| Maps(es, p, a);
    }
  }

  /** So entries that stand for one map are both empty or both not. */
  lemma SameEmpty(es: seq<VmmapEntry>, fs: seq<VmmapEntry>)
    requires Clean(es) && Clean(fs) && PageMap(es) == PageMap(fs)
    ensures es == [] <==> fs == []
  {
    LiveMeansMapped(es);
    LiveMeansMapped(fs);
    if es != [] {
      assert es[0] in es;
    }
    if fs != [] {
      assert fs[0] in fs;
    }
  }

  // ---------- overwriting and removing a region ----------

  /** What VmmapUpdate makes of an entry that keeps at most one piece outside [lo, hi), or of the
      left piece when it keeps two. */
  function Trim(e: VmmapEntry, lo: nat, hi: nat): VmmapEntry
    requires e.Entry?
  {
    if e.pageNum < lo && lo < End(e) then e.(npages := lo - e.pageNum)
    else if e.pageNum < hi && hi < End(e) then e.(pageNum := hi, npages := End(e) - hi)
    else if lo <= e.pageNum && End(e) <= hi then e.(removed := true)
    else e
  }

  predicate Straddles(e: VmmapEntry, lo: nat, hi: nat)
    requires e.Entry?
  {
    e.pageNum < lo && hi < End(e)
  }

  function RightPiece(e: VmmapEntry, hi: nat): VmmapEntry
    requires e.Entry? && hi <= End(e)
  {
    Entry(hi, End(e) - hi, e.prot, e.maxProt, e.vmmapType, false)
  }

  function TrimAll(es: seq<VmmapEntry>, lo: nat, hi: nat): (fs: seq<VmmapEntry>)
    requires forall i :: 0 <= i < |es| ==> es[i].Entry?
    ensures |fs| == |es| && forall i :: 0 <= i < |es| ==> fs[i] == Trim(es[i], lo, hi)
  {
    seq(|es|, i requires 0 <= i < |es| => Trim(es[i], lo, hi))
  }

  /** The right pieces of the entries that straddle [lo, hi). */
  function RightPieces(es: seq<VmmapEntry>, lo: nat, hi: nat): seq<VmmapEntry>
    requires forall i :: 0 <= i < |es| ==> es[i].Entry?
  {
    if es == [] then []
    else
      var n := |es| - 1;
      RightPieces(es[..n], lo, hi) + if Straddles(es[n], lo, hi) then [RightPiece(es[n], hi)] else []
  }

  lemma {:induction false} RightPieceFrom(es: seq<VmmapEntry>, lo: nat, hi: nat, f: VmmapEntry) returns (i: nat)
    requires forall i :: 0 <= i < |es| ==> es[i].Entry?
    requires f in RightPieces(es, lo, hi)
    ensures i < |es| && Straddles(es[i], lo, hi) && f == RightPiece(es[i], hi)
  {
    var n := |es| - 1;
    if f in RightPieces(es[..n], lo, hi) {
      i := RightPieceFrom(es[..n], lo, hi, f);
    } else {
      i := n;
    }
  }

  lemma {:induction false} RightPieceIn(es: seq<VmmapEntry>, lo: nat, hi: nat, i: nat)
    requires forall i :: 0 <= i < |es| ==> es[i].Entry?
    requires i < |es| && Straddles(es[i], lo, hi)
    ensures RightPiece(es[i], hi) in RightPieces(es, lo, hi)
  {
    var n := |es| - 1;
    if i < n {
      RightPieceIn(es[..n], lo, hi, i);
    }
  }

  /** The pieces Trim and RightPiece leave of an entry cover what it covered outside [lo, hi). */
  lemma TrimCovers(e: VmmapEntry, lo: nat, hi: nat, p: nat)
    requires Live(e) && Sound(e) && lo < hi
    ensures Sound(Trim(e, lo, hi)) && AttrOf(Trim(e, lo, hi)) == AttrOf(e)
    ensures Straddles(e, lo, hi) ==> Sound(RightPiece(e, hi)) && AttrOf(RightPiece(e, hi)) == AttrOf(e)
    ensures (Covers(Trim(e, lo, hi), p) || (Straddles(e, lo, hi) && Covers(RightPiece(e, hi), p)))
      <==> (Covers(e, p) && !(lo <= p < hi))
  {
  }

  /** f lies inside e and outside [lo, hi). */
  predicate PieceOf(f: VmmapEntry, e: VmmapEntry, lo: nat, hi: nat)
    requires e.Entry?
  {
    f.Entry? && (Live(f) ==> e.pageNum <= f.pageNum && End(f) <= End(e) && (End(f) <= lo || hi <= f.pageNum))
  }

  lemma TrimPiece(e: VmmapEntry, lo: nat, hi: nat)
    requires Live(e) && Sound(e) && lo < hi
    ensures PieceOf(Trim(e, lo, hi), e, lo, hi)
    ensures Straddles(e, lo, hi) ==>
      PieceOf(RightPiece(e, hi), e, lo, hi) && Apart(Trim(e, lo, hi), RightPiece(e, hi))
  {
  }

  /** At most one of the disjoint entries straddles the region. */
  lemma {:induction false} FewRightPieces(es: seq<VmmapEntry>, lo: nat, hi: nat)
    requires Clean(es) && lo < hi
    ensures |RightPieces(es, lo, hi)| <= 1
  {
    if es != [] {
      var n := |es| - 1;
      FewRightPieces(es[..n], lo, hi);
      if RightPieces(es[..n], lo, hi) != [] {
        OneStraddles(es, n, lo, hi, RightPieces(es[..n], lo, hi)[0]);
      }
    }
  }

  lemma OneStraddles(es: seq<VmmapEntry>, n: nat, lo: nat, hi: nat, f: VmmapEntry)
    requires Clean(es) && lo < hi && n < |es| && f in RightPieces(es[..n], lo, hi)
    ensures !Straddles(es[n], lo, hi)
  {
    var i := RightPieceFrom(es[..n], lo, hi, f);
    ApartAt(es, i, n);
  }

  /** The entries after the loop of VmmapUpdate and the VmmapAdd after it. */
  function Updated(es: seq<VmmapEntry>, lo: nat, hi: nat, extra: seq<VmmapEntry>): (fs: seq<VmmapEntry>)
    requires forall i :: 0 <= i < |es| ==> es[i].Entry?
  {
    TrimAll(es, lo, hi) + RightPieces(es, lo, hi) + extra
  }

  /** Nothing, or the one new entry for [lo, hi). */
  predicate Region(extra: seq<VmmapEntry>, lo: nat, hi: nat) {
    extra == [] || (|extra| == 1 && Live(extra[0]) && extra[0].pageNum == lo && End(extra[0]) == hi)
  }

  lemma PieceFrom(es: seq<VmmapEntry>, lo: nat, hi: nat, f: VmmapEntry)
    requires Clean(es) && lo < hi < PAGE_LIMIT && f in TrimAll(es, lo, hi) + RightPieces(es, lo, hi)
    ensures Sound(f) && exists e :: e in es && PieceOf(f, e, lo, hi)
  {
    var i: nat;
    if f in TrimAll(es, lo, hi) {
      i :| i < |es| && TrimAll(es, lo, hi)[i] == f;
    } else {
      i := RightPieceFrom(es, lo, hi, f);
    }
    var e := es[i];
    TrimCovers(e, lo, hi, 0);
    TrimPiece(e, lo, hi);
    assert e in es && PieceOf(f, e, lo, hi);
  }

  lemma UpdatedSound(es: seq<VmmapEntry>, lo: nat, hi: nat, extra: seq<VmmapEntry>)
    requires Clean(es) && lo < hi < PAGE_LIMIT && Region(extra, lo, hi)
    ensures forall f :: f in Updated(es, lo, hi, extra) ==> Sound(f)
    ensures forall f :: f in TrimAll(es, lo, hi) + RightPieces(es, lo, hi) ==>
      exists e :: e in es && PieceOf(f, e, lo, hi)
  {
    hide RightPieces, PieceOf;
    forall f | f in TrimAll(es, lo, hi) + RightPieces(es, lo, hi)
      ensures Sound(f) && exists e :: e in es && PieceOf(f, e, lo, hi)
    {
      PieceFrom(es, lo, hi, f);
    }
  }

  lemma UpdatedDisjoint(es: seq<VmmapEntry>, lo: nat, hi: nat, extra: seq<VmmapEntry>)
    requires Clean(es) && lo < hi < PAGE_LIMIT && Region(extra, lo, hi)
    ensures Disjoint(Updated(es, lo, hi, extra))
  {
    var fs, n := Updated(es, lo, hi, extra), |es|;
    FewRightPieces(es, lo, hi);
    UpdatedSound(es, lo, hi, extra);
    forall i, j | 0 <= i < j < |fs| ensures Apart(fs[i], fs[j]) {
      if j < n {
        ApartAt(es, i, j);
        TrimPiece(es[i], lo, hi);
        TrimPiece(es[j], lo, hi);
      } else if extra != [] && j == |fs| - 1 {
        assert fs[i] in TrimAll(es, lo, hi) + RightPieces(es, lo, hi);
      } else {
        TrimApartRight(es, lo, hi, i, RightPieces(es, lo, hi)[0]);
      }
    }
  }

  lemma TrimApartRight(es: seq<VmmapEntry>, lo: nat, hi: nat, i: int, f: VmmapEntry)
    requires Clean(es) && lo < hi && 0 <= i < |es| && f in RightPieces(es, lo, hi)
    ensures Apart(Trim(es[i], lo, hi), f)
  {
    var k := RightPieceFrom(es, lo, hi, f);
    TrimPiece(es[k], lo, hi);
    TrimPiece(es[i], lo, hi);
    if k != i {
      ApartAt(es, i, k);
    }
  }

  /** The pages outside the region keep their attributes; those inside have those of the new entry. */
  lemma UpdatedMaps(es: seq<VmmapEntry>, lo: nat, hi: nat, extra: seq<VmmapEntry>, p: nat, a: Attr)
    requires Clean(es) && lo < hi < PAGE_LIMIT && Region(extra, lo, hi)
    ensures Maps(Updated(es, lo, hi, extra), p, a) <==>
      if lo <= p < hi then extra != [] && a == AttrOf(extra[0]) else Maps(es, p, a)
  {
    var fs := Updated(es, lo, hi, extra);
    if Maps(es, p, a) && !(lo <= p < hi) {
      var e :| e in es && Covers(e, p) && AttrOf(e) == a;
      UpdatedKeeps(es, lo, hi, extra, p, e);
    }
    if extra != [] {
      assert fs[|fs| - 1] == extra[0];
    }
    if Maps(fs, p, a) {
      var f :| f in fs && Covers(f, p) && AttrOf(f) == a;
      UpdatedFrom(es, lo, hi, extra, p, f);
    }
  }

  lemma UpdatedKeeps(es: seq<VmmapEntry>, lo: nat, hi: nat, extra: seq<VmmapEntry>, p: nat, e: VmmapEntry)
    requires Clean(es) && lo < hi < PAGE_LIMIT
    requires e in es && Covers(e, p) && !(lo <= p < hi)
    ensures Maps(Updated(es, lo, hi, extra), p, AttrOf(e))
  {
    var fs, ts, rs := Updated(es, lo, hi, extra), TrimAll(es, lo, hi), RightPieces(es, lo, hi);
    var i :| 0 <= i < |es| && es[i] == e;
    TrimCovers(e, lo, hi, p);
    if Covers(Trim(e, lo, hi), p) {
      assert fs[i] == ts[i] == Trim(e, lo, hi);
    } else {
      RightPieceIn(es, lo, hi, i);
      assert RightPiece(e, hi) in fs;
    }
  }

  lemma UpdatedFrom(es: seq<VmmapEntry>, lo: nat, hi: nat, extra: seq<VmmapEntry>, p: nat, f: VmmapEntry)
    requires Clean(es) && lo < hi < PAGE_LIMIT && Region(extra, lo, hi)
    requires f in Updated(es, lo, hi, extra) && Covers(f, p)
    ensures if lo <= p < hi then f in extra else Maps(es, p, AttrOf(f))
  {
    var ts, rs := TrimAll(es, lo, hi), RightPieces(es, lo, hi);
    if f in ts {
      var i :| 0 <= i < |ts| && ts[i] == f;
      assert es[i] in es;
      TrimCovers(es[i], lo, hi, p);
    } else if f in rs {
      var i := RightPieceFrom(es, lo, hi, f);
      assert es[i] in es;
      TrimCovers(es[i], lo, hi, p);
    }
  }

  ghost function Overwritten(m: imap<nat, Attr>, lo: nat, hi: nat, a: Attr): imap<nat, Attr> {
    imap p: nat | p in m || lo <= p < hi :: if lo <= p < hi then a else m[p]
  }

  ghost predicate Nonempty(m: imap<nat, Attr>) {
    exists p: nat :: p in m
  }

  ghost function Without(m: imap<nat, Attr>, lo: nat, hi: nat): imap<nat, Attr> {
    imap p: nat | p in m && !(lo <= p < hi) :: m[p]
  }

  /** Updating the entries overwrites or removes the region in the map. */
  lemma {:induction false} UpdatedPageMap(es: seq<VmmapEntry>, lo: nat, hi: nat, extra: seq<VmmapEntry>)
    requires Clean(es) && lo < hi < PAGE_LIMIT && Region(extra, lo, hi)
    ensures Marked(Updated(es, lo, hi, extra))
    ensures PageMap(Updated(es, lo, hi, extra)) == UpdatedMap(PageMap(es), lo, hi, extra)
  {
    UpdatedDisjoint(es, lo, hi, extra);
    UpdatedSound(es, lo, hi, extra);
    UpdatedMapped(es, lo, hi, extra);
  }

  lemma {:induction false} UpdatedMapped(es: seq<VmmapEntry>, lo: nat, hi: nat, extra: seq<VmmapEntry>)
    requires Clean(es) && lo < hi < PAGE_LIMIT && Region(extra, lo, hi) && Disjoint(Updated(es, lo, hi, extra))
    ensures PageMap(Updated(es, lo, hi, extra)) == UpdatedMap(PageMap(es), lo, hi, extra)
  {
    hide Updated, UpdatedMap, PageMap;
    var fs := Updated(es, lo, hi, extra);
    var m := UpdatedMap(PageMap(es), lo, hi, extra);
    var n := PageMap(fs);
    forall p: nat
      ensures p in n <==> p in m
      ensures p in m ==> n[p] == m[p]
    {
      UpdatedAt(es, lo, hi, extra, p, m, n);
    }
  }

  ghost function UpdatedMap(m: imap<nat, Attr>, lo: nat, hi: nat, extra: seq<VmmapEntry>): imap<nat, Attr>
    requires Region(extra, lo, hi)
  {
    if extra == [] then Without(m, lo, hi) else Overwritten(m, lo, hi, AttrOf(extra[0]))
  }

  lemma {:induction false} UpdatedAt(es: seq<VmmapEntry>, lo: nat, hi: nat, extra: seq<VmmapEntry>, p: nat,
                                     m: imap<nat, Attr>, n: imap<nat, Attr>)
    requires Clean(es) && lo < hi < PAGE_LIMIT && Region(extra, lo, hi) && Disjoint(Updated(es, lo, hi, extra))
    requires m == UpdatedMap(PageMap(es), lo, hi, extra) && n == PageMap(Updated(es, lo, hi, extra))
    ensures (p in n <==> p in m) && (p in m ==> n[p] == m[p])
  {
    var fs := Updated(es, lo, hi, extra);
    if p in m {
      UpdatedMaps(es, lo, hi, extra, p, m[p]);
      PageMapAt(fs, p, m[p]);
      PageMapAt(es, p, m[p]);
    } else if p in n {
      UpdatedMaps(es, lo, hi, extra, p, n[p]);
      PageMapAt(fs, p, n[p]);
      PageMapAt(es, p, n[p]);
    }
  }
}
