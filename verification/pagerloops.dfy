/** The loops of VmmapUpdate, VmmapChangeProt and the searches, on the sorted sequence of entries. */
module PagerLoops {
  import opened PageMaps
  import opened Repaint

  // ---------- VmmapUpdate ----------

  /** The entries when the loop of VmmapUpdate reaches index i. */
  function Progress(es: seq<VmmapEntry>, lo: nat, hi: nat, i: nat): seq<VmmapEntry>
    requires i <= |es| && forall j :: 0 <= j < |es| ==> es[j].Entry?
  {
    TrimAll(es[..i], lo, hi) + es[i..]
  }

  lemma ProgressStep(es: seq<VmmapEntry>, lo: nat, hi: nat, i: nat)
    requires i < |es| && Clean(es)
    ensures |Progress(es, lo, hi, i)| == |es| && Progress(es, lo, hi, i)[i] == es[i]
    ensures Progress(es, lo, hi, i)[i := Trim(es[i], lo, hi)] == Progress(es, lo, hi, i + 1)
    ensures !Straddles(es[i], lo, hi) && RightPieces(es[..i], lo, hi) == [] ==> RightPieces(es[..i + 1], lo, hi) == []
  {
    assert es[..i + 1][..i] == es[..i];
    assert es[i..] == [es[i]] + es[i + 1..];
  }

  lemma OrderAt(es: seq<VmmapEntry>, i: int, k: int)
    requires Clean(es) && InOrder(es) && 0 <= i < |es| && 0 <= k < |es|
    ensures i < k ==> End(es[i]) <= es[k].pageNum
    ensures k < i ==> End(es[k]) <= es[i].pageNum
  {
  }

  /** Entries beyond one that reaches past the region do not straddle it. */
  lemma {:induction false} StraddlesNoMore(es: seq<VmmapEntry>, lo: nat, hi: nat, i: nat, k: nat)
    requires Clean(es) && InOrder(es) && i < k <= |es| && hi <= End(es[i]) && lo < hi
    ensures RightPieces(es[..k], lo, hi) == RightPieces(es[..i + 1], lo, hi)
  {
    if k > i + 1 {
      StraddlesNoMore(es, lo, hi, i, k - 1);
      OrderAt(es, i, k - 1);
      assert es[..k][..k - 1] == es[..k - 1];
    }
  }

  /** So the loop may stop there. */
  lemma ProgressStops(es: seq<VmmapEntry>, lo: nat, hi: nat, i: nat)
    requires Clean(es) && InOrder(es) && i < |es| && hi < End(es[i]) && lo < hi
    requires RightPieces(es[..i], lo, hi) == []
    ensures Progress(es, lo, hi, i + 1) == TrimAll(es, lo, hi)
    ensures RightPieces(es, lo, hi) == if Straddles(es[i], lo, hi) then [RightPiece(es[i], hi)] else []
  {
    TrimmedUpTo(es, lo, hi, i);
    PiecesStop(es, lo, hi, i);
  }

  lemma TrimmedUpTo(es: seq<VmmapEntry>, lo: nat, hi: nat, i: nat)
    requires Clean(es) && InOrder(es) && i < |es| && hi < End(es[i]) && lo < hi
    ensures Progress(es, lo, hi, i + 1) == TrimAll(es, lo, hi)
  {
    var ts, us := TrimAll(es[..i + 1], lo, hi), TrimAll(es, lo, hi);
    forall k | i < k < |es| ensures us[k] == es[k] {
      TrimBeyond(es, lo, hi, i, k);
    }
    assert us == us[..i + 1] + us[i + 1..];
    assert ts == us[..i + 1];
    assert es[i + 1..] == us[i + 1..];
  }

  lemma TrimBeyond(es: seq<VmmapEntry>, lo: nat, hi: nat, i: nat, k: nat)
    requires Clean(es) && InOrder(es) && i < k < |es| && hi < End(es[i]) && lo < hi
    ensures Trim(es[k], lo, hi) == es[k]
  {
    OrderAt(es, i, k);
  }

  lemma PiecesStop(es: seq<VmmapEntry>, lo: nat, hi: nat, i: nat)
    requires Clean(es) && InOrder(es) && i < |es| && hi < End(es[i]) && lo < hi
    requires RightPieces(es[..i], lo, hi) == []
    ensures RightPieces(es, lo, hi) == if Straddles(es[i], lo, hi) then [RightPiece(es[i], hi)] else []
  {
    StraddlesNoMore(es, lo, hi, i, |es|);
    var ds := es[..i + 1];
    assert es[..|es|] == es && ds[..|ds| - 1] == es[..i];
  }

  /** What the body of the loop does at entry i, and where it leaves the loop. */
  predicate TrimBreaks(e: VmmapEntry, lo: nat, hi: nat)
    requires e.Entry?
  {
    Straddles(e, lo, hi) || (!(e.pageNum < lo && lo < End(e)) && e.pageNum < hi && hi < End(e))
  }

  function Trimmed(fs: seq<VmmapEntry>, i: nat, lo: nat, hi: nat): seq<VmmapEntry>
    requires i < |fs| && fs[i].Entry?
  {
    fs[i := Trim(fs[i], lo, hi)] + if Straddles(fs[i], lo, hi) then [RightPiece(fs[i], hi)] else []
  }

  /** The loop of VmmapUpdate from entry i on. */
  function TrimFrom(fs: seq<VmmapEntry>, i: nat, lo: nat, hi: nat): seq<VmmapEntry>
    requires i <= |fs| && forall j :: i <= j < |fs| ==> fs[j].Entry?
    decreases |fs| - i
  {
    if i == |fs| then fs
    else if TrimBreaks(fs[i], lo, hi) then Trimmed(fs, i, lo, hi)
    else TrimFrom(Trimmed(fs, i, lo, hi), i + 1, lo, hi)
  }

  lemma {:induction false} TrimFromProgress(es: seq<VmmapEntry>, fs: seq<VmmapEntry>, i: nat, lo: nat, hi: nat)
    requires Clean(es) && InOrder(es) && i <= |es| && lo < hi && RightPieces(es[..i], lo, hi) == []
    requires fs == Progress(es, lo, hi, i)
    ensures |fs| == |es| && forall j :: i <= j < |es| ==> fs[j].Entry?
    ensures TrimFrom(fs, i, lo, hi) == TrimAll(es, lo, hi) + RightPieces(es, lo, hi)
    decreases |es| - i
  {
    if i == |es| {
      ProgressEnds(es, lo, hi);
    } else {
      TrimmedProgress(es, lo, hi, i);
      if !TrimBreaks(es[i], lo, hi) {
        TrimFromProgress(es, Trimmed(fs, i, lo, hi), i + 1, lo, hi);
      }
    }
  }

  /** The loop of VmmapUpdate trims every entry. */
  lemma TrimFromStart(es: seq<VmmapEntry>, lo: nat, hi: nat)
    requires Clean(es) && InOrder(es) && lo < hi
    ensures TrimFrom(es, 0, lo, hi) == TrimAll(es, lo, hi) + RightPieces(es, lo, hi)
  {
    assert es[..0] == [] && Progress(es, lo, hi, 0) == es;
    TrimFromProgress(es, es, 0, lo, hi);
  }

  lemma TrimmedProgress(es: seq<VmmapEntry>, lo: nat, hi: nat, i: nat)
    requires Clean(es) && InOrder(es) && i < |es| && lo < hi && RightPieces(es[..i], lo, hi) == []
    ensures var fs := Progress(es, lo, hi, i);
      && i < |fs| && fs[i] == es[i]
      && (if TrimBreaks(es[i], lo, hi) then Trimmed(fs, i, lo, hi) == TrimAll(es, lo, hi) + RightPieces(es, lo, hi)
          else Trimmed(fs, i, lo, hi) == Progress(es, lo, hi, i + 1) && RightPieces(es[..i + 1], lo, hi) == [])
  {
    ProgressStep(es, lo, hi, i);
    if TrimBreaks(es[i], lo, hi) {
      ProgressStops(es, lo, hi, i);
    }
  }

  lemma ProgressEnds(es: seq<VmmapEntry>, lo: nat, hi: nat)
    requires Clean(es) && RightPieces(es[..|es|], lo, hi) == []
    ensures Progress(es, lo, hi, |es|) == TrimAll(es, lo, hi) + RightPieces(es, lo, hi)
  {
    assert es[..|es|] == es;
  }

  /** What they stand for, and when any of them is live. */
  lemma UpdatedRegion(es: seq<VmmapEntry>, fs: seq<VmmapEntry>, lo: nat, hi: nat, extra: seq<VmmapEntry>)
    requires Clean(es) && lo < hi < PAGE_LIMIT && Region(extra, lo, hi) && fs == Updated(es, lo, hi, extra)
    ensures Marked(fs) && PageMap(fs) == UpdatedMap(PageMap(es), lo, hi, extra)
    ensures AnyLeft(fs) <==> extra != [] || es == [] || Nonempty(Without(PageMap(es), lo, hi))
  {
    UpdatedPageMap(es, lo, hi, extra);
    LiveMeansMapped(fs);
    if extra != [] {
      assert fs[|fs| - 1] == extra[0];
    }
    if es == [] {
      assert RightPieces(es, lo, hi) == [];
    }
  }

  /** What VmmapUpdate adds after its loop: nothing, or an entry for the region with these attributes. */
  predicate Adds(extra: seq<VmmapEntry>, lo: nat, hi: nat, remove: bool, a: Attr) {
    Region(extra, lo, hi) && (extra == [] <==> remove) && (extra != [] ==> AttrOf(extra[0]) == a)
  }

  // ---------- VmmapChangeProt ----------

  /** The entries when the loop of VmmapChangeProt reaches index i. */
  function RepaintProgress(es: seq<VmmapEntry>, lo: nat, hi: nat, prot: nat, i: nat): seq<VmmapEntry>
    requires lo < hi && i <= |es| && forall j :: 0 <= j < |es| ==> es[j].Entry?
  {
    Heads(es[..i], lo, hi, prot) + es[i..] + Extras(es[..i], lo, hi, prot)
  }

  lemma RepaintStep(es: seq<VmmapEntry>, lo: nat, hi: nat, prot: nat, i: nat)
    requires i < |es| && Clean(es) && lo < hi
    ensures |RepaintProgress(es, lo, hi, prot, i)| >= |es| && RepaintProgress(es, lo, hi, prot, i)[i] == es[i]
    ensures RepaintProgress(es, lo, hi, prot, i + 1) ==
      RepaintProgress(es, lo, hi, prot, i)[i := Head(es[i], lo, hi, prot)] + Extra(es[i], lo, hi, prot)
  {
    assert es[..i + 1][..i] == es[..i];
    assert es[i..] == [es[i]] + es[i + 1..];
  }

  lemma {:induction false} ExtrasNoMore(es: seq<VmmapEntry>, lo: nat, hi: nat, prot: nat, i: nat, k: nat)
    requires Clean(es) && lo < hi && i <= k <= |es|
    requires forall j :: i <= j < |es| ==> hi <= es[j].pageNum
    ensures Extras(es[..k], lo, hi, prot) == Extras(es[..i], lo, hi, prot)
  {
    if k > i {
      ExtrasNoMore(es, lo, hi, prot, i, k - 1);
      assert es[..k][..k - 1] == es[..k - 1];
    }
  }

  /** The loop may stop once the remaining entries lie beyond the region. */
  lemma RepaintStops(es: seq<VmmapEntry>, lo: nat, hi: nat, prot: nat, i: nat)
    requires Clean(es) && lo < hi && i <= |es|
    requires forall j :: i <= j < |es| ==> hi <= es[j].pageNum
    ensures RepaintProgress(es, lo, hi, prot, i) == Repainted(es, lo, hi, prot)
  {
    var fs := Heads(es[..i], lo, hi, prot) + es[i..];
    forall k | 0 <= k < |es| ensures fs[k] == Head(es[k], lo, hi, prot) {
    }
    assert fs == Heads(es, lo, hi, prot);
    ExtrasNoMore(es, lo, hi, prot, i, |es|);
    assert es[..|es|] == es;
  }

  /** Where the moving page number of VmmapChangeProt stands: at the start while all entries before i
      end there, then at the end of the entry before i. */
  ghost predicate Frontier(es: seq<VmmapEntry>, lo: nat, hi: nat, i: nat, page: nat) {
    i <= |es| && (forall j :: 0 <= j < |es| ==> es[j].Entry?) &&
    if page == lo then forall j :: 0 <= j < i ==> End(es[j]) <= lo
    else i > 0 && page == End(es[i - 1]) && lo < page <= hi
  }

  ghost predicate AllMapped(es: seq<VmmapEntry>, lo: nat, hi: nat) {
    forall p :: lo <= p < hi ==> IsMapped(es, p)
  }

  lemma MappedBy(es: seq<VmmapEntry>, p: nat) returns (k: nat)
    requires IsMapped(es, p)
    ensures k < |es| && Covers(es[k], p)
  {
    var e :| e in es && Covers(e, p);
    k :| 0 <= k < |es| && es[k] == e;
  }

  /** The entry at i either ends before the frontier or covers it; past the start it begins there. */
  lemma FrontierEntry(es: seq<VmmapEntry>, lo: nat, hi: nat, i: nat, page: nat)
    requires Clean(es) && InOrder(es) && AllMapped(es, lo, hi) && Frontier(es, lo, hi, i, page)
    requires i < |es| && page < hi && lo <= page
    ensures End(es[i]) <= page ==> page == lo
    ensures End(es[i]) > page ==> es[i].pageNum <= page && (page != lo ==> es[i].pageNum == page)
  {
    if i > 0 {
      OrderAt(es, i - 1, i);
    }
    if End(es[i]) > page {
      var k := MappedBy(es, page);
      OrderAt(es, i, k);
      if i > 0 {
        OrderAt(es, i - 1, k);
      }
    }
  }

  /** The entries it appends at entry e when it has reached page. */
  function ExtraAt(e: VmmapEntry, page: nat, hi: nat, prot: nat): seq<VmmapEntry>
    requires e.Entry? && page < hi
  {
    if Straddles(e, page, hi) then [RightPiece(e, hi), Painted(e, page, hi, prot)]
    else if e.pageNum < page && page < End(e) then [Painted(e, page, End(e), prot)]
    else if e.pageNum < hi && hi < End(e) then [Painted(e, page, hi, prot)]
    else []
  }

  function RepaintedAt(fs: seq<VmmapEntry>, i: nat, page: nat, hi: nat, prot: nat): seq<VmmapEntry>
    requires i < |fs| && fs[i].Entry? && page < hi
  {
    fs[i := Head(fs[i], page, hi, prot)] + ExtraAt(fs[i], page, hi, prot)
  }

  /** The page up to which the region is done after entry e; the loop breaks at an entry that reaches
      past the region. */
  function PageAfter(e: VmmapEntry, page: nat, hi: nat): nat
    requires e.Entry?
  {
    if (e.pageNum < page && page < End(e)) || (page <= e.pageNum && End(e) <= hi) then End(e) else page
  }

  /** The loop of VmmapChangeProt from entry i of the first n on. */
  function RepaintFrom(fs: seq<VmmapEntry>, n: nat, i: nat, page: nat, hi: nat, prot: nat): seq<VmmapEntry>
    requires i <= n <= |fs| && forall j :: i <= j < n ==> fs[j].Entry?
    decreases n - i
  {
    if i == n || page >= hi then fs
    else if TrimBreaks(fs[i], page, hi) then RepaintedAt(fs, i, page, hi, prot)
    else RepaintFrom(RepaintedAt(fs, i, page, hi, prot), n, i + 1, PageAfter(fs[i], page, hi), hi, prot)
  }

  /** At an entry that follows the frontier it does what it would do with the whole region in view. */
  lemma RepaintOne(e: VmmapEntry, lo: nat, page: nat, hi: nat, prot: nat)
    requires e.Entry? && e.npages > 0 && lo <= page < hi
    requires End(e) <= page ==> page == lo
    requires End(e) > page ==> e.pageNum <= page && (page != lo ==> e.pageNum == page)
    ensures Head(e, page, hi, prot) == Head(e, lo, hi, prot) && ExtraAt(e, page, hi, prot) == Extra(e, lo, hi, prot)
    ensures TrimBreaks(e, page, hi) <==> hi < End(e)
    ensures !TrimBreaks(e, page, hi) ==>
      if End(e) <= page then PageAfter(e, page, hi) == page == lo
      else PageAfter(e, page, hi) == End(e) && lo < End(e) <= hi
  {
  }

  lemma FrontierStep(es: seq<VmmapEntry>, lo: nat, hi: nat, i: nat, page: nat)
    requires Clean(es) && InOrder(es) && AllMapped(es, lo, hi) && Frontier(es, lo, hi, i, page)
    requires i < |es| && lo <= page < hi && !TrimBreaks(es[i], page, hi)
    ensures lo <= PageAfter(es[i], page, hi) <= hi && Frontier(es, lo, hi, i + 1, PageAfter(es[i], page, hi))
  {
    FrontierEntry(es, lo, hi, i, page);
    RepaintOne(es[i], lo, page, hi, 0);
  }

  /** Once the region is done, or an entry reaches past it, the entries that follow lie beyond it. */
  lemma BeyondRegion(es: seq<VmmapEntry>, hi: nat, i: nat)
    requires Clean(es) && InOrder(es) && 0 < i <= |es| && hi <= End(es[i - 1])
    ensures forall j :: i <= j < |es| ==> hi <= es[j].pageNum
  {
    forall j | i <= j < |es| ensures hi <= es[j].pageNum {
      OrderAt(es, i - 1, j);
    }
  }

  /** The loop of VmmapChangeProt repaints every entry, though it moves the start of the region as it goes. */
  lemma {:induction false} RepaintFromProgress(es: seq<VmmapEntry>, fs: seq<VmmapEntry>, lo: nat, hi: nat, prot: nat,
                                               i: nat, page: nat)
    requires Clean(es) && InOrder(es) && AllMapped(es, lo, hi) && Frontier(es, lo, hi, i, page) && lo < hi
    requires lo <= page <= hi && fs == RepaintProgress(es, lo, hi, prot, i)
    ensures |fs| >= |es| && forall j :: i <= j < |es| ==> fs[j].Entry?
    ensures RepaintFrom(fs, |es|, i, page, hi, prot) == Repainted(es, lo, hi, prot)
    decreases |es| - i
  {
    RepaintRest(es, lo, hi, prot, i);
    if i == |es| || page == hi {
      if i < |es| {
        BeyondRegion(es, hi, i);
      }
      RepaintStops(es, lo, hi, prot, i);
    } else {
      RepaintStep(es, lo, hi, prot, i);
      FrontierEntry(es, lo, hi, i, page);
      RepaintOne(es[i], lo, page, hi, prot);
      if TrimBreaks(es[i], page, hi) {
        BeyondRegion(es, hi, i + 1);
        RepaintStops(es, lo, hi, prot, i + 1);
      } else {
        FrontierStep(es, lo, hi, i, page);
        RepaintFromProgress(es, RepaintedAt(fs, i, page, hi, prot), lo, hi, prot, i + 1, PageAfter(es[i], page, hi));
      }
    }
  }

  lemma RepaintRest(es: seq<VmmapEntry>, lo: nat, hi: nat, prot: nat, i: nat)
    requires Clean(es) && lo < hi && i <= |es|
    ensures var fs := RepaintProgress(es, lo, hi, prot, i);
      |fs| >= |es| && forall j :: i <= j < |es| ==> fs[j] == es[j]
  {
  }

  lemma RepaintFromStart(es: seq<VmmapEntry>, lo: nat, hi: nat, prot: nat)
    requires Clean(es) && InOrder(es) && AllMapped(es, lo, hi) && lo < hi
    ensures RepaintFrom(es, |es|, 0, lo, hi, prot) == Repainted(es, lo, hi, prot)
  {
    assert es[..0] == [] && RepaintProgress(es, lo, hi, prot, 0) == es;
    RepaintFromProgress(es, es, lo, hi, prot, 0, lo);
  }

  lemma {:induction false} NoExtra(es: seq<VmmapEntry>, lo: nat, hi: nat, prot: nat, i: nat)
    requires Clean(es) && lo < hi && Extras(es, lo, hi, prot) == [] && i < |es|
    ensures Extra(es[i], lo, hi, prot) == []
  {
    var n := |es| - 1;
    assert |Extras(es[..n], lo, hi, prot)| + |Extra(es[n], lo, hi, prot)| == 0;
    if i < n {
      NoExtra(es[..n], lo, hi, prot, i);
    }
  }

  lemma HeadAlone(e: VmmapEntry, lo: nat, hi: nat, prot: nat)
    requires e.Entry? && lo < hi && Extra(e, lo, hi, prot) == []
    ensures Head(e, lo, hi, prot).pageNum == e.pageNum && End(Head(e, lo, hi, prot)) == End(e)
  {
  }

  /** If nothing was appended, the order is kept. */
  lemma StillInOrder(es: seq<VmmapEntry>, lo: nat, hi: nat, prot: nat)
    requires Clean(es) && InOrder(es) && lo < hi && |Repainted(es, lo, hi, prot)| == |es|
    ensures InOrder(Repainted(es, lo, hi, prot))
  {
    var hs := Heads(es, lo, hi, prot);
    forall i | 0 <= i < |es| ensures hs[i].pageNum == es[i].pageNum && End(hs[i]) == End(es[i]) {
      NoExtra(es, lo, hi, prot, i);
      HeadAlone(es[i], lo, hi, prot);
    }
    assert Repainted(es, lo, hi, prot) == hs;
  }

  /** What the loop leaves stands for the map with new rights. */
  lemma RepaintedRegion(es: seq<VmmapEntry>, fs: seq<VmmapEntry>, lo: nat, hi: nat, prot: nat)
    requires Clean(es) && InOrder(es) && lo < hi && Permits(PageMap(es), lo, hi, prot)
    requires fs == RepaintFrom(es, |es|, 0, lo, hi, prot)
    ensures Clean(fs) && PageMap(fs) == Reprotected(PageMap(es), lo, hi, prot)
    ensures |fs| == |es| ==> InOrder(fs)
  {
    PermitsMapped(es, lo, hi, prot);
    RepaintFromStart(es, lo, hi, prot);
    RepaintedPageMap(es, lo, hi, prot);
    if |fs| == |es| {
      StillInOrder(es, lo, hi, prot);
    }
  }

  lemma PermitsMapped(es: seq<VmmapEntry>, lo: nat, hi: nat, prot: nat)
    requires Permits(PageMap(es), lo, hi, prot)
    ensures AllMapped(es, lo, hi)
  {
    forall p | lo <= p < hi ensures IsMapped(es, p) {
      assert p in PageMap(es);
    }
  }

  // ---------- searches ----------

  /** prot & ~maxProt is zero: every bit set in prot is set in maxProt. */
  predicate Within(prot: nat, maxProt: nat) {
    prot == 0 || (prot % 2 <= maxProt % 2 && Within(prot / 2, maxProt / 2))
  }

  /** The loop of VmmapCheckExistingMapping from entry i and page on. */
  predicate CheckFrom(es: seq<VmmapEntry>, i: nat, page: nat, end: nat, prot: nat)
    requires i <= |es| && forall j :: i <= j < |es| ==> es[j].Entry?
    decreases |es| - i
  {
    if i == |es| then false
    else if es[i].pageNum <= page && end <= End(es[i]) then Within(prot, es[i].maxProt)
    else if es[i].pageNum <= page && page < End(es[i]) then
      Within(prot, es[i].maxProt) && CheckFrom(es, i + 1, End(es[i]), end, prot)
    else if page < es[i].pageNum then false
    else CheckFrom(es, i + 1, page, end, prot)
  }

  /** It decides whether all pages up to the end may have these rights. */
  lemma {:induction false} CheckFromPermits(es: seq<VmmapEntry>, i: nat, page: nat, end: nat, prot: nat)
    requires Clean(es) && InOrder(es) && i <= |es| && page < end
    requires forall j :: 0 <= j < i ==> End(es[j]) <= page
    ensures CheckFrom(es, i, page, end, prot) <==> Permits(PageMap(es), page, end, prot)
    decreases |es| - i
  {
    if i == |es| || page < es[i].pageNum {
      NotCovered(es, i, page);
    } else if page < End(es[i]) {
      CoveredAttrs(es, i, page);
      assert page in PageMap(es);
      if end > End(es[i]) && Within(prot, es[i].maxProt) {
        CheckBehind(es, i);
        CheckFromPermits(es, i + 1, End(es[i]), end, prot);
      }
    } else {
      CheckFromPermits(es, i + 1, page, end, prot);
    }
  }

  lemma CheckBehind(es: seq<VmmapEntry>, i: nat)
    requires Clean(es) && InOrder(es) && i < |es|
    ensures forall j :: 0 <= j < i + 1 ==> End(es[j]) <= End(es[i])
  {
    forall j | 0 <= j < i + 1 ensures End(es[j]) <= End(es[i]) {
      OrderAt(es, j, i);
    }
  }

  lemma NothingPermitted(es: seq<VmmapEntry>, page: nat, end: nat, prot: nat)
    requires |es| == 0 && page < end
    ensures !Permits(PageMap(es), page, end, prot)
  {
    NotCovered(es, 0, page);
  }

  lemma CheckDecides(es: seq<VmmapEntry>, page: nat, end: nat, prot: nat, ok: bool)
    requires Clean(es) && InOrder(es) && ok == CheckFrom(es, 0, page, end, prot)
    ensures page < end ==> (ok <==> Permits(PageMap(es), page, end, prot))
  {
    if page < end {
      CheckFromPermits(es, 0, page, end, prot);
    }
  }

  /** Every page of the region is mapped and may have these rights. */
  ghost predicate Permits(m: imap<nat, Attr>, lo: nat, hi: nat, prot: nat) {
    forall p: nat :: lo <= p < hi ==> p in m && Within(prot, m[p].maxProt)
  }

  lemma CoveredAttr(es: seq<VmmapEntry>, i: nat, p: nat)
    requires Clean(es) && i < |es| && Covers(es[i], p)
    ensures p in PageMap(es) && PageMap(es)[p] == AttrOf(es[i])
  {
    assert Maps(es, p, AttrOf(es[i])) by {
      assert es[i] in es;
    }
    PageMapAt(es, p, AttrOf(es[i]));
  }

  lemma CoveredAttrs(es: seq<VmmapEntry>, i: nat, page: nat)
    requires Clean(es) && i < |es| && Covers(es[i], page)
    ensures forall p :: page <= p < End(es[i]) ==> p in PageMap(es) && PageMap(es)[p] == AttrOf(es[i])
  {
    forall p | page <= p < End(es[i]) ensures p in PageMap(es) && PageMap(es)[p] == AttrOf(es[i]) {
      CoveredAttr(es, i, p);
    }
  }

  lemma CoverIndex(es: seq<VmmapEntry>, i: nat, p: nat, k: nat)
    requires Clean(es) && InOrder(es) && i <= |es| && k < |es| && Covers(es[k], p)
    requires forall j :: 0 <= j < i ==> End(es[j]) <= p
    ensures i < |es| && es[i].pageNum <= p
  {
    if i < |es| {
      OrderAt(es, i, k);
    }
  }

  lemma NotCovered(es: seq<VmmapEntry>, i: nat, p: nat)
    requires Clean(es) && InOrder(es) && i <= |es|
    requires forall j :: 0 <= j < i ==> End(es[j]) <= p
    requires i < |es| ==> p < es[i].pageNum
    ensures p !in PageMap(es)
  {
    if p in PageMap(es) {
      var k := MappedBy(es, p);
      CoverIndex(es, i, p, k);
    }
  }

  /** n free pages from s on, between two entries. */
  ghost predicate Gap(es: seq<VmmapEntry>, s: nat, n: nat) {
    && (forall e :: e in es ==> e.Entry?)
    && (exists e :: e in es && End(e) <= s) && (exists e :: e in es && s + n <= e.pageNum)
    && (forall e :: e in es ==> End(e) <= s || s + n <= e.pageNum)
  }

  lemma BeforeGap(es: seq<VmmapEntry>, s: nat, n: nat, i: nat)
    requires Clean(es) && InOrder(es) && Gap(es, s, n) && n > 0 && i < |es| && s + n <= es[i].pageNum
    ensures i > 0 && (End(es[i - 1]) <= s || s + n <= es[i - 1].pageNum)
  {
    var f :| f in es && End(f) <= s;
    var j :| 0 <= j < |es| && es[j] == f;
    OrderAt(es, i, j);
    assert es[i - 1] in es;
  }

  /** In sorted entries a gap lies between two neighbours. */
  lemma GapBetween(es: seq<VmmapEntry>, s: nat, n: nat) returns (i: nat)
    requires Clean(es) && InOrder(es) && Gap(es, s, n) && n > 0
    ensures 0 < i < |es| && End(es[i - 1]) <= s && s + n <= es[i].pageNum
  {
    var e :| e in es && s + n <= e.pageNum;
    var j: nat :| j < |es| && es[j] == e;
    i := GapBelow(es, s, n, j);
  }

  lemma {:induction false} GapBelow(es: seq<VmmapEntry>, s: nat, n: nat, j: nat) returns (i: nat)
    requires Clean(es) && InOrder(es) && Gap(es, s, n) && n > 0 && j < |es| && s + n <= es[j].pageNum
    ensures 0 < i < |es| && End(es[i - 1]) <= s && s + n <= es[i].pageNum
  {
    BeforeGap(es, s, n, j);
    i := j;
    if s + n <= es[j - 1].pageNum {
      i := GapBelow(es, s, n, j - 1);
    }
  }

  lemma NeighbourGap(es: seq<VmmapEntry>, i: nat, s: nat, n: nat)
    requires Clean(es) && InOrder(es) && 0 < i < |es| && End(es[i - 1]) <= s && s + n <= es[i].pageNum
    ensures Gap(es, s, n)
  {
    assert es[i - 1] in es && es[i] in es;
    forall e | e in es ensures End(e) <= s || s + n <= e.pageNum {
      var j :| 0 <= j < |es| && es[j] == e;
      if j < i - 1 {
        assert End(es[j]) <= es[i - 1].pageNum;
      } else if j > i {
        assert End(es[i]) <= es[j].pageNum;
      }
    }
  }

  /** n free pages from s on, with mapped pages below and above. */
  ghost predicate FreeRun(m: imap<nat, Attr>, s: nat, n: nat) {
    && (exists p: nat :: p < s && p in m) && (exists p: nat :: s + n <= p && p in m)
    && (forall p: nat :: s <= p < s + n ==> p !in m)
  }

  /** They are the gaps between entries. */
  lemma GapIsFreeRun(es: seq<VmmapEntry>, s: nat, n: nat)
    requires Clean(es) && n > 0
    ensures Gap(es, s, n) <==> FreeRun(PageMap(es), s, n)
  {
    if Gap(es, s, n) {
      var e :| e in es && End(e) <= s;
      var f :| f in es && s + n <= f.pageNum;
      MappedIn(es, e, e.pageNum);
      MappedIn(es, f, f.pageNum);
      GapFree(es, s, n);
    }
    if FreeRun(PageMap(es), s, n) {
      FreeRunIsGap(es, s, n);
    }
  }

  lemma FreeRunIsGap(es: seq<VmmapEntry>, s: nat, n: nat)
    requires Clean(es) && n > 0 && FreeRun(PageMap(es), s, n)
    ensures Gap(es, s, n)
  {
    forall e | e in es ensures e.Entry? && (End(e) <= s || s + n <= e.pageNum) {
      MappedIn(es, e, if s < e.pageNum then e.pageNum else s);
    }
    var p: nat :| p < s && p in PageMap(es);
    var q: nat :| s + n <= q && q in PageMap(es);
    var i := MappedBy(es, p);
    var j := MappedBy(es, q);
    assert es[i] in es && es[j] in es;
  }

  lemma MappedIn(es: seq<VmmapEntry>, e: VmmapEntry, p: nat)
    requires Clean(es) && e in es
    ensures Sound(e) && Live(e) && (Covers(e, p) ==> p in PageMap(es))
  {
    var i: nat :| i < |es| && es[i] == e;
    if Covers(e, p) {
      CoveredAttr(es, i, p);
    }
  }

  lemma GapFree(es: seq<VmmapEntry>, s: nat, n: nat)
    requires Clean(es) && Gap(es, s, n)
    ensures forall p :: s <= p < s + n ==> p !in PageMap(es)
  {
    forall p | s <= p < s + n ensures p !in PageMap(es) {
      if p in PageMap(es) {
        var k := MappedBy(es, p);
        GapMember(es, s, n, k);
      }
    }
  }

  lemma GapMember(es: seq<VmmapEntry>, s: nat, n: nat, k: nat)
    requires Gap(es, s, n) && k < |es|
    ensures es[k].Entry? && (End(es[k]) <= s || s + n <= es[k].pageNum)
  {
    assert es[k] in es;
  }

  /** Mapping a free run adds pages and changes nothing that was there. */
  lemma OverwritesNothing(m: imap<nat, Attr>, s: nat, n: nat, a: Attr)
    requires FreeRun(m, s, n)
    ensures forall p: nat :: p in m ==> Overwritten(m, s, s + n, a)[p] == m[p]
    ensures forall p: nat :: p in Overwritten(m, s, s + n, a) ==> p in m || s <= p < s + n
  {
  }

  /** The search of VmmapFindSpace from entry i downwards. */
  function HighestFrom(es: seq<VmmapEntry>, i: nat, n: nat): nat
    requires Clean(es) && InOrder(es) && i < |es|
  {
    if i == 0 then 0
    else if es[i].pageNum - End(es[i - 1]) >= n then es[i].pageNum - n
    else HighestFrom(es, i - 1, n)
  }

  lemma {:induction false} HighestFromGap(es: seq<VmmapEntry>, i: nat, n: nat)
    requires Clean(es) && InOrder(es) && i < |es| && n > 0 && HighestFrom(es, i, n) != 0
    ensures Gap(es, HighestFrom(es, i, n), n)
  {
    if es[i].pageNum - End(es[i - 1]) >= n {
      NeighbourGap(es, i, es[i].pageNum - n, n);
    } else {
      HighestFromGap(es, i - 1, n);
    }
  }

  lemma {:induction false} HighestFromTops(es: seq<VmmapEntry>, i: nat, n: nat, s: nat, k: nat)
    requires Clean(es) && InOrder(es) && i < |es| && n > 0
    requires 0 < k <= i && End(es[k - 1]) <= s && s + n <= es[k].pageNum
    ensures 0 != HighestFrom(es, i, n) >= s
  {
    OrderAt(es, k, i);
    OrderAt(es, k - 1, i);
    if es[i].pageNum - End(es[i - 1]) < n {
      HighestFromTops(es, i - 1, n, s, k);
    }
  }

  /** r is the highest free run of n pages; 0 says there is none. */
  ghost predicate HighestRun(m: imap<nat, Attr>, n: nat, r: nat) {
    && (r == 0 || FreeRun(m, r, n))
    && forall s: nat :: FreeRun(m, s, n) ==> 0 < r && s <= r
  }

  /** r is the lowest free run of n pages that starts at or above a page; 0 says there is none. */
  ghost predicate LowestRun(m: imap<nat, Attr>, usrPage: nat, n: nat, r: nat) {
    && (r == 0 || (usrPage <= r && FreeRun(m, r, n)))
    && forall s: nat :: usrPage <= s && FreeRun(m, s, n) ==> 0 < r <= s
  }

  /** It finds the highest free run. */
  lemma {:induction false} SearchedDown(es: seq<VmmapEntry>, last: nat, r: nat, n: nat)
    requires Clean(es) && InOrder(es) && |es| == last + 1 && n > 0 && r == HighestFrom(es, last, n)
    ensures HighestRun(PageMap(es), n, r)
  {
    if r != 0 {
      HighestFromGap(es, last, n);
      GapIsFreeRun(es, r, n);
    }
    forall s: nat | FreeRun(PageMap(es), s, n) ensures r != 0 && s <= r {
      GapIsFreeRun(es, s, n);
      RunBelow(es, n, s);
    }
  }

  lemma RunBelow(es: seq<VmmapEntry>, n: nat, s: nat)
    requires Clean(es) && InOrder(es) && |es| > 0 && n > 0 && Gap(es, s, n)
    ensures 0 != HighestFrom(es, |es| - 1, n) >= s
  {
    var k := GapBetween(es, s, n);
    HighestFromTops(es, |es| - 1, n, s, k);
  }

  lemma NoRun(es: seq<VmmapEntry>, n: nat)
    requires |es| == 0
    ensures HighestRun(PageMap(es), n, 0)
  {
  }

  /** Where a run between entries i - 1 and i may start at the earliest. */
  function RunStart(es: seq<VmmapEntry>, i: nat, usrPage: nat): nat
    requires Clean(es) && InOrder(es) && 0 < i < |es|
  {
    if End(es[i - 1]) <= usrPage && usrPage < es[i].pageNum then usrPage else End(es[i - 1])
  }

  /** The search of VmmapFindMapSpaceAboveHint from entry i upwards. */
  function LowestFrom(es: seq<VmmapEntry>, i: nat, usrPage: nat, n: nat): nat
    requires Clean(es) && InOrder(es) && 0 < i
    decreases |es| - i
  {
    if i >= |es| then 0
    else if usrPage <= RunStart(es, i, usrPage) && es[i].pageNum - RunStart(es, i, usrPage) >= n then
      RunStart(es, i, usrPage)
    else LowestFrom(es, i + 1, usrPage, n)
  }

  lemma {:induction false} LowestFromGap(es: seq<VmmapEntry>, i: nat, usrPage: nat, n: nat)
    requires Clean(es) && InOrder(es) && 0 < i && n > 0 && LowestFrom(es, i, usrPage, n) != 0
    ensures usrPage <= LowestFrom(es, i, usrPage, n) && Gap(es, LowestFrom(es, i, usrPage, n), n)
    decreases |es| - i
  {
    OrderAt(es, i - 1, i);
    if usrPage <= RunStart(es, i, usrPage) && es[i].pageNum - RunStart(es, i, usrPage) >= n {
      NeighbourGap(es, i, RunStart(es, i, usrPage), n);
    } else {
      LowestFromGap(es, i + 1, usrPage, n);
    }
  }

  lemma {:induction false} LowestFromTops(es: seq<VmmapEntry>, i: nat, usrPage: nat, n: nat, s: nat, k: nat)
    requires Clean(es) && InOrder(es) && 0 < i && n > 0
    requires i <= k < |es| && End(es[k - 1]) <= s && s + n <= es[k].pageNum && usrPage <= s
    ensures 0 != LowestFrom(es, i, usrPage, n) <= s
    decreases |es| - i
  {
    OrderAt(es, i - 1, i);
    OrderAt(es, i - 1, k);
    OrderAt(es, i, k);
    if !(usrPage <= RunStart(es, i, usrPage) && es[i].pageNum - RunStart(es, i, usrPage) >= n) {
      LowestFromTops(es, i + 1, usrPage, n, s, k);
    }
  }

  /** It finds the lowest free run at or above the hint. */
  lemma SearchedUp(es: seq<VmmapEntry>, usrPage: nat, r: nat, n: nat)
    requires Clean(es) && InOrder(es) && n > 0 && r == LowestFrom(es, 1, usrPage, n)
    ensures LowestRun(PageMap(es), usrPage, n, r)
  {
    if r != 0 {
      LowestFromGap(es, 1, usrPage, n);
      GapIsFreeRun(es, r, n);
    }
    forall s: nat | usrPage <= s && FreeRun(PageMap(es), s, n) ensures r != 0 && r <= s {
      GapIsFreeRun(es, s, n);
      RunAbove(es, usrPage, n, s);
    }
  }

  lemma RunAbove(es: seq<VmmapEntry>, usrPage: nat, n: nat, s: nat)
    requires Clean(es) && InOrder(es) && n > 0 && usrPage <= s && Gap(es, s, n)
    ensures 0 != LowestFrom(es, 1, usrPage, n) <= s
  {
    var k := GapBetween(es, s, n);
    LowestFromTops(es, 1, usrPage, n, s, k);
  }
}
