/** What VmmapChangeProt makes of sorted entries, and what that does to the map. */
module Repaint {
  import opened PageMaps

  function Painted(e: VmmapEntry, from: nat, to: nat, prot: nat): VmmapEntry
    requires e.Entry? && from <= to
  {
    Entry(from, to - from, prot, e.maxProt, e.vmmapType, false)
  }

  /** The entry as VmmapChangeProt leaves it in its slot. */
  function Head(e: VmmapEntry, lo: nat, hi: nat, prot: nat): VmmapEntry
    requires e.Entry?
  {
    if e.pageNum < lo && lo < End(e) then e.(npages := lo - e.pageNum)
    else if e.pageNum < hi && hi < End(e) then e.(pageNum := hi, npages := End(e) - hi)
    else if lo <= e.pageNum && End(e) <= hi then e.(prot := prot)
    else e
  }

  /** The entries it appends while looking at e. */
  function Extra(e: VmmapEntry, lo: nat, hi: nat, prot: nat): seq<VmmapEntry>
    requires e.Entry? && lo < hi
  {
    if Straddles(e, lo, hi) then [RightPiece(e, hi), Painted(e, lo, hi, prot)]
    else if e.pageNum < lo && lo < End(e) then [Painted(e, lo, End(e), prot)]
    else if e.pageNum < hi && hi < End(e) then [Painted(e, e.pageNum, hi, prot)]
    else []
  }

  function Heads(es: seq<VmmapEntry>, lo: nat, hi: nat, prot: nat): (fs: seq<VmmapEntry>)
    requires forall i :: 0 <= i < |es| ==> es[i].Entry?
    ensures |fs| == |es| && forall i :: 0 <= i < |es| ==> fs[i] == Head(es[i], lo, hi, prot)
  {
    seq(|es|, i requires 0 <= i < |es| => Head(es[i], lo, hi, prot))
  }

  function Extras(es: seq<VmmapEntry>, lo: nat, hi: nat, prot: nat): seq<VmmapEntry>
    requires lo < hi && forall i :: 0 <= i < |es| ==> es[i].Entry?
  {
    if es == [] then []
    else Extras(es[..|es| - 1], lo, hi, prot) + Extra(es[|es| - 1], lo, hi, prot)
  }

  function Repainted(es: seq<VmmapEntry>, lo: nat, hi: nat, prot: nat): seq<VmmapEntry>
    requires lo < hi && forall i :: 0 <= i < |es| ==> es[i].Entry?
  {
    Heads(es, lo, hi, prot) + Extras(es, lo, hi, prot)
  }

  // ---------- the same entry by entry ----------

  function Pieces(e: VmmapEntry, lo: nat, hi: nat, prot: nat): seq<VmmapEntry>
    requires e.Entry? && lo < hi
  {
    [Head(e, lo, hi, prot)] + Extra(e, lo, hi, prot)
  }

  function AllPieces(es: seq<VmmapEntry>, lo: nat, hi: nat, prot: nat): seq<VmmapEntry>
    requires lo < hi && forall i :: 0 <= i < |es| ==> es[i].Entry?
  {
    if es == [] then []
    else AllPieces(es[..|es| - 1], lo, hi, prot) + Pieces(es[|es| - 1], lo, hi, prot)
  }

  lemma SameStep(hs: seq<VmmapEntry>, h: seq<VmmapEntry>, xs: seq<VmmapEntry>, x: seq<VmmapEntry>, ps: seq<VmmapEntry>)
    requires multiset(hs + xs) == multiset(ps)
    ensures multiset((hs + h) + (xs + x)) == multiset(ps + (h + x))
  {
    Regroup(hs, h, xs, x);
  }

  lemma {:induction false} LastPieces(es: seq<VmmapEntry>, n: nat, lo: nat, hi: nat, prot: nat)
    requires lo < hi && n + 1 == |es| && forall i :: 0 <= i < |es| ==> es[i].Entry?
    ensures Repainted(es, lo, hi, prot) ==
      (Heads(es[..n], lo, hi, prot) + [Head(es[n], lo, hi, prot)]) +
      (Extras(es[..n], lo, hi, prot) + Extra(es[n], lo, hi, prot))
    ensures AllPieces(es, lo, hi, prot) ==
      AllPieces(es[..n], lo, hi, prot) + ([Head(es[n], lo, hi, prot)] + Extra(es[n], lo, hi, prot))
  {
    assert Heads(es, lo, hi, prot) == Heads(es[..n], lo, hi, prot) + [Head(es[n], lo, hi, prot)];
  }

  lemma {:induction false} SamePieces(es: seq<VmmapEntry>, lo: nat, hi: nat, prot: nat)
    requires lo < hi && forall i :: 0 <= i < |es| ==> es[i].Entry?
    ensures multiset(Repainted(es, lo, hi, prot)) == multiset(AllPieces(es, lo, hi, prot))
  {
    if es != [] {
      var n := |es| - 1;
      var front := es[..n];
      hide Heads, Extras, AllPieces, Head, Extra;
      LastPieces(es, n, lo, hi, prot);
      SamePieces(front, lo, hi, prot);
      SameStep(Heads(front, lo, hi, prot), [Head(es[n], lo, hi, prot)], Extras(front, lo, hi, prot),
               Extra(es[n], lo, hi, prot), AllPieces(front, lo, hi, prot));
    }
  }

  lemma Regroup(a: seq<VmmapEntry>, b: seq<VmmapEntry>, c: seq<VmmapEntry>, d: seq<VmmapEntry>)
    ensures multiset((a + b) + (c + d)) == multiset(a + c) + multiset(b + d)
  {
  }

  predicate Inside(f: VmmapEntry, e: VmmapEntry)
    requires e.Entry?
  {
    Live(f) && Sound(f) && e.pageNum <= f.pageNum && End(f) <= End(e)
  }

  lemma PiecesClean(e: VmmapEntry, lo: nat, hi: nat, prot: nat)
    requires Live(e) && Sound(e) && lo < hi
    ensures Clean(Pieces(e, lo, hi, prot))
    ensures forall f :: f in Pieces(e, lo, hi, prot) ==> Inside(f, e)
  {
  }

  lemma {:induction false} AllPiecesClean(es: seq<VmmapEntry>, lo: nat, hi: nat, prot: nat)
    requires Clean(es) && lo < hi
    ensures Clean(AllPieces(es, lo, hi, prot))
    ensures forall f :: f in AllPieces(es, lo, hi, prot) ==> exists i :: 0 <= i < |es| && Inside(f, es[i])
  {
    if es != [] {
      var n := |es| - 1;
      AllPiecesClean(es[..n], lo, hi, prot);
      PiecesClean(es[n], lo, hi, prot);
      forall f | f in AllPieces(es[..n], lo, hi, prot)
        ensures exists i :: 0 <= i < |es| && Inside(f, es[i])
        ensures forall g :: g in Pieces(es[n], lo, hi, prot) ==> Apart(f, g)
      {
        var i :| 0 <= i < n && Inside(f, es[..n][i]);
        assert Inside(f, es[i]);
        ApartAt(es, i, n);
      }
      CleanAppend(AllPieces(es[..n], lo, hi, prot), Pieces(es[n], lo, hi, prot));
    }
  }

  lemma CleanAppend(es: seq<VmmapEntry>, fs: seq<VmmapEntry>)
    requires Clean(es) && Clean(fs)
    requires forall e, f :: e in es && f in fs ==> Apart(e, f)
    ensures Clean(es + fs)
  {
    forall i, j | 0 <= i < j < |es + fs| ensures Apart((es + fs)[i], (es + fs)[j]) {
      if i < |es| && |es| <= j {
        assert es[i] in es && fs[j - |es|] in fs;
      }
    }
  }

  function Paint(a: Attr, p: nat, lo: nat, hi: nat, prot: nat): Attr {
    if lo <= p < hi then a.(prot := prot) else a
  }

  lemma PiecesMaps(e: VmmapEntry, lo: nat, hi: nat, prot: nat, p: nat, a: Attr)
    requires Live(e) && Sound(e) && lo < hi
    ensures Maps(Pieces(e, lo, hi, prot), p, a) <==> Covers(e, p) && a == Paint(AttrOf(e), p, lo, hi, prot)
  {
    var fs := Pieces(e, lo, hi, prot);
    if Covers(e, p) {
      var f := if |fs| >= 2 && Covers(fs[1], p) then fs[1] else if |fs| >= 3 && Covers(fs[2], p) then fs[2] else fs[0];
      assert f in fs && Covers(f, p);
    }
  }

  lemma MapsAppend(es: seq<VmmapEntry>, fs: seq<VmmapEntry>, p: nat, a: Attr)
    ensures Maps(es + fs, p, a) <==> Maps(es, p, a) || Maps(fs, p, a)
  {
    assert forall e :: e in es + fs <==> e in es || e in fs;
  }

  lemma {:induction false} AllPiecesMaps(es: seq<VmmapEntry>, lo: nat, hi: nat, prot: nat, p: nat, a: Attr)
    requires Clean(es) && lo < hi
    ensures Maps(AllPieces(es, lo, hi, prot), p, a) <==>
      exists b :: Maps(es, p, b) && a == Paint(b, p, lo, hi, prot)
  {
    if es != [] {
      var n := |es| - 1;
      var ds := es[..n];
      AllPiecesMaps(ds, lo, hi, prot, p, a);
      PiecesMaps(es[n], lo, hi, prot, p, a);
      MapsAppend(AllPieces(ds, lo, hi, prot), Pieces(es[n], lo, hi, prot), p, a);
      assert es == ds + [es[n]];
      forall b ensures Maps(es, p, b) <==> Maps(ds, p, b) || (Covers(es[n], p) && b == AttrOf(es[n])) {
        MapsAppend(ds, [es[n]], p, b);
        assert es[n] in [es[n]];
      }
    }
  }

  ghost function Reprotected(m: imap<nat, Attr>, lo: nat, hi: nat, prot: nat): imap<nat, Attr> {
    imap p: nat | p in m :: Paint(m[p], p, lo, hi, prot)
  }

  /** Repainting keeps the entries clean and changes prot on exactly [lo, hi). */
  lemma RepaintedPageMap(es: seq<VmmapEntry>, lo: nat, hi: nat, prot: nat)
    requires Clean(es) && lo < hi
    ensures Clean(Repainted(es, lo, hi, prot))
    ensures PageMap(Repainted(es, lo, hi, prot)) == Reprotected(PageMap(es), lo, hi, prot)
  {
    var fs, gs := Repainted(es, lo, hi, prot), AllPieces(es, lo, hi, prot);
    SamePieces(es, lo, hi, prot);
    AllPiecesClean(es, lo, hi, prot);
    KeepsMap(gs, fs);
    forall i | 0 <= i < |fs| ensures Live(fs[i]) && Sound(fs[i]) {
      assert fs[i] in multiset(gs);
    }
    AllPiecesPageMap(es, lo, hi, prot);
  }

  lemma PaintedAt(es: seq<VmmapEntry>, lo: nat, hi: nat, prot: nat, p: nat, m: imap<nat, Attr>, n: imap<nat, Attr>)
    requires Clean(es) && lo < hi && Clean(AllPieces(es, lo, hi, prot))
    requires m == Reprotected(PageMap(es), lo, hi, prot) && n == PageMap(AllPieces(es, lo, hi, prot))
    ensures (p in n <==> p in m) && (p in m ==> n[p] == m[p])
  {
    hide AllPieces, PageMap, Paint, Maps;
    var gs := AllPieces(es, lo, hi, prot);
    if p in PageMap(es) {
      PageMapAt(es, p, PageMap(es)[p]);
      AllPiecesMaps(es, lo, hi, prot, p, m[p]);
      PageMapAt(gs, p, m[p]);
    } else if p in PageMap(gs) {
      Unpainted(es, lo, hi, prot, p);
    }
  }

  lemma AllPiecesPageMap(es: seq<VmmapEntry>, lo: nat, hi: nat, prot: nat)
    requires Clean(es) && lo < hi && Clean(AllPieces(es, lo, hi, prot))
    ensures PageMap(AllPieces(es, lo, hi, prot)) == Reprotected(PageMap(es), lo, hi, prot)
  {
    hide AllPieces, PageMap, Reprotected;
    var m, n := Reprotected(PageMap(es), lo, hi, prot), PageMap(AllPieces(es, lo, hi, prot));
    forall p: nat
      ensures p in n <==> p in m
      ensures p in m ==> n[p] == m[p]
    {
      PaintedAt(es, lo, hi, prot, p, m, n);
    }
  }

  lemma Unpainted(es: seq<VmmapEntry>, lo: nat, hi: nat, prot: nat, p: nat)
    requires Clean(es) && lo < hi && Clean(AllPieces(es, lo, hi, prot))
    requires p in PageMap(AllPieces(es, lo, hi, prot))
    ensures p in PageMap(es)
  {
    var gs := AllPieces(es, lo, hi, prot);
    var a := PageMap(gs)[p];
    PageMapAt(gs, p, a);
    AllPiecesMaps(es, lo, hi, prot, p, a);
  }
}
