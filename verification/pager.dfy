/** The page map of pager.c: an unordered array of page ranges, sorted when an operation needs it. */
module Pager {
  import opened Options
  import opened Leonardo
  import opened Heaps
  import opened PageMaps
  import opened Repaint
  import opened PagerLoops
  import QSort
  import BSearch

  const START_ENTRIES: nat := 2

  class Vmmap {
    var vmentry: array<VmmapEntry>
    var nvalid: nat
    var size: nat
    var isSorted: bool

    ghost predicate Shape()
      reads this
    {
      nvalid <= size == vmentry.Length && START_ENTRIES <= size
    }

    ghost function Entries(): seq<VmmapEntry>
      requires Shape()
      reads this, vmentry
    {
      vmentry[..nvalid]
    }

    /** Between operations: entries disjoint, none empty or marked; in order if so flagged. */
    ghost predicate Valid()
      reads this, vmentry
    {
      Shape() && Clean(Entries()) && (isSorted ==> InOrder(Entries()))
    }

    /** The plain map the structure stands for. */
    ghost function Map(): imap<nat, Attr>
      requires Shape()
      reads this, vmentry
    {
      PageMap(Entries())
    }

    /** VmmapCtor() */
    constructor ()
      ensures Valid() && nvalid == 0 && Map() == imap[]
      ensures fresh(vmentry)
    {
      vmentry := new VmmapEntry[START_ENTRIES];
      nvalid, size, isSorted := 0, START_ENTRIES, true;
      new;
      assert Entries() == [];
    }

    /** The loops of VmmapRemoveMarked() over the first n slots; ok is false when every entry was marked. */
    static method Compact(a: array<VmmapEntry>, n: nat) returns (m: nat, ok: bool)
      requires 0 < n <= a.Length && forall i :: 0 <= i < n ==> a[i].Entry?
      modifies a
      ensures ok <==> exists e :: e in old(a[..n]) && Live(e)
      ensures ok ==> 0 < m <= n && a[..m] in LiveKept(old(a[..n])) && forall e :: e in a[..m] ==> Live(e)
    {
      m, ok := DropTrailing(a, n);
      if ok {
        ghost var es := old(a[..n]);
        assert a[..][..m] == a[..m] == es[..m];
        assert Front(es, a[..], 0, m - 1) by {
          assert forall j :: 0 <= j < m ==> a[j] == a[..m][j];
        }
        m := CompactFront(a, m - 1, es);
      }
    }

    /** The first loop: marked entries at the end go. */
    static method DropTrailing(a: array<VmmapEntry>, n: nat) returns (m: nat, ok: bool)
      requires 0 < n <= a.Length && forall i :: 0 <= i < n ==> a[i].Entry?
      modifies a
      ensures ok <==> exists e :: e in old(a[..n]) && Live(e)
      ensures m <= n && a[..m] == old(a[..n])[..m] && a[..m] in LiveKept(old(a[..n]))
      ensures ok ==> 0 < m && Live(a[m - 1])
    {
      hide KeepsLive;
      ghost var es := a[..n];
      AllLiveKept(es);
      m, ok := n, false;
      while m > 0 && !ok
        invariant m <= n && (ok ==> m > 0 && Live(es[m - 1]))
        invariant a[..m] == es[..m] && a[..m] in LiveKept(es)
        invariant forall i :: m <= i < n ==> !Live(es[i])
        decreases m, !ok
      {
        assert a[m - 1] == es[m - 1];
        if a[m - 1].removed {
          m := m - 1;
          DropMarked(es, es[..m + 1], m);
          assert es[..m + 1][..m] == es[..m];
          a[m] := NullEntry;
        } else {
          ok := true;
        }
      }
    }

    /** The second loop: live entries from the end fill the marked places at the front. */
    static method CompactFront(a: array<VmmapEntry>, last0: nat, ghost es: seq<VmmapEntry>) returns (m: nat)
      requires a[..] in Fronts(es, 0, last0)
      modifies a
      ensures 0 < m <= last0 + 1 && m <= a.Length && a[..m] in LiveKept(es)
      ensures forall e :: e in a[..m] ==> Live(e)
    {
      var i: nat, last: nat := 0, last0;
      while i < last
        invariant last <= last0 && a[..] in Fronts(es, i, last)
        decreases last + 1 - i
      {
        FrontSteps(es, a[..], i, last);
        if a[i].removed {
          last := FillPlace(a, i, last, es);
        }
        i := i + 1;
      }
      FrontEnds(es, a[..], i, last);
      m := last + 1;
      assert a[..m] == a[..][..m];
    }

    /** The last entry moves into the marked place i; marked entries before it go. */
    static method FillPlace(a: array<VmmapEntry>, i: nat, last0: nat, ghost es: seq<VmmapEntry>) returns (last: nat)
      requires a[..] in Fronts(es, i, last0) && i < last0 < a.Length && a[i].Entry? && a[i].removed
      modifies a
      ensures last < last0 && a[..] in Fronts(es, i + 1, last)
    {
      ghost var s := a[..];
      FilledKeeps(es, s, i, last0);
      MoveEntry(a, i, last0);
      assert a[..last0] == a[..][..last0];
      last := SkipMarked(a, i, last0 - 1, es);
      assert a[..last + 1] == a[..][..last + 1];
      FrontFills(es, s, i, last0, a[..], last);
    }

    static method MoveEntry(a: array<VmmapEntry>, i: nat, last: nat)
      requires i < last < a.Length
      modifies a
      ensures a[..] == Filled(old(a[..]), i, last)
    {
      a[i] := a[last];
      a[last] := NullEntry;
    }

    static method SkipMarked(a: array<VmmapEntry>, i: nat, last0: nat, ghost es: seq<VmmapEntry>) returns (last: nat)
      requires i <= last0 < a.Length && Live(a[i]) && a[..last0 + 1] in LiveKept(es)
      requires forall j :: 0 <= j <= last0 ==> a[j].Entry?
      modifies a
      ensures i <= last <= last0 && Live(a[last]) && a[..last + 1] in LiveKept(es)
      ensures a[..last + 1] == old(a[..])[..last + 1]
    {
      ghost var s := a[..];
      last := last0;
      while last > i && a[last].removed
        invariant i <= last <= last0 && a[..last + 1] in LiveKept(es)
        invariant a[..last + 1] == s[..last + 1]
      {
        DropMarked(es, s[..last + 1], last);
        assert s[..last + 1][..last] == s[..last];
        a[last] := NullEntry;
        last := last - 1;
      }
      assert s[last] == a[last];
    }

    /** VmmapRemoveMarked(). When every entry is marked it exits the program: ok is then false. */
    method RemoveMarked() returns (ok: bool)
      requires Shape() && Marked(Entries())
      modifies this, vmentry
      ensures ok <==> AnyLeft(old(Entries()))
      ensures Shape() && vmentry == old(vmentry) && size == old(size) && nvalid <= old(nvalid)
      ensures ok ==> Clean(Entries()) && Map() == old(Map())
      ensures ok ==> isSorted == (old(isSorted) && old(nvalid) == 0)
    {
      if nvalid == 0 {
        return true;
      }
      ghost var es := Entries();
      var m, live := Compact(vmentry, nvalid);
      if !live {
        return false;
      }
      nvalid, isSorted := m, false;
      CompactedMap(es, Entries());
      return true;
    }

    /** VmmapMakeSorted(). */
    method MakeSorted()
      requires Valid() && nvalid < SORT_LIMIT
      modifies this, vmentry
      ensures Valid() && isSorted && Map() == old(Map())
      ensures vmentry == old(vmentry) && size == old(size) && nvalid <= old(nvalid)
      ensures nvalid == 0 <==> old(nvalid) == 0
    {
      if isSorted {
        return;
      }
      ghost var es := Entries();
      var ok := RemoveMarked();
      CleanLeft(es);
      ghost var fs := Entries();
      SameEmpty(es, fs);
      CmpEntriesPreorder();
      QSort.QSort(vmentry, nvalid, CmpEntries);
      isSorted := true;
      SortedEntries(fs, Entries());
    }

    /** VmmapAdd(): the array doubles when it is full. */
    method Add(pageNum: nat, npages: nat, prot: nat, maxProt: nat, vmmapType: VmmapEntryType)
      requires Shape()
      modifies this, vmentry
      ensures Shape() && (vmentry == old(vmentry) || fresh(vmentry))
      ensures Entries() == old(Entries()) + [Entry(pageNum, npages, prot, maxProt, vmmapType, false)]
      ensures !isSorted && size == (if old(nvalid) == old(size) then 2 * old(size) else old(size))
    {
      ghost var es := Entries();
      if nvalid == size {
        Grow();
      }
      vmentry[nvalid] := Entry(pageNum, npages, prot, maxProt, vmmapType, false);
      isSorted := false;
      nvalid := nvalid + 1;
      assert Entries()[..nvalid - 1] == es;
    }

    /** realloc() to twice the size. */
    method Grow()
      requires Shape()
      modifies this`vmentry, this`size
      ensures Shape() && fresh(vmentry) && size == 2 * old(size)
      ensures Entries() == old(Entries())
    {
      var newMap := new VmmapEntry[2 * size];
      forall i | 0 <= i < nvalid {
        newMap[i] := vmentry[i];
      }
      assert newMap[..nvalid] == vmentry[..nvalid];
      vmentry := newMap;
      size := 2 * size;
    }

    /** The body of the loop of VmmapUpdate() at entry i; stop is its break. */
    method TrimEntry(i: nat, lo: nat, hi: nat) returns (stop: bool)
      requires Shape() && i < nvalid && Entries()[i].Entry? && lo < hi
      modifies this, vmentry
      ensures Shape() && (vmentry == old(vmentry) || fresh(vmentry))
      ensures Entries() == Trimmed(old(Entries()), i, lo, hi) && stop == TrimBreaks(old(Entries())[i], lo, hi)
    {
      var ent := vmentry[i];
      var entEnd := ent.pageNum + ent.npages;
      if ent.pageNum < lo && hi < entEnd {
        SplitEntry(i, lo, hi, ent);
        return true;
      } else if ent.pageNum < lo && lo < entEnd {
        vmentry[i] := ent.(npages := lo - ent.pageNum);
      } else if ent.pageNum < hi && hi < entEnd {
        vmentry[i] := ent.(pageNum := hi, npages := entEnd - hi);
        return true;
      } else if lo <= ent.pageNum && entEnd <= hi {
        vmentry[i] := ent.(removed := true);
      } else {
        assert hi <= ent.pageNum || entEnd <= lo;
      }
      return false;
    }

    /** The entry straddles the region: its right part is appended, its left part stays. */
    method SplitEntry(i: nat, lo: nat, hi: nat, ent: VmmapEntry)
      requires Shape() && i < nvalid && ent.Entry? && Straddles(ent, lo, hi) && lo < hi
      modifies this, vmentry
      ensures Shape() && (vmentry == old(vmentry) || fresh(vmentry))
      ensures Entries() == old(Entries())[i := Trim(ent, lo, hi)] + [RightPiece(ent, hi)]
    {
      ghost var fs := Entries();
      Add(hi, ent.pageNum + ent.npages - hi, ent.prot, ent.maxProt, ent.vmmapType);
      SetEntry(i, ent.(npages := lo - ent.pageNum));
      assert (fs + [RightPiece(ent, hi)])[i := Trim(ent, lo, hi)] == fs[i := Trim(ent, lo, hi)] + [RightPiece(ent, hi)];
    }

    /** An update of the entry that slot i points to. */
    method SetEntry(i: nat, e: VmmapEntry)
      requires Shape() && i < nvalid
      modifies vmentry
      ensures Entries() == old(Entries())[i := e]
    {
      vmentry[i] := e;
    }

    /** VmmapUpdate(): overwrites the region, or removes it. Exits the program, with ok false, when
        nothing is left of a non-empty map. */
    method Update(pageNum: nat, npages: nat, prot: nat, maxProt: nat, vmmapType: VmmapEntryType, remove: bool)
      returns (ok: bool)
      requires Valid() && nvalid < SORT_LIMIT && npages > 0 && pageNum + npages < PAGE_LIMIT
      modifies this, vmentry
      ensures vmentry == old(vmentry) || fresh(vmentry)
      ensures ok <==> !remove || old(nvalid) == 0 || Nonempty(Without(old(Map()), pageNum, pageNum + npages))
      ensures ok ==> Valid()
      ensures ok && remove ==> Map() == Without(old(Map()), pageNum, pageNum + npages)
      ensures ok && !remove ==>
        Map() == Overwritten(old(Map()), pageNum, pageNum + npages, Attr(prot, maxProt, vmmapType))
    {
      MakeSorted();
      Rewrite(pageNum, npages, prot, maxProt, vmmapType, remove);
      ok := RemoveMarked();
    }

    /** What its entries stand for before VmmapRemoveMarked(). */
    method Rewrite(pageNum: nat, npages: nat, prot: nat, maxProt: nat, vmmapType: VmmapEntryType, remove: bool)
      requires Valid() && isSorted && npages > 0 && pageNum + npages < PAGE_LIMIT
      modifies this, vmentry
      ensures Shape() && (vmentry == old(vmentry) || fresh(vmentry)) && Marked(Entries())
      ensures AnyLeft(Entries()) <==>
        !remove || old(nvalid) == 0 || Nonempty(Without(old(Map()), pageNum, pageNum + npages))
      ensures remove ==> Map() == Without(old(Map()), pageNum, pageNum + npages)
      ensures !remove ==>
        Map() == Overwritten(old(Map()), pageNum, pageNum + npages, Attr(prot, maxProt, vmmapType))
    {
      ghost var es := Entries();
      ghost var extra := RewriteEntries(pageNum, npages, prot, maxProt, vmmapType, remove);
      UpdatedRegion(es, Entries(), pageNum, pageNum + npages, extra);
    }

    /** Its loop and the VmmapAdd() after it. */
    method RewriteEntries(pageNum: nat, npages: nat, prot: nat, maxProt: nat, vmmapType: VmmapEntryType, remove: bool)
      returns (ghost extra: seq<VmmapEntry>)
      requires Valid() && isSorted && npages > 0 && pageNum + npages < PAGE_LIMIT
      modifies this, vmentry
      ensures Shape() && (vmentry == old(vmentry) || fresh(vmentry))
      ensures Adds(extra, pageNum, pageNum + npages, remove, Attr(prot, maxProt, vmmapType))
      ensures Entries() == Updated(old(Entries()), pageNum, pageNum + npages, extra)
    {
      TrimRegion(pageNum, pageNum + npages);
      extra := [];
      if !remove {
        Add(pageNum, npages, prot, maxProt, vmmapType);
        extra := [Entry(pageNum, npages, prot, maxProt, vmmapType, false)];
      }
    }

    /** The loop of VmmapUpdate() trims every entry. */
    method TrimRegion(lo: nat, hi: nat)
      requires Valid() && isSorted && lo < hi < PAGE_LIMIT
      modifies this, vmentry
      ensures Shape() && (vmentry == old(vmentry) || fresh(vmentry))
      ensures Entries() == TrimAll(old(Entries()), lo, hi) + RightPieces(old(Entries()), lo, hi)
    {
      TrimFromStart(Entries(), lo, hi);
      TrimLoop(lo, hi);
    }

    method TrimLoop(lo: nat, hi: nat)
      requires Shape() && lo < hi && forall j :: 0 <= j < nvalid ==> Entries()[j].Entry?
      modifies this, vmentry
      ensures Shape() && (vmentry == old(vmentry) || fresh(vmentry))
      ensures Entries() == TrimFrom(old(Entries()), 0, lo, hi)
    {
      var i: nat, stop := 0, false;
      ghost var fs := Entries();
      while i < nvalid && !stop
        invariant Shape() && (vmentry == old(vmentry) || fresh(vmentry)) && i <= nvalid
        invariant !stop ==> forall j :: i <= j < nvalid ==> Entries()[j].Entry?
        invariant TrimFrom(fs, 0, lo, hi) == if stop then Entries() else TrimFrom(Entries(), i, lo, hi)
        decreases !stop, nvalid - i
      {
        stop := TrimEntry(i, lo, hi);
        i := i + 1;
      }
    }

    /** VmmapAddWithOverwrite() */
    method AddWithOverwrite(pageNum: nat, npages: nat, prot: nat, maxProt: nat, vmmapType: VmmapEntryType)
      requires Valid() && nvalid < SORT_LIMIT && npages > 0 && pageNum + npages < PAGE_LIMIT
      modifies this, vmentry
      ensures vmentry == old(vmentry) || fresh(vmentry)
      ensures Valid()
      ensures Map() == Overwritten(old(Map()), pageNum, pageNum + npages, Attr(prot, maxProt, vmmapType))
    {
      var ok := Update(pageNum, npages, prot, maxProt, vmmapType, false);
    }

    /** VmmapRemove() */
    method Remove(pageNum: nat, npages: nat, vmmapType: VmmapEntryType) returns (ok: bool)
      requires Valid() && nvalid < SORT_LIMIT && npages > 0 && pageNum + npages < PAGE_LIMIT
      modifies this, vmentry
      ensures vmentry == old(vmentry) || fresh(vmentry)
      ensures ok <==> old(nvalid) == 0 || Nonempty(Without(old(Map()), pageNum, pageNum + npages))
      ensures ok ==> Valid() && Map() == Without(old(Map()), pageNum, pageNum + npages)
    {
      ok := Update(pageNum, npages, 0, 0, vmmapType, true);
    }

    /** VmmapCheckExistingMapping() */
    method CheckExistingMapping(pageNum: nat, npages: nat, prot: nat) returns (ok: bool)
      requires Valid() && nvalid < SORT_LIMIT && pageNum + npages < PAGE_LIMIT
      modifies this, vmentry
      ensures Valid() && Map() == old(Map()) && vmentry == old(vmentry) && nvalid <= old(nvalid)
      ensures npages > 0 ==> (ok <==> Permits(Map(), pageNum, pageNum + npages, prot))
    {
      if nvalid == 0 {
        if npages > 0 {
          NothingPermitted(Entries(), pageNum, pageNum + npages, prot);
        }
        return false;
      }
      ok := CheckMapped(pageNum, npages, prot);
    }

    /** With at least one entry. */
    method CheckMapped(pageNum: nat, npages: nat, prot: nat) returns (ok: bool)
      requires Valid() && nvalid < SORT_LIMIT && pageNum + npages < PAGE_LIMIT
      modifies this, vmentry
      ensures Valid() && Map() == old(Map()) && vmentry == old(vmentry) && nvalid <= old(nvalid)
      ensures npages > 0 ==> (ok <==> Permits(Map(), pageNum, pageNum + npages, prot))
    {
      MakeSorted();
      ok := CheckSorted(vmentry, nvalid, pageNum, pageNum + npages, prot);
      CheckDecides(Entries(), pageNum, pageNum + npages, prot, ok);
    }

    /** Its loop, over the sorted slots. */
    static method CheckSorted(a: array<VmmapEntry>, n: nat, pageNum: nat, end: nat, prot: nat) returns (ok: bool)
      requires n <= a.Length && Clean(a[..n])
      ensures ok == CheckFrom(a[..n], 0, pageNum, end, prot)
    {
      var page: nat := pageNum;
      ghost var es := a[..n];
      for i := 0 to n
        invariant CheckFrom(es, i, page, end, prot) == CheckFrom(es, 0, pageNum, end, prot)
      {
        var ent := a[i];
        assert ent == es[i] && Live(es[i]);
        var entEnd := ent.pageNum + ent.npages;
        if ent.pageNum <= page && end <= entEnd {
          return Within(prot, ent.maxProt);
        } else if ent.pageNum <= page && page < entEnd {
          if !Within(prot, ent.maxProt) {
            return false;
          }
          page := entEnd;
        } else if page < ent.pageNum {
          return false;
        }
      }
      return false;
    }

    /** VmmapChangeProt() */
    method ChangeProt(pageNum: nat, npages: nat, prot: nat) returns (ok: bool)
      requires Valid() && nvalid < SORT_LIMIT && pageNum + npages < PAGE_LIMIT
      modifies this, vmentry
      ensures Valid() && (vmentry == old(vmentry) || fresh(vmentry))
      ensures npages > 0 ==> (ok <==> Permits(old(Map()), pageNum, pageNum + npages, prot))
      ensures ok && npages > 0 ==> Map() == Reprotected(old(Map()), pageNum, pageNum + npages, prot)
      ensures !ok || npages == 0 ==> Map() == old(Map())
    {
      ok := CheckExistingMapping(pageNum, npages, prot);
      if ok {
        MakeSorted();
        RepaintRegion(pageNum, npages, prot);
      }
    }

    /** Its loop, which appends entries while it looks at those that were there. */
    method RepaintRegion(pageNum: nat, npages: nat, prot: nat)
      requires Valid() && isSorted && pageNum + npages < PAGE_LIMIT
      requires npages > 0 ==> Permits(Map(), pageNum, pageNum + npages, prot)
      modifies this, vmentry
      ensures Valid() && (vmentry == old(vmentry) || fresh(vmentry))
      ensures npages > 0 ==> Map() == Reprotected(old(Map()), pageNum, pageNum + npages, prot)
      ensures npages == 0 ==> Map() == old(Map())
    {
      ghost var es := Entries();
      RepaintLoop(pageNum, npages, prot);
      if npages > 0 {
        RepaintedRegion(es, Entries(), pageNum, pageNum + npages, prot);
      }
    }

    method RepaintLoop(pageNum: nat, npages: nat, prot: nat)
      requires Shape() && forall j :: 0 <= j < nvalid ==> Entries()[j].Entry?
      modifies this, vmentry
      ensures Shape() && (vmentry == old(vmentry) || fresh(vmentry))
      ensures Entries() == RepaintFrom(old(Entries()), old(nvalid), 0, pageNum, pageNum + npages, prot)
      ensures isSorted ==> old(isSorted) && nvalid == old(nvalid)
    {
      var i: nat, n: nat, page: nat, left: nat, stop := 0, nvalid, pageNum, npages, false;
      ghost var fs := Entries();
      while i < n && left > 0 && !stop
        invariant Shape() && (vmentry == old(vmentry) || fresh(vmentry)) && i <= n <= nvalid
        invariant page + left == pageNum + npages
        invariant !stop ==> forall j :: i <= j < n ==> Entries()[j].Entry?
        invariant RepaintFrom(fs, n, 0, pageNum, pageNum + npages, prot) ==
          if stop then Entries() else RepaintFrom(Entries(), n, i, page, pageNum + npages, prot)
        invariant isSorted ==> old(isSorted) && nvalid == n
        decreases !stop, n - i
      {
        page, left, stop := RepaintNext(n, i, page, left, prot);
        i := i + 1;
      }
    }

    /** One round of the loop. */
    method RepaintNext(n: nat, i: nat, page0: nat, left0: nat, prot: nat) returns (page: nat, left: nat, stop: bool)
      requires Shape() && i < n <= nvalid && left0 > 0 && forall j :: i <= j < n ==> Entries()[j].Entry?
      modifies this, vmentry
      ensures Shape() && (vmentry == old(vmentry) || fresh(vmentry))
      ensures n <= nvalid && page + left == page0 + left0 && forall j :: i + 1 <= j < n ==> Entries()[j].Entry?
      ensures RepaintFrom(old(Entries()), n, i, page0, page0 + left0, prot) ==
        if stop then Entries() else RepaintFrom(Entries(), n, i + 1, page, page0 + left0, prot)
      ensures isSorted ==> old(isSorted) && nvalid == old(nvalid)
    {
      page, left, stop := RepaintEntry(i, page0, left0, prot);
    }

    /** The body of the loop of VmmapChangeProt() at entry i; stop is its break. */
    method RepaintEntry(i: nat, page0: nat, left0: nat, prot: nat) returns (page: nat, left: nat, stop: bool)
      requires Shape() && i < nvalid && Entries()[i].Entry? && left0 > 0
      modifies this, vmentry
      ensures Shape() && (vmentry == old(vmentry) || fresh(vmentry))
      ensures Entries() == RepaintedAt(old(Entries()), i, page0, page0 + left0, prot)
      ensures stop == TrimBreaks(old(Entries())[i], page0, page0 + left0)
      ensures page + left == page0 + left0
      ensures !stop ==> page == PageAfter(old(Entries())[i], page0, page0 + left0)
      ensures isSorted ==> old(isSorted) && nvalid == old(nvalid)
    {
      var ent, end := vmentry[i], page0 + left0;
      var entEnd := ent.pageNum + ent.npages;
      page, left, stop := page0, left0, false;
      if ent.pageNum < page && end < entEnd {
        SplitPaint(i, page, end, prot, ent);
        stop := true;
      } else if ent.pageNum < page && page < entEnd {
        SetAndAdd(i, ent.(npages := page - ent.pageNum), Painted(ent, page, entEnd, prot));
        page, left := entEnd, end - entEnd;
      } else if ent.pageNum < end && end < entEnd {
        SetAndAdd(i, ent.(pageNum := end, npages := entEnd - end), Painted(ent, page, end, prot));
        stop := true;
      } else if page <= ent.pageNum && entEnd <= end {
        page, left := entEnd, end - entEnd;
        SetEntry(i, ent.(prot := prot));
      } else {
        assert end <= ent.pageNum || entEnd <= page;
      }
    }

    /** The entry straddles the region: its right part and the middle are appended, its left part stays. */
    method SplitPaint(i: nat, lo: nat, hi: nat, prot: nat, ent: VmmapEntry)
      requires Shape() && i < nvalid && ent.Entry? && Straddles(ent, lo, hi) && lo < hi
      modifies this, vmentry
      ensures Shape() && (vmentry == old(vmentry) || fresh(vmentry)) && !isSorted
      ensures Entries() == old(Entries())[i := Head(ent, lo, hi, prot)] + ExtraAt(ent, lo, hi, prot)
    {
      ghost var fs := Entries();
      SplitEntry(i, lo, hi, ent);
      ghost var gs := Entries();
      Add(lo, hi - lo, prot, ent.maxProt, ent.vmmapType);
      assert gs + [Painted(ent, lo, hi, prot)] ==
        fs[i := Trim(ent, lo, hi)] + [RightPiece(ent, hi), Painted(ent, lo, hi, prot)];
    }

    /** The entry gives up a part, which is appended with the new rights. */
    method SetAndAdd(i: nat, e: VmmapEntry, f: VmmapEntry)
      requires Shape() && i < nvalid && f.Entry? && !f.removed
      modifies this, vmentry
      ensures Shape() && (vmentry == old(vmentry) || fresh(vmentry)) && !isSorted
      ensures Entries() == old(Entries())[i := e] + [f]
    {
      ghost var fs := Entries();
      SetEntry(i, e);
      Add(f.pageNum, f.npages, f.prot, f.maxProt, f.vmmapType);
    }

    /** VmmapContainCmpEntries(): a page against an entry. */
    static function ContainCmpEntries(key: nat, ent: VmmapEntry): int {
      if ent.NullEntry? || key < ent.pageNum then -1 else if key < ent.pageNum + ent.npages then 0 else 1
    }

    /** VmmapFindPage() */
    method FindPage(pnum: nat) returns (r: Option<VmmapEntry>)
      requires Valid() && nvalid < SORT_LIMIT
      modifies this, vmentry
      ensures Valid() && Map() == old(Map()) && vmentry == old(vmentry)
      ensures r.Some? <==> pnum in Map()
      ensures r.Some? ==> r.value in Entries() && Covers(r.value, pnum) && Map()[pnum] == AttrOf(r.value)
    {
      MakeSorted();
      FindPartition(Entries(), pnum);
      var i := BSearch.BSearch(pnum, vmentry, nvalid, ContainCmpEntries);
      if i.Some? {
        CoveredAttr(Entries(), i.value, pnum);
        return Some(vmentry[i.value]);
      }
      FindsNone(Entries(), pnum);
      return None;
    }

    static lemma FindPartition(es: seq<VmmapEntry>, pnum: nat)
      requires Clean(es) && InOrder(es)
      ensures BSearch.Partitioned(pnum, es, ContainCmpEntries)
    {
      forall i, j | 0 <= i < j < |es|
        ensures ContainCmpEntries(pnum, es[i]) < 0 ==> ContainCmpEntries(pnum, es[j]) < 0
        ensures ContainCmpEntries(pnum, es[j]) > 0 ==> ContainCmpEntries(pnum, es[i]) > 0
      {
        OrderAt(es, i, j);
      }
    }

    static lemma FindsNone(es: seq<VmmapEntry>, pnum: nat)
      requires Clean(es) && forall i :: 0 <= i < |es| ==> ContainCmpEntries(pnum, es[i]) != 0
      ensures pnum !in PageMap(es)
    {
      if pnum in PageMap(es) {
        var k := MappedBy(es, pnum);
      }
    }

    /** VmmapFindSpace(): the highest free run of n pages, or 0. */
    method FindSpace(n: nat) returns (r: nat)
      requires Valid() && nvalid < SORT_LIMIT
      modifies this, vmentry
      ensures Valid() && Map() == old(Map()) && vmentry == old(vmentry) && nvalid <= old(nvalid)
      ensures n > 0 ==> HighestRun(Map(), n, r)
    {
      hide HighestRun;
      if nvalid == 0 {
        NoRun(Entries(), n);
        return 0;
      }
      MakeSorted();
      r := SearchDown(vmentry, nvalid, n);
      if n > 0 {
        SearchedDown(Entries(), nvalid - 1, r, n);
      }
    }

    /** Its loop. */
    static method SearchDown(a: array<VmmapEntry>, nvalid: nat, n: nat) returns (r: nat)
      requires 0 < nvalid <= a.Length && Clean(a[..nvalid]) && InOrder(a[..nvalid])
      ensures r == HighestFrom(a[..nvalid], nvalid - 1, n)
    {
      var i: nat := nvalid - 1;
      ghost var es := a[..nvalid];
      while i > 0
        invariant i < nvalid && HighestFrom(es, i, n) == HighestFrom(es, nvalid - 1, n)
      {
        var vmep := a[i - 1];
        assert vmep == es[i - 1] && a[i] == es[i];
        OrderAt(es, i - 1, i);
        var endPage := vmep.pageNum + vmep.npages;
        var startPage := a[i].pageNum;
        if startPage - endPage >= n {
          return startPage - n;
        }
        i := i - 1;
      }
      return 0;
    }

    /** VmmapFindMapSpaceAboveHint(): the lowest free run of n pages at or above an address, or 0. */
    method FindMapSpaceAboveHint(uaddr: nat, n: nat) returns (r: nat)
      requires Valid() && nvalid < SORT_LIMIT
      modifies this, vmentry
      ensures Valid() && Map() == old(Map()) && vmentry == old(vmentry) && nvalid <= old(nvalid)
      ensures n > 0 ==> LowestRun(Map(), uaddr / PAGE_SIZE, n, r)
    {
      MakeSorted();
      r := SearchUp(vmentry, nvalid, uaddr / PAGE_SIZE, n);
      if n > 0 {
        SearchedUp(Entries(), uaddr / PAGE_SIZE, r, n);
      }
    }

    /** Its loop. */
    static method SearchUp(a: array<VmmapEntry>, nvalid: nat, usrPage: nat, n: nat) returns (r: nat)
      requires nvalid <= a.Length && Clean(a[..nvalid]) && InOrder(a[..nvalid])
      ensures r == LowestFrom(a[..nvalid], 1, usrPage, n)
    {
      var i: nat := 1;
      ghost var es := a[..nvalid];
      while i < nvalid
        invariant 1 <= i && LowestFrom(es, i, usrPage, n) == LowestFrom(es, 1, usrPage, n)
      {
        var vmep := a[i - 1];
        assert vmep == es[i - 1] && a[i] == es[i];
        OrderAt(es, i - 1, i);
        var endPage := vmep.pageNum + vmep.npages;
        var startPage := a[i].pageNum;
        if endPage <= usrPage && usrPage < startPage {
          endPage := usrPage;
        }
        if usrPage <= endPage && startPage - endPage >= n {
          return endPage;
        }
        i := i + 1;
      }
      return 0;
    }
  }
}
