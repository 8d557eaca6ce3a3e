/** The path of rock_mmap() that lets the runtime choose the address. */
module RockMmap {
  import opened Leonardo
  import opened PageMaps
  import opened PagerLoops
  import Pager

  const FOUR_GB: nat := 0x1_0000_0000

  datatype MmapResult =
    | Invalid
    | NoMemory
    | Exits
    | KernelRefuses
    | Placed(page: nat)

  /** prot & PROT_EXEC */
  predicate Executable(prot: nat) {
    prot / 4 % 2 == 1
  }

  function PagesOf(len: nat): nat {
    (len + PAGE_SIZE - 1) % PAGE_LIMIT / PAGE_SIZE
  }

  /** What the search for a place promises. */
  ghost predicate Chosen(m: imap<nat, Attr>, start: nat, n: nat, page: nat) {
    if start == 0 || start > FOUR_GB then HighestRun(m, n, page) else LowestRun(m, start / PAGE_SIZE, n, page)
  }

  ghost function Choices(m: imap<nat, Attr>, start: nat, n: nat): iset<nat> {
    iset page: nat | Chosen(m, start, n, page)
  }

  method Choose(vm: Pager.Vmmap, start: nat, n: nat) returns (page: nat)
    requires vm.Valid() && vm.nvalid < SORT_LIMIT
    modifies vm, vm.vmentry
    ensures vm.Valid() && vm.Map() == old(vm.Map()) && vm.vmentry == old(vm.vmentry) && vm.nvalid <= old(vm.nvalid)
    ensures n > 0 ==> page in Choices(vm.Map(), start, n)
  {
    if start > FOUR_GB || start == 0 {
      page := vm.FindSpace(n);
    } else {
      page := vm.FindMapSpaceAboveHint(start, n);
    }
  }

  /** Pages mapped before stay as they are. */
  ghost predicate OnlyAdds(m: imap<nat, Attr>, m': imap<nat, Attr>) {
    forall p: nat :: p in m ==> p in m' && m'[p] == m[p]
  }

  /** The map after a call: the pages of a placed mapping are added, nothing else changes. */
  ghost function After(m: imap<nat, Attr>, r: MmapResult, pages: nat, prot: nat): imap<nat, Attr> {
    if r.Placed? then Overwritten(m, r.page, r.page + pages, Attr(prot, prot, Anonymous)) else m
  }

  lemma Adds(m: imap<nat, Attr>, page: nat, pages: nat, prot: nat)
    requires FreeRun(m, page, pages)
    ensures After(m, Placed(page), pages, prot) == Overwritten(m, page, page + pages, Attr(prot, prot, Anonymous))
    ensures OnlyAdds(m, After(m, Placed(page), pages, prot))
  {
    OverwritesNothing(m, page, pages, Attr(prot, prot, Anonymous));
  }

  method Record(vm: Pager.Vmmap, page: nat, pages: nat, prot: nat)
    requires vm.Valid() && vm.nvalid < SORT_LIMIT && pages > 0 && FreeRun(vm.Map(), page, pages)
    modifies vm, vm.vmentry
    ensures vm.Valid() && (vm.vmentry == old(vm.vmentry) || fresh(vm.vmentry))
    ensures vm.Map() == After(old(vm.Map()), Placed(page), pages, prot)
    ensures OnlyAdds(old(vm.Map()), vm.Map())
  {
    RunFits(vm.Entries(), page, pages);
    Adds(vm.Map(), page, pages, prot);
    vm.AddWithOverwrite(page, pages, prot, prot, Anonymous);
  }

  /** The mapping itself, once a page is chosen. */
  method Commit(vm: Pager.Vmmap, page: nat, len: nat, pages: nat, prot: nat,
                insecure: (nat, nat, nat) -> bool, placed: nat -> bool) returns (r: MmapResult)
    requires vm.Valid() && vm.nvalid < SORT_LIMIT && (pages > 0 ==> FreeRun(vm.Map(), page, pages))
    modifies vm, vm.vmentry
    ensures vm.Valid() && (vm.vmentry == old(vm.vmentry) || fresh(vm.vmentry))
    ensures !r.NoMemory? && (r.Placed? ==> r.page == page && pages > 0)
    ensures vm.Map() == After(old(vm.Map()), r, pages, prot)
    ensures OnlyAdds(old(vm.Map()), vm.Map())
  {
    if insecure(page * PAGE_SIZE, len, prot) {
      return Exits;
    }
    if !placed(page) {
      return KernelRefuses;
    }
    if pages == 0 {
      return Exits;
    }
    Record(vm, page, pages, prot);
    r := Placed(page);
  }

  /** Its part after the checks of the arguments. */
  method Place(vm: Pager.Vmmap, start: nat, len: nat, pages: nat, prot: nat,
               insecure: (nat, nat, nat) -> bool, placed: nat -> bool) returns (r: MmapResult)
    requires vm.Valid() && vm.nvalid < SORT_LIMIT
    modifies vm, vm.vmentry
    ensures vm.Valid() && (vm.vmentry == old(vm.vmentry) || fresh(vm.vmentry))
    ensures r.Placed? ==> r.page > 0 && pages > 0 && r.page in Choices(old(vm.Map()), start, pages)
    ensures vm.Map() == After(old(vm.Map()), r, pages, prot)
    ensures OnlyAdds(old(vm.Map()), vm.Map())
    ensures pages > 0 ==> (r.NoMemory? <==> 0 in Choices(old(vm.Map()), start, pages))
  {
    var page := Choose(vm, start, pages);
    ChosenOnce(vm.Map(), start, pages, page);
    if page == 0 {
      return NoMemory;
    }
    r := Commit(vm, page, len, pages, prot, insecure, placed);
  }

  /** rock_mmap() without MAP_FIXED. insecure is the overlap test against read-only segments, placed the
      kernel's answer for a page. A successful call only adds pages to the map. */
  method Mmap(vm: Pager.Vmmap, start: nat, len: nat, prot: nat,
              insecure: (nat, nat, nat) -> bool, placed: nat -> bool) returns (r: MmapResult)
    requires vm.Valid() && vm.nvalid < SORT_LIMIT && start < PAGE_LIMIT && len < PAGE_LIMIT
    modifies vm, vm.vmentry
    ensures vm.Valid() && (vm.vmentry == old(vm.vmentry) || fresh(vm.vmentry))
    ensures r.Placed? ==> r.page > 0 && r.page in Choices(old(vm.Map()), start, PagesOf(len))
    ensures vm.Map() == After(old(vm.Map()), r, PagesOf(len), prot)
    ensures OnlyAdds(old(vm.Map()), vm.Map())
    ensures start % PAGE_SIZE == 0 && 0 < len <= FOUR_GB && !Executable(prot) ==>
      (r.NoMemory? <==> 0 in Choices(old(vm.Map()), start, PagesOf(len)))
  {
    var pages := PagesOf(len);
    if start % PAGE_SIZE != 0 {
      return Invalid;
    }
    if len > FOUR_GB {
      return NoMemory;
    }
    if Executable(prot) {
      return Exits;
    }
    PagesCover(len);
    r := Place(vm, start, len, pages, prot, insecure, placed);
  }

  lemma PagesCover(len: nat)
    requires len <= FOUR_GB
    ensures PagesOf(len) * PAGE_SIZE >= len && (len > 0 <==> PagesOf(len) > 0)
  {
  }

  /** The choice is determined by the map. */
  lemma ChosenOnce(m: imap<nat, Attr>, start: nat, n: nat, page: nat)
    requires n > 0 ==> page in Choices(m, start, n)
    ensures n > 0 ==> (0 in Choices(m, start, n) <==> page == 0)
    ensures n > 0 && page != 0 ==> FreeRun(m, page, n)
  {
  }

  lemma RunFits(es: seq<VmmapEntry>, s: nat, n: nat)
    requires Clean(es) && FreeRun(PageMap(es), s, n)
    ensures s + n < PAGE_LIMIT
  {
    var p: nat :| s + n <= p && p in PageMap(es);
    var k := MappedBy(es, p);
  }
}
