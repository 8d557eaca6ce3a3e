/** The patching of load_mcfi_metadata() in main.c: words are saved, then patched to call the two stubs. */
module LoadPatch {
  import opened Bytes
  import opened Options
  import opened CodeWords

  // ---------- what is patched ----------

  predicate GoodSites(c: seq<Byte>, sites: seq<Site>) {
    && (forall i :: 0 <= i < |sites| ==> sites[i].key % 8 == 0 && 8 <= sites[i].key <= |c|)
    && (forall i, j :: 0 <= i < j < |sites| ==> sites[i].key != sites[j].key)
  }

  predicate GoodEntries(c: seq<Byte>, entries: seq<nat>) {
    && (forall i :: 0 <= i < |entries| ==> IsWord(c, entries[i]))
    && (forall i, j :: 0 <= i < j < |entries| ==> entries[i] != entries[j])
  }

  /** The call site that returns to an offset. */
  function SiteAt(sites: seq<Site>, key: nat): (r: Option<Site>)
    ensures r.Some? ==> r.value in sites && r.value.key == key
    ensures r.None? ==> forall s :: s in sites ==> s.key != key
  {
    if sites == [] then None
    else if sites[|sites| - 1].key == key then Some(sites[|sites| - 1])
    else SiteAt(sites[..|sites| - 1], key)
  }

  /** A word after the calls are patched. */
  function CallWord(w: seq<Byte>, at: nat, sites: seq<Site>, stub: Option<nat>): (v: seq<Byte>)
    requires |w| == 8
    ensures |v| == 8
  {
    var site := SiteAt(sites, at + 8);
    if stub.Some? && site.Some? then PatchedCall(w, site.value, stub.value) else w
  }

  /** A word after the entries are patched as well. */
  function EntryWord(w: seq<Byte>, at: nat, entries: seq<nat>, stub: Option<nat>): (v: seq<Byte>)
    requires |w| == 8
    ensures |v| == 8
  {
    if stub.Some? && at in entries then PatchedEntry(w, at, stub.value) else w
  }

  /** Code before and after the calls are patched. */
  ghost predicate CallsPatched(c: seq<Byte>, d: seq<Byte>, sites: seq<Site>, stub: Option<nat>) {
    && |d| == |c| && Tail(d) == Tail(c)
    && forall v :: IsWord(c, v) ==> Word(d, v) == CallWord(Word(c, v), v, sites, stub)
  }

  ghost predicate EntriesPatched(c: seq<Byte>, d: seq<Byte>, entries: seq<nat>, stub: Option<nat>) {
    && |d| == |c| && Tail(d) == Tail(c)
    && forall v :: IsWord(c, v) ==> Word(d, v) == EntryWord(Word(c, v), v, entries, stub)
  }

  // ---------- saving ----------

  ghost predicate SavedCalls(c: seq<Byte>, sites: seq<Site>, raOrig: map<nat, seq<Byte>>)
    requires GoodSites(c, sites)
  {
    && (forall k :: k in raOrig ==> 8 <= k <= |c| && SiteAt(sites, k).Some? && raOrig[k] == Word(c, k - 8))
    && (forall i :: 0 <= i < |sites| ==> sites[i].key in raOrig)
  }

  /** The words in front of the return addresses are saved. */
  method SaveCalls(code: array<Byte>, sites: seq<Site>) returns (raOrig: map<nat, seq<Byte>>)
    requires GoodSites(code[..], sites)
    ensures SavedCalls(code[..], sites, raOrig)
  {
    raOrig := map[];
    var i := 0;
    while i < |sites|
      invariant 0 <= i <= |sites|
      invariant forall k :: k in raOrig ==>
        8 <= k <= code.Length && SiteAt(sites, k).Some? && raOrig[k] == Word(code[..], k - 8)
      invariant forall j :: 0 <= j < i ==> sites[j].key in raOrig
    {
      raOrig := raOrig[sites[i].key := code[sites[i].key - 8..sites[i].key]];
      i := i + 1;
    }
  }

  /** The words at the entries are saved. */
  method SaveEntries(code: array<Byte>, entries: seq<nat>) returns (funcOrig: map<nat, seq<Byte>>)
    requires GoodEntries(code[..], entries)
    ensures SavedEntries(code[..], entries, funcOrig)
  {
    funcOrig := map[];
    var i := 0;
    while i < |entries|
      invariant 0 <= i <= |entries|
      invariant forall f :: f in funcOrig ==>
        f in entries && f + 8 <= code.Length && funcOrig[f] == Word(code[..], f)
      invariant forall j :: 0 <= j < i ==> entries[j] in funcOrig
    {
      assert IsWord(code[..], entries[i]);
      funcOrig := funcOrig[entries[i] := code[entries[i]..entries[i] + 8]];
      i := i + 1;
    }
  }

  ghost predicate SavedEntries(c: seq<Byte>, entries: seq<nat>, funcOrig: map<nat, seq<Byte>>) {
    && (forall f :: f in funcOrig ==> f in entries && f + 8 <= |c| && funcOrig[f] == Word(c, f))
    && (forall i :: 0 <= i < |entries| ==> entries[i] in funcOrig)
  }

  // ---------- patching calls ----------

  method Store(code: array<Byte>, at: nat, s: seq<Byte>)
    requires at + |s| <= code.Length
    modifies code
    ensures code[..] == Put(old(code[..]), at, s)
  {
    forall i | 0 <= i < |s| {
      code[at + i] := s[i];
    }
  }

  /** Two stores inside a word. */
  lemma PutTwice(c: seq<Byte>, at: nat, k: nat, s: seq<Byte>, l: nat, t: seq<Byte>, w: seq<Byte>)
    requires at + 8 <= |c| && k + |s| <= 8 && l + |t| <= 8 && w == Put(Put(Word(c, at), k, s), l, t)
    ensures Put(Put(c, at + k, s), at + l, t) == Put(c, at, w)
  {
    var v := Put(Word(c, at), k, s);
    PutInside(c, at, k, s);
    PutInside(Put(c, at, v), at, l, t);
    assert Word(Put(c, at, v), at) == v;
    assert Put(Put(c, at, v), at, w) == Put(c, at, w);
  }

  lemma IndirectForm(w: seq<Byte>, site: Site, stub: nat, nop: nat, d: seq<Byte>)
    requires |w| == 8 && site.indirect && 8 <= site.key && nop == if w[5] != 0 then 0 else 1
    requires d == Displacement(stub, if w[5] != 0 then site.key - 3 else site.key - 2)
    ensures PatchedCall(w, site, stub) == Put(Put(w, nop, [CALL]), nop + 1, d)
  {
    hide Displacement;
  }

  lemma DirectForm(w: seq<Byte>, site: Site, stub: nat, d: seq<Byte>)
    requires |w| == 8 && !site.indirect && d == Displacement(stub, site.key)
    ensures PatchedCall(w, site, stub) == Put(w, 4, d)
  {
    hide Displacement;
  }

  /** One call site. */
  method PatchSite(code: array<Byte>, site: Site, stub: nat)
    requires 8 <= site.key <= code.Length
    modifies code
    ensures code[..] == Put(old(code[..]), site.key - 8, PatchedCall(Word(old(code[..]), site.key - 8), site, stub))
  {
    ghost var c := code[..];
    var p := site.key - 8;
    ghost var w := Word(c, p);
    assert w[5] == code[p + 5];
    hide Word, Put, PatchedCall, Displacement;
    if site.indirect {
      var nop, callsite := 1, site.key - 2;
      if code[p + 5] != 0 {
        nop, callsite := 0, site.key - 3;
      }
      var d := Displacement(stub, callsite);
      Store(code, p + nop, [CALL]);
      Store(code, p + nop + 1, d);
      IndirectForm(w, site, stub, nop, d);
      PutTwice(c, p, nop, [CALL], nop + 1, d, PatchedCall(w, site, stub));
    } else {
      var d := Displacement(stub, site.key);
      Store(code, p + 4, d);
      PutInside(c, p, 4, d);
      DirectForm(w, site, stub, d);
    }
  }

  /** One more site. */
  lemma {:induction false} NextSite(c: seq<Byte>, d: seq<Byte>, e: seq<Byte>, sites: seq<Site>, i: nat, stub: nat)
    requires GoodSites(c, sites) && i < |sites| && CallsPatched(c, d, sites[..i], Some(stub))
    requires e == Put(d, sites[i].key - 8, PatchedCall(Word(d, sites[i].key - 8), sites[i], stub))
    ensures CallsPatched(c, e, sites[..i + 1], Some(stub))
  {
    var at := sites[i].key - 8;
    var s := PatchedCall(Word(d, at), sites[i], stub);
    PutTail(d, at, s);
    forall v: nat | IsWord(c, v) ensures Word(e, v) == CallWord(Word(c, v), v, sites[..i + 1], Some(stub)) {
      PutWord(d, at, s, v);
      NextSiteWord(Word(c, v), v, sites, i, stub);
    }
  }

  lemma {:induction false} NextSiteWord(w: seq<Byte>, v: nat, sites: seq<Site>, i: nat, stub: nat)
    requires |w| == 8 && i < |sites| && 8 <= sites[i].key
    requires forall j :: 0 <= j < i ==> sites[j].key != sites[i].key
    ensures CallWord(w, v, sites[..i + 1], Some(stub)) ==
      if v == sites[i].key - 8 then PatchedCall(CallWord(w, v, sites[..i], Some(stub)), sites[i], stub)
      else CallWord(w, v, sites[..i], Some(stub))
  {
    assert sites[..i + 1][..i] == sites[..i];
  }

  /** The loop over the call sites. */
  method PatchCalls(code: array<Byte>, sites: seq<Site>, stub: nat)
    requires GoodSites(code[..], sites)
    modifies code
    ensures CallsPatched(old(code[..]), code[..], sites, Some(stub))
  {
    ghost var c := code[..];
    var i := 0;
    while i < |sites|
      invariant 0 <= i <= |sites| && CallsPatched(c, code[..], sites[..i], Some(stub))
    {
      ghost var d := code[..];
      PatchSite(code, sites[i], stub);
      NextSite(c, d, code[..], sites, i, stub);
      i := i + 1;
    }
    assert sites[..|sites|] == sites;
  }

  // ---------- patching entries ----------

  /** A word that is patched twice is saved again, so that its entry is restored first. */
  method SaveAgain(code: array<Byte>, entries: seq<nat>, raOrig: map<nat, seq<Byte>>, saved: map<nat, seq<Byte>>)
    returns (funcOrig: map<nat, seq<Byte>>)
    requires GoodEntries(code[..], entries) && forall i :: 0 <= i < |entries| ==> entries[i] in saved
    ensures funcOrig.Keys == saved.Keys
    ensures forall f :: f in entries ==>
      f + 8 <= code.Length && funcOrig[f] == if f + 8 in raOrig then Word(code[..], f) else saved[f]
  {
    funcOrig := saved;
    var i := 0;
    while i < |entries|
      invariant 0 <= i <= |entries| && funcOrig.Keys == saved.Keys
      invariant forall j :: 0 <= j < i ==> IsWord(code[..], entries[j])
      invariant forall j :: 0 <= j < i ==>
        funcOrig[entries[j]] == if entries[j] + 8 in raOrig then Word(code[..], entries[j]) else saved[entries[j]]
      invariant forall j :: i <= j < |entries| ==> funcOrig[entries[j]] == saved[entries[j]]
    {
      var f := entries[i];
      assert IsWord(code[..], f);
      if f + 8 in raOrig {
        funcOrig := funcOrig[f := code[f..f + 8]];
      }
      i := i + 1;
    }
  }

  /** One entry. */
  method PatchEntry(code: array<Byte>, entry: nat, stub: nat)
    requires entry + 8 <= code.Length
    modifies code
    ensures code[..] == Put(old(code[..]), entry, PatchedEntry(Word(old(code[..]), entry), entry, stub))
  {
    ghost var c := code[..];
    var d := Displacement(stub, entry + 5);
    Store(code, entry, [CALL]);
    Store(code, entry + 1, d);
    assert Put(c, entry + 0, [CALL]) == Put(c, entry, [CALL]);
    PutTwice(c, entry, 0, [CALL], 1, d, PatchedEntry(Word(c, entry), entry, stub));
  }

  lemma {:induction false} NextEntry(c: seq<Byte>, d: seq<Byte>, e: seq<Byte>, entries: seq<nat>, i: nat, stub: nat)
    requires GoodEntries(c, entries) && i < |entries| && EntriesPatched(c, d, entries[..i], Some(stub))
    requires IsWord(d, entries[i]) && e == Put(d, entries[i], PatchedEntry(Word(d, entries[i]), entries[i], stub))
    ensures EntriesPatched(c, e, entries[..i + 1], Some(stub))
  {
    var at := entries[i];
    var s := PatchedEntry(Word(d, at), at, stub);
    assert entries[..i + 1] == entries[..i] + [at];
    PutTail(d, at, s);
    forall v | IsWord(c, v) ensures Word(e, v) == EntryWord(Word(c, v), v, entries[..i + 1], Some(stub)) {
      PutWord(d, at, s, v);
    }
  }

  /** The loop over the entries. */
  method PatchEntries(code: array<Byte>, entries: seq<nat>, stub: nat)
    requires GoodEntries(code[..], entries)
    modifies code
    ensures EntriesPatched(old(code[..]), code[..], entries, Some(stub))
  {
    ghost var c := code[..];
    var i := 0;
    while i < |entries|
      invariant 0 <= i <= |entries| && EntriesPatched(c, code[..], entries[..i], Some(stub))
    {
      ghost var d := code[..];
      assert IsWord(c, entries[i]);
      PatchEntry(code, entries[i], stub);
      NextEntry(c, d, code[..], entries, i, stub);
      i := i + 1;
    }
    assert entries[..|entries|] == entries;
  }

  // ---------- the whole ----------

  /** The code of a module: as it was, its call sites and entries, and the offsets of the two stubs. */
  datatype Image =
    Image(code: seq<Byte>, sites: seq<Site>, entries: seq<nat>, callStub: Option<nat>, entryStub: Option<nat>)

  predicate GoodImage(m: Image) {
    GoodSites(m.code, m.sites) && GoodEntries(m.code, m.entries)
  }

  function MidWord(m: Image, v: nat): (w: seq<Byte>)
    requires IsWord(m.code, v)
    ensures |w| == 8
  {
    CallWord(Word(m.code, v), v, m.sites, m.callStub)
  }

  /** Each word is patched at most once for a call and once for an entry, in this order. */
  function LoadedWord(m: Image, v: nat): (w: seq<Byte>)
    requires IsWord(m.code, v)
    ensures |w| == 8
  {
    EntryWord(MidWord(m, v), v, m.entries, m.entryStub)
  }

  ghost predicate Loaded(m: Image, c: seq<Byte>) {
    |c| == |m.code| && Tail(c) == Tail(m.code) && forall v :: IsWord(m.code, v) ==> Word(c, v) == LoadedWord(m, v)
  }

  /** What is saved: the original word of each call site, and for each entry the word without its entry's patch. */
  ghost predicate Saved(m: Image, raOrig: map<nat, seq<Byte>>, funcOrig: map<nat, seq<Byte>>)
    requires GoodImage(m)
  {
    && SavedCalls(m.code, m.sites, raOrig)
    && (forall f :: f in funcOrig ==> f in m.entries && IsWord(m.code, f) && funcOrig[f] == MidWord(m, f))
    && (forall i :: 0 <= i < |m.entries| ==> m.entries[i] in funcOrig)
  }

  lemma {:induction false} SavedSite(m: Image, mid: seq<Byte>, raOrig: map<nat, seq<Byte>>, f: nat)
    requires GoodImage(m) && CallsPatched(m.code, mid, m.sites, m.callStub) && IsWord(m.code, f)
    requires SavedCalls(m.code, m.sites, raOrig)
    ensures MidWord(m, f) == if f + 8 in raOrig then Word(mid, f) else Word(m.code, f)
  {
    hide Word, PatchedCall;
    var site := SiteAt(m.sites, f + 8);
    if site.Some? {
      var i :| 0 <= i < |m.sites| && m.sites[i] == site.value;
      assert f + 8 in raOrig;
    }
  }

  lemma {:induction false} SavedMid(m: Image, mid: seq<Byte>, raOrig: map<nat, seq<Byte>>, saved: map<nat, seq<Byte>>,
                                    funcOrig: map<nat, seq<Byte>>)
    requires GoodImage(m) && CallsPatched(m.code, mid, m.sites, m.callStub)
    requires SavedCalls(m.code, m.sites, raOrig) && SavedEntries(m.code, m.entries, saved)
    requires funcOrig.Keys == saved.Keys
    requires forall f :: f in m.entries ==>
      f + 8 <= |mid| && funcOrig[f] == if f + 8 in raOrig then Word(mid, f) else saved[f]
    ensures Saved(m, raOrig, funcOrig)
  {
    forall f | f in funcOrig ensures f in m.entries && IsWord(m.code, f) && funcOrig[f] == MidWord(m, f) {
      assert f in saved;
      assert IsWord(m.code, f);
      SavedSite(m, mid, raOrig, f);
    }
  }

  lemma {:induction false} EntriesDone(m: Image, mid: seq<Byte>, c: seq<Byte>)
    requires GoodImage(m) && CallsPatched(m.code, mid, m.sites, m.callStub)
    requires EntriesPatched(mid, c, m.entries, m.entryStub)
    ensures Loaded(m, c)
  {
    forall v | IsWord(m.code, v) ensures Word(c, v) == LoadedWord(m, v) {
      assert IsWord(mid, v);
    }
  }

  /** Saving and patching. */
  method Load(code: array<Byte>, ghost m: Image, sites: seq<Site>, entries: seq<nat>, callStub: Option<nat>,
              entryStub: Option<nat>) returns (raOrig: map<nat, seq<Byte>>, funcOrig: map<nat, seq<Byte>>)
    requires m == Image(code[..], sites, entries, callStub, entryStub) && GoodImage(m)
    modifies code
    ensures Loaded(m, code[..]) && Saved(m, raOrig, funcOrig)
  {
    raOrig := SaveCalls(code, sites);
    var saved := SaveEntries(code, entries);
    if callStub.Some? {
      PatchCalls(code, sites, callStub.value);
    }
    ghost var mid := code[..];
    assert CallsPatched(m.code, mid, sites, callStub);
    funcOrig := SaveAgain(code, entries, raOrig, saved);
    SavedMid(m, mid, raOrig, saved, funcOrig);
    if entryStub.Some? {
      PatchEntries(code, entries, entryStub.value);
    }
    assert EntriesPatched(mid, code[..], entries, entryStub);
    EntriesDone(m, mid, code[..]);
  }
}
