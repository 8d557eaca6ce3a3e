/** patch_call() and patch_entry() of runtime.c: what load time patched is put back. */
module OnlinePatch {
  import opened Bytes
  import opened Options
  import opened CodeWords
  import opened LoadPatch

  /** A module's base address and what was saved of its code. */
  datatype Saves = Saves(base: nat, raOrig: map<nat, seq<Byte>>, funcOrig: map<nat, seq<Byte>>)

  /** Words inside code of a given size. */
  ghost function SavesWithin(size: nat): iset<Saves> {
    iset k: Saves |
      && k.base % 8 == 0
      && (forall a :: a in k.raOrig ==> 8 <= a <= size && a % 8 == 0 && |k.raOrig[a]| == 8)
      && (forall f :: f in k.funcOrig ==> f + 8 <= size && f % 8 == 0 && |k.funcOrig[f]| == 8)
  }

  ghost predicate GoodSaves(k: Saves, c: seq<Byte>) {
    k in SavesWithin(|c|)
  }

  /** The code, the return addresses for which patch_call() has run, and whether there is a CFG. */
  datatype State = State(code: seq<Byte>, patched: set<nat>, cfggened: bool)

  /** A thread enters one of the stubs, with the address that its call pushed or the entry that it came from; or
      the first CFG is generated. */
  datatype Event = CallStub(patchpoint: nat) | EntryStub(patchpoint: nat) | GenCfg

  /** The assertions of the two functions. */
  ghost predicate Allows(k: Saves, s: State, e: Event) {
    match e
    case CallStub(p) =>
      && k.base <= p < k.base + |s.code| && (p % 8 == 0 || (p + 3) % 8 == 0 || (p + 2) % 8 == 0)
      && (p in s.patched || (RoundUp(p) >= k.base && RoundUp(p) - k.base in k.raOrig))
    case EntryStub(p) =>
      k.base <= p < k.base + |s.code| && p % 8 == 0 && s.cfggened && p - k.base in k.funcOrig
    case GenCfg => true
  }

  ghost function Acceptable(k: Saves, s: State): iset<Event> {
    iset e: Event | Allows(k, s, e)
  }

  ghost predicate Accepts(k: Saves, s: State, e: Event) {
    e in Acceptable(k, s)
  }

  ghost function Step(k: Saves, s: State, e: Event): (t: State)
    requires GoodSaves(k, s.code) && Accepts(k, s, e)
    ensures |t.code| == |s.code|
  {
    match e
    case CallStub(p) =>
      if p in s.patched then s
      else s.(code := Put(s.code, RoundUp(p) - k.base - 8, k.raOrig[RoundUp(p) - k.base]), patched := s.patched + {p})
    case EntryStub(p) => s.(code := Put(s.code, p - k.base, k.funcOrig[p - k.base]))
    case GenCfg => s.(cfggened := true)
  }

  /** A loaded module at run time. */
  class Module {
    const base: nat
    const code: array<Byte>
    const raOrig: map<nat, seq<Byte>>
    const funcOrig: map<nat, seq<Byte>>
    var patchedRa: set<nat>
    var cfggened: bool

    constructor (base: nat, code: array<Byte>, raOrig: map<nat, seq<Byte>>, funcOrig: map<nat, seq<Byte>>,
                 cfggened: bool)
      requires GoodSaves(Saves(base, raOrig, funcOrig), code[..])
      ensures this.base == base && this.code == code && this.raOrig == raOrig && this.funcOrig == funcOrig
      ensures Valid() && Now() == State(code[..], {}, cfggened)
    {
      this.base, this.code, this.raOrig, this.funcOrig := base, code, raOrig, funcOrig;
      this.cfggened, patchedRa := cfggened, {};
    }

    ghost function Kept(): Saves {
      Saves(base, raOrig, funcOrig)
    }

    ghost function Now(): State
      reads this, code
    {
      State(code[..], patchedRa, cfggened)
    }

    ghost predicate Valid()
      reads this, code
    {
      GoodSaves(Kept(), code[..])
    }

    /** A failed assertion ends the process. */
    method PatchCall(patchpoint: nat) returns (ok: bool)
      requires Valid()
      modifies this`patchedRa, code
      ensures ok <==> old(Accepts(Kept(), Now(), CallStub(patchpoint)))
      ensures ok ==> Valid() && Now() == old(Step(Kept(), Now(), CallStub(patchpoint)))
    {
      ok := base <= patchpoint < base + code.Length
        && (patchpoint % 8 == 0 || (patchpoint + 3) % 8 == 0 || (patchpoint + 2) % 8 == 0);
      if ok && patchpoint !in patchedRa {
        patchedRa := patchedRa + {patchpoint};
        var rounded := (patchpoint + 7) / 8 * 8;
        ok := rounded >= base && rounded - base in raOrig;
        if ok {
          Store(code, rounded - base - 8, raOrig[rounded - base]);
        }
      }
    }

    method PatchEntry(patchpoint: nat) returns (ok: bool)
      requires Valid()
      modifies code
      ensures ok <==> old(Accepts(Kept(), Now(), EntryStub(patchpoint)))
      ensures ok ==> Valid() && Now() == old(Step(Kept(), Now(), EntryStub(patchpoint)))
    {
      ok := base <= patchpoint < base + code.Length && patchpoint % 8 == 0 && cfggened
        && patchpoint - base in funcOrig;
      if ok {
        Store(code, patchpoint - base, funcOrig[patchpoint - base]);
      }
    }

    /** gen_cfg(), as far as these two are concerned. */
    method GenerateCfg()
      requires Valid()
      modifies this`cfggened
      ensures Valid() && Now() == old(Step(Kept(), Now(), GenCfg))
    {
      cfggened := true;
    }
  }

  // ---------- runs ----------

  /** A run is accepted at every step. */
  ghost predicate Accepted(k: Saves, s: State, es: seq<Event>)
    requires GoodSaves(k, s.code)
    decreases |es|, 0
  {
    es == [] || (Accepted(k, s, es[..|es| - 1]) && Accepts(k, After(k, s, es[..|es| - 1]), es[|es| - 1]))
  }

  ghost function After(k: Saves, s: State, es: seq<Event>): (t: State)
    requires GoodSaves(k, s.code) && Accepted(k, s, es)
    ensures |t.code| == |s.code|
    decreases |es|, 1
  {
    if es == [] then s else Step(k, After(k, s, es[..|es| - 1]), es[|es| - 1])
  }

  /** What a word was last restored from. */
  datatype Last = Untouched | EntryBack | CallBack

  predicate CallsOn(base: nat, e: Event, v: nat) {
    e.CallStub? && RoundUp(e.patchpoint) == base + v + 8
  }

  predicate EntersOn(base: nat, e: Event, v: nat) {
    e.EntryStub? && e.patchpoint == base + v
  }

  /** A second call with the same address does nothing. */
  function LastOn(base: nat, es: seq<Event>, v: nat): Last {
    if es == [] then Untouched
    else
      var rest, e := es[..|es| - 1], es[|es| - 1];
      if EntersOn(base, e, v) then EntryBack
      else if CallsOn(base, e, v) && e !in rest then CallBack
      else LastOn(base, rest, v)
  }

  /** The word that stands in memory, by what it was last restored from. */
  function WordNow(m: Image, v: nat, last: Last): (w: seq<Byte>)
    requires IsWord(m.code, v)
    ensures |w| == 8
  {
    match last
    case Untouched => LoadedWord(m, v)
    case EntryBack => MidWord(m, v)
    case CallBack => Word(m.code, v)
  }

  /** The states in which an image may be when it has just been loaded. */
  ghost function Fresh(m: Image, k: Saves): iset<State> {
    iset s: State |
      GoodImage(m) && k.base % 8 == 0 && Loaded(m, s.code) && Saved(m, k.raOrig, k.funcOrig) && s.patched == {}
  }

  ghost predicate FreshlyLoaded(m: Image, k: Saves, s: State) {
    s in Fresh(m, k)
  }

  lemma {:induction false} SavesAreGood(m: Image, k: Saves, s: State)
    requires FreshlyLoaded(m, k, s)
    ensures GoodSaves(k, s.code)
    ensures Originals(m, k)
  {
    forall a | a in k.raOrig ensures 8 <= a && IsWord(m.code, a - 8) {
      var site := SiteAt(m.sites, a).value;
      var i :| 0 <= i < |m.sites| && m.sites[i] == site;
    }
  }

  lemma {:induction false} PatchedAre(k: Saves, s: State, es: seq<Event>, e: Event)
    requires GoodSaves(k, s.code) && Accepted(k, s, es) && s.patched == {} && e.CallStub?
    ensures e.patchpoint in After(k, s, es).patched <==> e in es
    decreases |es|
  {
    if es != [] {
      var rest := es[..|es| - 1];
      PatchedAre(k, s, rest, e);
      assert es == rest + [es[|es| - 1]];
    }
  }

  /** What is known of the saved words. */
  ghost predicate Originals(m: Image, k: Saves) {
    && (forall a :: a in k.raOrig ==> 8 <= a && IsWord(m.code, a - 8) && k.raOrig[a] == Word(m.code, a - 8))
    && (forall f :: f in k.funcOrig ==> IsWord(m.code, f) && k.funcOrig[f] == MidWord(m, f))
  }

  lemma {:induction false} NextWord(m: Image, base: nat, es: seq<Event>, rest: seq<Event>, e: Event, v: nat,
                                    before: seq<Byte>, after: seq<Byte>)
    requires IsWord(m.code, v) && es == rest + [e] && before == WordNow(m, v, LastOn(base, rest, v))
    requires EntersOn(base, e, v) ==> after == MidWord(m, v)
    requires CallsOn(base, e, v) && e !in rest ==> after == Word(m.code, v)
    requires !EntersOn(base, e, v) && !(CallsOn(base, e, v) && e !in rest) ==> after == before
    ensures after == WordNow(m, v, LastOn(base, es, v))
  {
    assert es[..|rest|] == rest;
  }

  /** After a run every word is as it was last restored, and no other byte has changed. */
  lemma {:induction false} WordsAre(m: Image, k: Saves, s: State, es: seq<Event>, v: nat, t: State)
    requires FreshlyLoaded(m, k, s) && IsWord(m.code, v) && GoodSaves(k, s.code)
    requires Accepted(k, s, es) && t == After(k, s, es)
    ensures Word(t.code, v) == WordNow(m, v, LastOn(k.base, es, v))
    decreases |es|
  {
    if es != [] {
      var rest, e := es[..|es| - 1], es[|es| - 1];
      var r := After(k, s, rest);
      WordsAre(m, k, s, rest, v, r);
      SavesAreGood(m, k, s);
      if e.CallStub? {
        PatchedAre(k, s, rest, e);
      }
      OneEvent(m, k, r, e, v, t);
      assert es == rest + [e];
      NextWord(m, k.base, es, rest, e, v, Word(r.code, v), Word(t.code, v));
    }
  }

  /** One event. */
  lemma {:induction false} OneEvent(m: Image, k: Saves, s: State, e: Event, v: nat, t: State)
    requires IsWord(m.code, v) && |s.code| == |m.code| && GoodSaves(k, s.code) && Accepts(k, s, e) && Originals(m, k)
    requires t == Step(k, s, e)
    ensures EntersOn(k.base, e, v) ==> Word(t.code, v) == MidWord(m, v)
    ensures CallsOn(k.base, e, v) && e.patchpoint !in s.patched ==> Word(t.code, v) == Word(m.code, v)
    ensures !EntersOn(k.base, e, v) && !(CallsOn(k.base, e, v) && e.patchpoint !in s.patched) ==>
      Word(t.code, v) == Word(s.code, v)
  {
    match e
    case CallStub(p) =>
      if p !in s.patched {
        var at := RoundUp(p) - k.base - 8;
        PutWord(s.code, at, k.raOrig[at + 8], v);
      }
    case EntryStub(p) =>
      PutWord(s.code, p - k.base, k.funcOrig[p - k.base], v);
    case GenCfg =>
  }

  /** What lies behind the last word never changes. */
  lemma {:induction false} TailStays(k: Saves, s: State, es: seq<Event>)
    requires GoodSaves(k, s.code) && Accepted(k, s, es)
    ensures Tail(After(k, s, es).code) == Tail(s.code)
    decreases |es|
  {
    if es != [] {
      var r := After(k, s, es[..|es| - 1]);
      TailStays(k, s, es[..|es| - 1]);
      StepTail(k, r, es[|es| - 1]);
    }
  }

  lemma {:induction false} StepTail(k: Saves, s: State, e: Event)
    requires GoodSaves(k, s.code) && Accepts(k, s, e)
    ensures Tail(Step(k, s, e).code) == Tail(s.code)
  {
    match e
    case CallStub(p) =>
      if p !in s.patched {
        PutTail(s.code, RoundUp(p) - k.base - 8, k.raOrig[RoundUp(p) - k.base]);
      }
    case EntryStub(p) => PutTail(s.code, p - k.base, k.funcOrig[p - k.base]);
    case GenCfg =>
  }

  // ---------- restoration ----------

  /** A call of the word ran, and the word's entry did not run afterwards. */
  predicate CalledLast(base: nat, es: seq<Event>, v: nat) {
    && (exists i :: 0 <= i < |es| && CallsOn(base, es[i], v))
    && (forall i, j :: 0 <= i < j < |es| && CallsOn(base, es[i], v) ==> !EntersOn(base, es[j], v))
  }

  predicate Entered(base: nat, es: seq<Event>, v: nat) {
    exists i :: 0 <= i < |es| && EntersOn(base, es[i], v)
  }

  lemma {:induction false} CallStays(base: nat, es: seq<Event>, v: nat)
    requires CalledLast(base, es, v)
    ensures LastOn(base, es, v) == CallBack
    decreases |es|
  {
    var n := |es| - 1;
    var rest, e := es[..n], es[n];
    assert forall i :: 0 <= i < n ==> rest[i] == es[i];
    var i :| 0 <= i < |es| && CallsOn(base, es[i], v);
    if CallsOn(base, e, v) {
      if e in rest {
        var j :| 0 <= j < n && rest[j] == e;
        CallStays(base, rest, v);
      }
    } else {
      assert rest[i] == es[i];
      CallStays(base, rest, v);
    }
  }

  lemma {:induction false} EnteredTouches(base: nat, es: seq<Event>, v: nat)
    requires Entered(base, es, v)
    ensures LastOn(base, es, v) != Untouched
    decreases |es|
  {
    var n := |es| - 1;
    var rest, e := es[..n], es[n];
    if !EntersOn(base, e, v) && !(CallsOn(base, e, v) && e !in rest) {
      var i :| 0 <= i < |es| && EntersOn(base, es[i], v);
      assert rest[i] == es[i];
      EnteredTouches(base, rest, v);
    }
  }

  /** A word is the original again exactly when it was last restored by its call, or its patches that still stand
      did not change it. */
  lemma {:induction false} RestoredExactly(m: Image, k: Saves, s: State, es: seq<Event>, v: nat)
    requires FreshlyLoaded(m, k, s) && IsWord(m.code, v) && GoodSaves(k, s.code) && Accepted(k, s, es)
    ensures var last := LastOn(k.base, es, v);
      Word(After(k, s, es).code, v) == Word(m.code, v) <==>
      last == CallBack
      || (last == EntryBack && MidWord(m, v) == Word(m.code, v))
      || (last == Untouched && LoadedWord(m, v) == Word(m.code, v))
  {
    WordsAre(m, k, s, es, v, After(k, s, es));
  }

  /** Once each patched word is restored, its entry before its call, the code is the original. */
  lemma {:induction false} RunRestores(m: Image, k: Saves, s: State, es: seq<Event>)
    requires FreshlyLoaded(m, k, s) && GoodSaves(k, s.code) && Accepted(k, s, es)
    requires forall v: nat :: IsWord(m.code, v) && SiteAt(m.sites, v + 8).Some? ==> CalledLast(k.base, es, v)
    requires forall v: nat :: IsWord(m.code, v) && v in m.entries && SiteAt(m.sites, v + 8).None? ==>
      Entered(k.base, es, v)
    ensures After(k, s, es).code == m.code
  {
    var t := After(k, s, es);
    forall v: nat | IsWord(t.code, v) ensures Word(t.code, v) == Word(m.code, v) {
      assert IsWord(m.code, v);
      RestoredExactly(m, k, s, es, v);
      if SiteAt(m.sites, v + 8).Some? {
        CallStays(k.base, es, v);
      } else if v in m.entries {
        EnteredTouches(k.base, es, v);
      }
    }
    TailStays(k, s, es);
    SameWords(t.code, m.code);
  }

  /** Restoring an entry after its call puts the patched call back, for good: the call's address is known, so
      patch_call() does nothing any more. */
  lemma {:induction false} EntryAfterCall(m: Image, k: Saves, s: State, es: seq<Event>, t: State, again: Event, v: nat)
    requires FreshlyLoaded(m, k, s) && IsWord(m.code, v) && GoodSaves(k, s.code)
    requires again in es && CallsOn(k.base, again, v) && es[|es| - 1] == EntryStub(k.base + v)
    requires Accepted(k, s, es) && t == After(k, s, es) && Accepts(k, t, again) && GoodSaves(k, t.code)
    ensures Word(t.code, v) == MidWord(m, v) && Step(k, t, again) == t
  {
    WordsAre(m, k, s, es, v, t);
    PatchedAre(k, s, es, again);
  }

  // ---------- a word that stays patched ----------

  lemma {:induction false} OneMore(k: Saves, s: State, es: seq<Event>, e: Event, longer: seq<Event>)
    requires GoodSaves(k, s.code) && Accepted(k, s, es) && Accepts(k, After(k, s, es), e) && longer == es + [e]
    ensures Accepted(k, s, longer) && After(k, s, longer) == Step(k, After(k, s, es), e)
  {
    assert longer[..|es|] == es;
  }

  lemma {:induction false} ThreeEvents(k: Saves, s: State, a: Event, b: Event, s1: State, s2: State, one: seq<Event>,
                                       two: seq<Event>, es: seq<Event>)
    requires one == [] + [a] && two == one + [b] && es == two + [a] && GoodSaves(k, s.code)
    requires Accepts(k, s, a) && s1 == Step(k, s, a) && Accepts(k, s1, b) && s2 == Step(k, s1, b) && Accepts(k, s2, a)
    ensures Accepted(k, s, es) && After(k, s, es) == Step(k, s2, a)
  {
    OneMore(k, s, [], a, one);
    OneMore(k, s, one, b, two);
    OneMore(k, s, two, a, es);
  }

  lemma {:induction false} BothAccepted(k: Saves, t: State, v: nat, entry: Event, call: Event)
    requires GoodSaves(k, t.code) && t.cfggened && v % 8 == 0 && v + 8 < |t.code|
    requires v in k.funcOrig && v + 8 in k.raOrig
    requires entry == EntryStub(k.base + v) && call == CallStub(k.base + v + 8)
    ensures Accepts(k, t, entry) && GoodSaves(k, Step(k, t, entry).code) && Step(k, t, entry).cfggened
    ensures Accepts(k, t, call) && GoodSaves(k, Step(k, t, call).code) && Step(k, t, call).cfggened
  {
    PushedRounds(k.base, v + 8, 0, call.patchpoint);
  }

  lemma CallRounds(base: nat, v: nat, call: Event)
    requires base % 8 == 0 && v % 8 == 0 && call == CallStub(base + v + 8)
    ensures CallsOn(base, call, v)
  {
    PushedRounds(base, v + 8, 0, base + v + 8);
  }

  lemma MiddleAndLast(a: Event, b: Event, es: seq<Event>)
    requires es == [] + [a] + [b] + [a]
    ensures b in es && es[|es| - 1] == a
  {
    assert es[1] == b;
  }

  lemma {:induction false} EntersTwice(k: Saves, s: State, v: nat, entry: Event, call: Event) returns (es: seq<Event>)
    requires GoodSaves(k, s.code) && s.cfggened && v % 8 == 0 && v + 8 < |s.code|
    requires v in k.funcOrig && v + 8 in k.raOrig
    requires entry == EntryStub(k.base + v) && call == CallStub(k.base + v + 8)
    ensures es == [] + [entry] + [call] + [entry]
    ensures Accepted(k, s, es) && Accepts(k, After(k, s, es), call)
  {
    BothAccepted(k, s, v, entry, call);
    var s1 := Step(k, s, entry);
    BothAccepted(k, s1, v, entry, call);
    var s2 := Step(k, s1, call);
    BothAccepted(k, s2, v, entry, call);
    es := [] + [entry] + [call] + [entry];
    ThreeEvents(k, s, entry, call, s1, s2, [] + [entry], [] + [entry] + [call], es);
    BothAccepted(k, Step(k, s2, entry), v, entry, call);
  }

  /** Two threads enter a function whose first word ends in a direct call. The first restores the entry, runs on and
      restores the call; then patch_entry() runs for the second. The call is patched again, and stays so. */
  lemma {:induction false} StaysPatched(m: Image, k: Saves, s: State, v: nat, entry: Event, call: Event)
    returns (es: seq<Event>, t: State)
    requires FreshlyLoaded(m, k, s) && GoodSaves(k, s.code) && s.cfggened && IsWord(m.code, v) && v + 8 < |s.code|
    requires v in k.funcOrig && v + 8 in k.raOrig
    requires entry == EntryStub(k.base + v) && call == CallStub(k.base + v + 8)
    ensures es == [] + [entry] + [call] + [entry] && Accepted(k, s, es) && t == After(k, s, es)
    ensures Word(t.code, v) == MidWord(m, v)
    ensures Accepts(k, t, call) && Step(k, t, call) == t
  {
    hide After, Accepted, Accepts, Step, MidWord, Word, CallsOn;
    es := EntersTwice(k, s, v, entry, call);
    t := After(k, s, es);
    assert |s.code| == |m.code| && k.base % 8 == 0 by {
      SavesAreGood(m, k, s);
    }
    CallRounds(k.base, v, call);
    MiddleAndLast(entry, call, es);
    EntryAfterCall(m, k, s, es, t, call, v);
  }

  /** Two words. The first is a function's entry and ends in a direct call to the next instruction. */
  function TwoWords(): Image {
    Image([144, 144, 144, 0xE8, 0, 0, 0, 0, 144, 144, 144, 144, 144, 144, 144, 195], [Site(8, false)], [0],
          Some(100), Some(200))
  }

  /** The first word with its call patched, and with its entry patched as well. */
  function FirstCall(): (w: seq<Byte>)
    ensures |w| == 8
  {
    [144, 144, 144, 0xE8, 92, 0, 0, 0]
  }

  function FirstEntry(): (w: seq<Byte>)
    ensures |w| == 8
  {
    [0xE8, 195, 0, 0, 0, 0, 0, 0]
  }

  function TwoSaves(): Saves {
    Saves(0, map[8 := TwoWords().code[..8]], map[0 := FirstCall()])
  }

  function TwoLoaded(): State {
    State(FirstEntry() + TwoWords().code[8..], {}, true)
  }

  lemma OneSite(sites: seq<Site>, site: Site, key: nat)
    requires sites == [site]
    ensures SiteAt(sites, key) == if key == site.key then Some(site) else None
  {
    assert sites[..0] == [];
  }

  lemma TwoForms()
    ensures MidWord(TwoWords(), 0) == FirstCall() && LoadedWord(TwoWords(), 0) == FirstEntry()
    ensures MidWord(TwoWords(), 8) == LoadedWord(TwoWords(), 8) == Word(TwoWords().code, 8)
    ensures FirstCall() != Word(TwoWords().code, 0)
  {
    var m := TwoWords();
    OneSite(m.sites, Site(8, false), 8);
    OneSite(m.sites, Site(8, false), 16);
    assert Word(m.code, 0) == [144, 144, 144, 0xE8, 0, 0, 0, 0];
    assert Displacement(100, 8) == [92, 0, 0, 0] && Displacement(200, 5) == [195, 0, 0, 0];
    assert FirstCall()[4] == 92 && Word(m.code, 0)[4] == 0;
  }

  lemma TwoHalves(a: seq<Byte>, b: seq<Byte>, c: seq<Byte>)
    requires |a| == |b| == 8 && c == a + b
    ensures Word(c, 0) == a && Word(c, 8) == b
  {
  }

  lemma {:induction false} TwoGood(m: Image)
    requires m == TwoWords()
    ensures GoodImage(m) && Loaded(m, TwoLoaded().code)
  {
    TwoForms();
    var c := TwoLoaded().code;
    TwoHalves(FirstEntry(), m.code[8..], c);
    hide Word, LoadedWord, FirstEntry;
    forall v | IsWord(m.code, v) ensures Word(c, v) == LoadedWord(m, v) {
      assert v == 0 || v == 8;
    }
  }

  lemma {:induction false} TwoSaved(m: Image)
    requires m == TwoWords() && GoodImage(m)
    ensures Saved(m, TwoSaves().raOrig, TwoSaves().funcOrig)
  {
    TwoForms();
    OneSite(m.sites, Site(8, false), 8);
    assert Word(m.code, 0) == m.code[..8];
  }

  /** They meet the conditions of StaysPatched, and the patched call differs from the original. */
  lemma {:induction false} TwoLoad(m: Image)
    requires m == TwoWords()
    ensures FreshlyLoaded(m, TwoSaves(), TwoLoaded()) && TwoLoaded().cfggened
    ensures 0 in TwoSaves().funcOrig && 8 in TwoSaves().raOrig && MidWord(m, 0) != Word(m.code, 0)
  {
    TwoGood(m);
    TwoSaved(m);
    TwoForms();
  }

  lemma {:induction false} SiteIs(c: seq<Byte>, sites: seq<Site>, i: nat)
    requires GoodSites(c, sites) && i < |sites|
    ensures SiteAt(sites, sites[i].key) == Some(sites[i])
  {
    var r := SiteAt(sites, sites[i].key);
    assert sites[i] in sites;
    var j :| 0 <= j < |sites| && sites[j] == r.value;
    assert i == j;
  }

  /** The address that a patched call pushes makes patch_call() restore the word in front of its key. */
  lemma {:induction false} PushedRestores(m: Image, k: Saves, t: State, key: nat, d: nat, pushed: nat)
    requires Originals(m, k) && GoodSaves(k, t.code) && |t.code| == |m.code| && key in k.raOrig && key < |m.code|
    requires d == 0 || d == 2 || d == 3
    requires d <= key && pushed == k.base + (key - d)
    ensures Accepts(k, t, CallStub(pushed))
    ensures pushed !in t.patched ==> Word(Step(k, t, CallStub(pushed)).code, key - 8) == Word(m.code, key - 8)
  {
    PushedRounds(k.base, key, d, pushed);
    if pushed !in t.patched {
      PutWord(t.code, key - 8, k.raOrig[key], key - 8);
    }
  }

  lemma PushedRounds(base: nat, key: nat, d: nat, pushed: nat)
    requires base % 8 == 0 && key % 8 == 0 && (d == 0 || d == 2 || d == 3) && d <= key && pushed == base + (key - d)
    ensures RoundUp(pushed) == base + key
    ensures pushed % 8 == 0 || (pushed + 3) % 8 == 0 || (pushed + 2) % 8 == 0
  {
    RoundsUp(base + key, d);
  }

  /** A call at place 3 - d of a word ends d bytes in front of the word's end and goes to a stub. */
  predicate CallsStub(v: seq<Byte>, key: nat, d: nat, stub: nat)
    requires |v| == 8 && 8 <= key && d <= 3
  {
    var c := Decode(v, key - 8, 3 - d);
    c.Some? && c.value.ret == key - d && U32(c.value.target) == U32(stub)
  }

  lemma {:induction false} MidCalls(m: Image, i: nat, site: Site, w: seq<Byte>, d: nat)
    requires GoodImage(m) && i < |m.sites| && m.sites[i] == site && m.callStub.Some? && site.key <= |m.code|
    requires w == Word(m.code, site.key - 8) && (!site.indirect ==> w[3] == CALL) && d == 3 - CallPlace(w, site)
    ensures CallsStub(MidWord(m, site.key - 8), site.key, d, m.callStub.value)
  {
    SiteIs(m.code, m.sites, i);
    CallDecodes(w, site, m.callStub.value);
  }

  /** A patched call whose word is not hidden by its entry's patch goes to the stub, and the address that it pushes
      makes patch_call() restore that very word. */
  lemma {:induction false} CallLeadsBack(m: Image, k: Saves, s: State, t: State, i: nat, site: Site, at: nat,
                                          w: seq<Byte>, d: nat, pushed: nat)
    requires FreshlyLoaded(m, k, s) && |t.code| == |m.code| && IsWord(m.code, at) && at + 8 < |m.code|
    requires i < |m.sites| && m.sites[i] == site && m.callStub.Some? && site.key == at + 8
    requires w == Word(m.code, at) && (!site.indirect ==> w[3] == CALL) && Word(t.code, at) == MidWord(m, at)
    requires d == 3 - CallPlace(w, site) && pushed == k.base + (site.key - d)
    ensures CallsStub(Word(t.code, at), site.key, d, m.callStub.value)
    ensures GoodSaves(k, t.code) && Accepts(k, t, CallStub(pushed))
    ensures pushed !in t.patched ==> Word(Step(k, t, CallStub(pushed)).code, at) == w
  {
    hide Accepts, Step, CallsStub;
    SavesAreGood(m, k, s);
    MidCalls(m, i, site, w, d);
    PushedRestores(m, k, t, site.key, d, pushed);
  }
}
