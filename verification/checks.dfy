/** What the version protocol guarantees to a thread that checks an indirect branch. */
module Checks {
  import opened Versions
  import opened Protocol

  /** The 64-bit contents of a table entry: class half, version half, and the lowest bit. */
  datatype Id = Id(classId: nat, version: nat, valid: bool)

  function BidValue(s: State, b: Held): Id
    requires b.Bid? && b.gen < |s.cfgs| && b.slot in s.cfgs[b.gen].calls
  {
    Id(ClassId(s.cfgs[b.gen].calls[b.slot]), Version(b.gen), true)
  }

  function TidValue(s: State, addr: Addr): Id
    requires addr in s.tary
    requires s.tary[addr].Filled? ==> s.tary[addr].gen < |s.cfgs| && addr in s.cfgs[s.tary[addr].gen].targets
  {
    match s.tary[addr]
    case Blank(active) => Id(0, 0, active)
    case Filled(gen, active) => Id(ClassId(s.cfgs[gen].targets[addr]), Version(gen), active)
  }

  /** In reachable states the entries name generations that there are. */
  lemma HeldExists(s: State, t: Tid)
    requires Reachable(s) && t in s.threads && s.threads[t].bid.Bid?
    ensures s.threads[t].bid.gen < |s.cfgs| && s.threads[t].bid.slot in s.cfgs[s.threads[t].bid.gen].calls
  {
    HeldBidAge(s, t);
  }

  lemma EntryExists(s: State, addr: Addr)
    requires Reachable(s) && addr in s.tary && s.tary[addr].Filled?
    ensures |s.cfgs| - 2 <= s.tary[addr].gen < |s.cfgs| && addr in s.cfgs[s.tary[addr].gen].targets
  {
    var actions :| After(actions) == s;
    ReachableInv(actions);
    assert AddrInv(s, addr);
  }

  /** A BID in mid-check is at most version_space + 1 generations old, hence at most VERSION_SPACE_MAX. */
  lemma HeldBidAge(s: State, t: Tid)
    requires Reachable(s) && t in s.threads && s.threads[t].bid.Bid?
    ensures s.threads[t].bid.gen < |s.cfgs| && s.threads[t].bid.slot in s.cfgs[s.threads[t].bid.gen].calls
    ensures Latest(s) - s.threads[t].bid.gen <= Window(s) <= s.versionSpace + 1
    ensures Window(s) <= VERSION_SPACE_MAX
  {
    var actions :| After(actions) == s;
    ReachableInv(actions);
    assert ThreadInv(s, t);
  }

  /** version_space is reset only when no live thread holds a BID older than the latest generation, though
      safe() looks at the threads one at a time. */
  lemma ResetMeansFresh(s: State, t: Tid)
    requires Reachable(s) && ScanCan(s, EndScan) && t in s.threads && s.threads[t].bid.Bid?
    ensures s.threads[t].bid.gen == Latest(s)
  {
    var actions :| After(actions) == s;
    ReachableInv(actions);
    assert ThreadInv(s, t);
  }

  /** The target table is never behind the branch table: once a slot of an old module is new, every target is. */
  lemma TaryNotBehind(s: State, slot: Slot, addr: Addr)
    requires Reachable(s) && slot in s.oldSlots
    ensures slot in s.bary && |s.cfgs| - 2 <= s.bary[slot] < |s.cfgs|
    ensures addr in s.cfgs[s.bary[slot]].targets ==>
      addr in s.tary && s.tary[addr].Filled? && s.bary[slot] <= s.tary[addr].gen
  {
    var actions :| After(actions) == s;
    ReachableInv(actions);
    assert SlotInv(s, slot) && AddrInv(s, addr);
  }

  // ---------- passing checks ----------

  /** Thread t holds a BID that equals the entry of addr. */
  ghost predicate Passes(s: State, t: Tid, addr: Addr)
    requires Reachable(s)
  {
    t in s.threads && s.threads[t].bid.Bid? && addr in s.tary &&
      (HeldExists(s, t);
       (if s.tary[addr].Filled? then EntryExists(s, addr); true else true) &&
       BidValue(s, s.threads[t].bid) == TidValue(s, addr))
  }

  /** The CFG of the BID's own generation has the edge. */
  ghost predicate Allowed(s: State, b: Held, addr: Addr) {
    && b.Bid? && b.gen < |s.cfgs| && b.slot in s.cfgs[b.gen].calls
    && addr in s.cfgs[b.gen].targets && s.cfgs[b.gen].calls[b.slot] == s.cfgs[b.gen].targets[addr]
  }

  lemma ClassesBounded(s: State, g: nat)
    requires Reachable(s) && g < |s.cfgs|
    ensures Numbered(s.cfgs[g])
  {
    var actions :| After(actions) == s;
    ReachableInv(actions);
  }

  /** While version_space + 1 is below 125^4, a check that passes against an ID is allowed by the CFG of one
      single generation; one that passes against an entry without an ID has a BID of version 0, whose generation
      is the last of a round of 125^4. */
  lemma PassingCheckAllowed(s: State, t: Tid, addr: Addr)
    requires Reachable(s) && Passes(s, t, addr) && s.versionSpace + 1 < HALF_IDS
    ensures s.tary[addr].Filled? ==>
      s.tary[addr].gen == s.threads[t].bid.gen && Allowed(s, s.threads[t].bid, addr)
    ensures s.tary[addr].Blank? ==> (s.threads[t].bid.gen + 1) % HALF_IDS == 0 && HALF_IDS <= |s.cfgs|
  {
    var b := s.threads[t].bid;
    HeldBidAge(s, t);
    if s.tary[addr].Filled? {
      EntryExists(s, addr);
      SameGeneration(b.gen, s.tary[addr].gen);
      ClassesBounded(s, b.gen);
      SameClass(s.cfgs[b.gen].calls[b.slot], s.cfgs[b.gen].targets[addr]);
    } else {
      PassingBlank(s, t, addr);
      WholeRound(b.gen + 1);
    }
  }

  lemma WholeRound(n: nat)
    requires n > 0 && n % HALF_IDS == 0
    ensures HALF_IDS <= n
  {
  }

  lemma SameGeneration(g: nat, h: nat)
    requires Version(g) == Version(h) && g < h + HALF_IDS && h < g + HALF_IDS
    ensures g == h
  {
    if g < h {
      VersionsDiffer(g, h);
    } else if h < g {
      VersionsDiffer(h, g);
    }
  }

  lemma SameClass(c: nat, d: nat)
    requires ClassId(c) == ClassId(d) && c < HALF_IDS && d < HALF_IDS
    ensures c == d
  {
    if c < d {
      ClassIdsDiffer(c, d);
    } else if d < c {
      ClassIdsDiffer(d, c);
    }
  }

  /** A check can pass against an entry that has no ID yet exactly when the entry was activated early and the
      BID is that of the first class of a generation with version 0. */
  lemma PassingBlank(s: State, t: Tid, addr: Addr)
    requires Reachable(s) && t in s.threads && s.threads[t].bid.Bid? && addr in s.tary && s.tary[addr].Blank?
    ensures s.threads[t].bid.gen < |s.cfgs| && s.threads[t].bid.slot in s.cfgs[s.threads[t].bid.gen].calls
    ensures Passes(s, t, addr) <==>
      && s.tary[addr].active && (s.threads[t].bid.gen + 1) % HALF_IDS == 0
      && s.cfgs[s.threads[t].bid.gen].calls[s.threads[t].bid.slot] == 0
  {
    var b := s.threads[t].bid;
    HeldExists(s, t);
    ClassesBounded(s, b.gen);
    ZeroVersion(b.gen);
    ZeroClass(s.cfgs[b.gen].calls[b.slot]);
  }

  // ---------- activation ----------

  predicate IsActive(s: State, addr: Addr) {
    addr in s.tary && s.tary[addr].active
  }

  /** Activations and restored call sites are not taken back. */
  predicate Keeps(s: State, s': State, addr: Addr) {
    (IsActive(s, addr) ==> IsActive(s', addr)) && (addr in s.restored ==> addr in s'.restored)
  }

  lemma KeepsInThread(s: State, who: Tid, step: ThreadStep, addr: Addr)
    requires Domains(s) && ThreadCan(s, who, step)
    ensures Keeps(s, ThreadDone(s, who, step), addr)
  {
  }

  lemma KeepsInRuntime(s: State, step: RuntimeStep, addr: Addr)
    requires Domains(s) && RuntimeCan(s, step)
    ensures Keeps(s, RuntimeDone(s, step), addr)
  {
  }

  lemma KeepsInScan(s: State, step: ScanStep, addr: Addr)
    requires Domains(s) && ScanCan(s, step)
    ensures Keeps(s, ScanDone(s, step), addr)
  {
  }

  lemma KeepsInFill(s: State, step: FillStep, addr: Addr)
    requires Domains(s) && FillCan(s, step)
    ensures Keeps(s, FillDone(s, step), addr)
  {
  }

  lemma KeepsInEnd(s: State, step: EndStep, addr: Addr)
    requires Domains(s) && EndCan(s, step)
    ensures Keeps(s, EndDone(s, step), addr)
  {
  }

  lemma ActionKeeps(s: State, a: Action, addr: Addr)
    requires Domains(s) && Enabled(s, a)
    ensures Keeps(s, Apply(s, a), addr)
  {
    match a
    case ThreadDoes(_, _) => KeepsInThread(s, a.t, a.thread, addr);
    case RuntimeDoes(_) => KeepsInRuntime(s, a.runtime, addr);
    case Scans(_) => KeepsInScan(s, a.scan, addr);
    case Fills(_) => KeepsInFill(s, a.fill, addr);
    case Ends(_) => KeepsInEnd(s, a.end, addr);
  }

  lemma RunStep(actions: seq<Action>, a: Action)
    ensures var s := After(actions);
      After(actions + [a]) == if Enabled(s, a) then Apply(s, a) else s
  {
    assert (actions + [a])[..|actions|] == actions;
  }

  /** Over a whole run activation only grows, and restored call sites stay restored. */
  lemma {:induction false} ActivationGrows(actions: seq<Action>, more: seq<Action>, addr: Addr)
    ensures Keeps(After(actions), After(actions + more), addr)
  {
    if more == [] {
      assert actions + more == actions;
    } else {
      var n := |more| - 1;
      var s := After(actions + more[..n]);
      ActivationGrows(actions, more[..n], addr);
      RunStep(actions + more[..n], more[n]);
      ReachableInv(actions + more[..n]);
      if Enabled(s, more[n]) {
        ActionKeeps(s, more[n], addr);
      }
      assert actions + more[..n] + [more[n]] == actions + more;
    }
  }

  /** A restored call site's return address is active once the CFG exists, and is recorded in
      patch_compensate before. */
  lemma RestoredActive(s: State, addr: Addr)
    requires Reachable(s) && addr in s.restored
    ensures addr in s.tary
    ensures s.cfggened && !s.phase.Compensating? ==> s.tary[addr].active
    ensures s.phase.Compensating? ==> s.tary[addr].active || addr in s.compensate
    ensures !s.cfggened ==> addr in s.compensate
  {
    var actions :| After(actions) == s;
    ReachableInv(actions);
    assert PatchInv(s, addr);
  }

  lemma PatchAgain(s: State, addr: Addr)
    requires addr in s.restored && RuntimeCan(s, PatchCall(addr))
    ensures Apply(s, RuntimeDoes(PatchCall(addr))) == s
  {
  }

  /** Once a call site is restored, patching it again changes nothing, at any later point of the run. */
  lemma PatchOnce(actions: seq<Action>, more: seq<Action>, addr: Addr)
    requires addr in After(actions).restored
    ensures After(actions + more + [RuntimeDoes(PatchCall(addr))]) == After(actions + more)
  {
    var s := After(actions + more);
    ActivationGrows(actions, more, addr);
    RunStep(actions + more, RuntimeDoes(PatchCall(addr)));
    if Enabled(s, RuntimeDoes(PatchCall(addr))) {
      PatchAgain(s, addr);
    }
  }
}
