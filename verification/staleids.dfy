/** How far the guarantee of the version protocol goes for entries that hold an ID. */
module StaleIds {
  import opened Versions
  import opened Protocol
  import opened Checks

  /** No check passes against an entry that holds an ID without an edge in the CFG of the BID's generation, in any
      reachable state with version_space at most v. Entries without an ID are the subject of Guarantee. */
  ghost predicate IdsSoundUpTo(v: nat) {
    forall s, t, addr :: Reachable(s) && s.versionSpace <= v && Misses(s, t, addr) ==> !Passes(s, t, addr)
  }

  ghost predicate Misses(s: State, t: Tid, addr: Addr) {
    t in s.threads && addr in s.tary && s.tary[addr].Filled? && !Allowed(s, s.threads[t].bid, addr)
  }

  lemma Reach(s: State, a: Action)
    requires Reachable(s) && Enabled(s, a)
    ensures Reachable(Apply(s, a))
  {
    var actions :| After(actions) == s;
    RunStep(actions, a);
  }

  // ---------- one thread that keeps a BID of generation 0 while generations pass ----------

  function Calm(): Cfg {
    Cfg(map[0 := 7], map[])
  }

  /** The generation in which the class number of generation 0 goes to a target. */
  function Moved(): Cfg {
    Cfg(map[0 := 8], map[0 := 7])
  }

  function CalmCfgs(n: nat): (cfgs: seq<Cfg>)
    ensures |cfgs| == n && forall i :: 0 <= i < n ==> cfgs[i] == Calm()
  {
    if n == 0 then [] else CalmCfgs(n - 1) + [Calm()]
  }

  function OneThread(escapes: nat, held: Held): map<Tid, Thread> {
    map[0 := Thread(escapes, false, held)]
  }

  /** Between generations, with a thread whose escape count is e and was snap at the last snapshot. */
  function Between(e: nat, snap: nat, held: Held, versionSpace: nat, n: nat): State
    requires n > 0
  {
    State(OneThread(e, held), map[0 := snap], versionSpace, CalmCfgs(n), {0}, {}, {0}, {},
          map[0 := n - 1], map[0 := Blank(false)], true, {}, {}, Idle)
  }

  /** While generation n is under way, before it changes a table. */
  function Under(e: nat, snap: nat, held: Held, versionSpace: nat, n: nat, cfg: Cfg, phase: Phase): State
    requires n > 0
  {
    State(OneThread(e, held), map[0 := snap], versionSpace, CalmCfgs(n) + [cfg], {0}, {}, {0}, {},
          map[0 := n - 1], map[0 := Blank(false)], true, {}, {}, phase)
  }

  /** The thread has not escaped, so the generation goes on without a reset. */
  lemma NotSafe(e: nat, held: Held, v: nat, n: nat, cfg: Cfg)
    requires n > 0 && v + 1 < VERSION_SPACE_MAX && (cfg == Calm() || cfg == Moved())
    requires Reachable(Between(e, e, held, v, n))
    ensures Reachable(Under(e, e, held, v + 1, n, cfg, FillingNew({}, {})))
  {
    var s0 := Between(e, e, held, v, n);
    Reach(s0, Scans(BeginScan(cfg)));
    var s1 := Apply(s0, Scans(BeginScan(cfg)));
    Reach(s1, Scans(ReadEscapes(0)));
    var s2 := Apply(s1, Scans(ReadEscapes(0)));
    Reach(s2, Scans(Decide));
    assert {} * cfg.targets.Keys == {};
    assert Apply(s2, Scans(Decide)) == Under(e, e, held, v + 1, n, cfg, FillingNew({}, {}));
  }

  /** It has escaped, so the version space is reset. */
  lemma Safe(e: nat, snap: nat, v: nat, n: nat)
    requires n > 0 && e != snap && Reachable(Between(e, snap, NoBid, v, n))
    ensures Reachable(Under(e, snap, NoBid, 0, n, Calm(), FillingNew({}, {})))
  {
    var s0 := Between(e, snap, NoBid, v, n);
    Reach(s0, Scans(BeginScan(Calm())));
    var s1 := Apply(s0, Scans(BeginScan(Calm())));
    Reach(s1, Scans(ReadEscapes(0)));
    var s2 := Apply(s1, Scans(ReadEscapes(0)));
    Reach(s2, Scans(Decide));
    var s3 := Apply(s2, Scans(Decide));
    assert s3.phase.threads == {};
    Reach(s3, Scans(EndScan));
    assert {} * Calm().targets.Keys == {};
    assert Apply(s3, Scans(EndScan)) == Under(e, snap, NoBid, 0, n, Calm(), FillingNew({}, {}));
  }

  /** No target changes. */
  lemma ToBary(e: nat, snap: nat, held: Held, v: nat, n: nat)
    requires n > 0 && Reachable(Under(e, snap, held, v, n, Calm(), FillingNew({}, {})))
    ensures Reachable(Under(e, snap, held, v, n, Calm(), FillingBary({0})))
  {
    var s0 := Under(e, snap, held, v, n, Calm(), FillingNew({}, {}));
    Reach(s0, Fills(EndNew));
    assert s0.oldAddrs * s0.cfgs[|s0.cfgs| - 1].targets.Keys == {};
    var s1 := Apply(s0, Fills(EndNew));
    Reach(s1, Fills(EndTary));
    assert Apply(s1, Fills(EndTary)) == Under(e, snap, held, v, n, Calm(), FillingBary({0}));
  }

  /** The thread reads a BID just before it is replaced. */
  lemma ReadsOld(e: nat, snap: nat, v: nat, n: nat)
    requires n > 0 && Reachable(Under(e, snap, NoBid, v, n, Calm(), FillingBary({0})))
    ensures Reachable(Under(e, snap, Bid(0, n - 1), v, n, Calm(), FillingBary({0})))
  {
    var s0 := Under(e, snap, NoBid, v, n, Calm(), FillingBary({0}));
    Reach(s0, ThreadDoes(0, ReadBid(0)));
    assert Apply(s0, ThreadDoes(0, ReadBid(0))) == Under(e, snap, Bid(0, n - 1), v, n, Calm(), FillingBary({0}));
  }

  /** The generation ends. */
  lemma FromBary(e: nat, snap: nat, held: Held, v: nat, n: nat)
    requires n > 0 && Reachable(Under(e, snap, held, v, n, Calm(), FillingBary({0})))
    ensures Reachable(Between(e, e, held, v, n + 1))
  {
    var s0 := Under(e, snap, held, v, n, Calm(), FillingBary({0}));
    Reach(s0, Fills(FillBary(0)));
    var s1 := Apply(s0, Fills(FillBary(0)));
    assert s1.phase.calls == {} && s1.bary == map[0 := n];
    Reach(s1, Fills(EndBary));
    var s2 := Apply(s1, Fills(EndBary));
    assert s2.oldSlots == {0} && s2.oldAddrs == {0} && s2.threads.Keys == {0};
    assert s2 == s0.(bary := map[0 := n], phase := Snapshotting({0}));
    SnapshotOne(s2, e, held, n);
    assert CalmCfgs(n) + [Calm()] == CalmCfgs(n + 1);
  }

  lemma SnapshotOne(s: State, e: nat, held: Held, n: nat)
    requires Reachable(s) && s.phase == Snapshotting({0}) && s.threads == OneThread(e, held) && s.snaps.Keys == {0}
    ensures Reachable(s.(snaps := map[0 := e], phase := Idle))
  {
    Reach(s, Ends(Snapshot(0)));
    var t := Apply(s, Ends(Snapshot(0)));
    assert t.phase.threads == {} && t.snaps == map[0 := e];
    Reach(t, Ends(EndSnapshot));
  }

  /** The first generation of all, with one thread that has not escaped. */
  lemma FirstLoads()
    ensures Reachable(Init().(threads := OneThread(0, NoBid), snaps := map[0 := 0], newSlots := {0}, newAddrs := {0},
                              tary := map[0 := Blank(false)]))
  {
    assert After([]) == Init();
    Reach(Init(), RuntimeDoes(LoadModule({0}, {0})));
    var s1 := Apply(Init(), RuntimeDoes(LoadModule({0}, {0})));
    assert s1.tary == map[0 := Blank(false)];
    Reach(s1, RuntimeDoes(CreateThread(0, 0, false)));
    var s2 := Apply(s1, RuntimeDoes(CreateThread(0, 0, false)));
    assert s2.threads == OneThread(0, NoBid) && s2.snaps == map[0 := 0];
  }

  lemma FirstScan()
    ensures Reachable(State(OneThread(0, NoBid), map[0 := 0], 1, [Calm()], {}, {0}, {}, {0}, map[],
                            map[0 := Blank(false)], false, {}, {}, FillingNew({}, {0})))
  {
    FirstLoads();
    var s2 := Init().(threads := OneThread(0, NoBid), snaps := map[0 := 0], newSlots := {0}, newAddrs := {0},
                      tary := map[0 := Blank(false)]);
    Reach(s2, Scans(BeginScan(Calm())));
    var s3 := Apply(s2, Scans(BeginScan(Calm())));
    Reach(s3, Scans(ReadEscapes(0)));
    var s4 := Apply(s3, Scans(ReadEscapes(0)));
    Reach(s4, Scans(Decide));
    assert {0} * Calm().targets.Keys == {};
  }

  lemma FirstFill()
    ensures Reachable(State(OneThread(0, NoBid), map[0 := 0], 1, [Calm()], {}, {0}, {}, {0}, map[0 := 0],
                            map[0 := Blank(false)], false, {}, {}, FillingBary({})))
  {
    FirstScan();
    var s0 := State(OneThread(0, NoBid), map[0 := 0], 1, [Calm()], {}, {0}, {}, {0}, map[],
                    map[0 := Blank(false)], false, {}, {}, FillingNew({}, {0}));
    Reach(s0, Fills(FillBary(0)));
    var s1 := Apply(s0, Fills(FillBary(0)));
    assert s1.phase == FillingNew({}, {}) && s1.bary == map[0 := 0];
    Reach(s1, Fills(EndNew));
    var s2 := Apply(s1, Fills(EndNew));
    assert s2.phase == FillingTary({});
    Reach(s2, Fills(EndTary));
  }

  lemma FirstGeneration()
    ensures Reachable(Between(0, 0, NoBid, 1, 1))
  {
    FirstFill();
    var s0 := State(OneThread(0, NoBid), map[0 := 0], 1, [Calm()], {}, {0}, {}, {0}, map[0 := 0],
                    map[0 := Blank(false)], false, {}, {}, FillingBary({}));
    Reach(s0, Fills(EndBary));
    var s1 := Apply(s0, Fills(EndBary));
    assert s1.oldSlots == {0} && s1.oldAddrs == {0};
    Reach(s1, Ends(EndCompensate));
    var s2 := Apply(s1, Ends(EndCompensate));
    assert s2.phase == Snapshotting({0});
    SnapshotOne(s2, 0, NoBid, 1);
    assert CalmCfgs(1) == [Calm()];
  }

  lemma Escaped()
    ensures Reachable(Between(1, 0, NoBid, 1, 1))
  {
    FirstGeneration();
    var s0 := Between(0, 0, NoBid, 1, 1);
    Reach(s0, ThreadDoes(0, EnterSyscall));
    var s1 := Apply(s0, ThreadDoes(0, EnterSyscall));
    Reach(s1, ThreadDoes(0, Escape));
    var s2 := Apply(s1, ThreadDoes(0, Escape));
    Reach(s2, ThreadDoes(0, LeaveSyscall));
    assert Apply(s2, ThreadDoes(0, LeaveSyscall)).threads == OneThread(1, NoBid);
  }

  /** After a reset, j generations go by without another: the BID of generation 0 is j + 1 generations old. */
  lemma {:induction false} KeepsOld(j: nat)
    requires j < VERSION_SPACE_MAX
    ensures Reachable(Between(1, 1, Bid(0, 0), j, j + 2))
  {
    if j == 0 {
      Escaped();
      Safe(1, 0, 1, 1);
      ToBary(1, 0, NoBid, 0, 1);
      ReadsOld(1, 0, 0, 1);
      FromBary(1, 0, Bid(0, 0), 0, 1);
    } else {
      KeepsOld(j - 1);
      NotSafe(1, Bid(0, 0), j - 1, j + 1, Calm());
      ToBary(1, 1, Bid(0, 0), j, j + 1);
      FromBary(1, 1, Bid(0, 0), j, j + 1);
    }
  }

  /** Generation j + 2 gives the target at 0 the class number that the BID has. */
  lemma MeetsOld(j: nat)
    requires j + 1 < VERSION_SPACE_MAX
    ensures Reachable(Under(1, 1, Bid(0, 0), j + 1, j + 2, Moved(), FillingTary({}))
                      .(tary := map[0 := Filled(j + 2, true)]))
  {
    KeepsOld(j);
    NotSafe(1, Bid(0, 0), j, j + 2, Moved());
    var s0 := Under(1, 1, Bid(0, 0), j + 1, j + 2, Moved(), FillingNew({}, {}));
    Reach(s0, Fills(EndNew));
    var s1 := Apply(s0, Fills(EndNew));
    assert s1.phase == FillingTary({0});
    Reach(s1, Fills(FillTary(0, true)));
    var s2 := Apply(s1, Fills(FillTary(0, true)));
    assert s2.phase == FillingTary({}) && s2.tary == map[0 := Filled(j + 2, true)];
  }

  /** With a BID that is n generations old, n a multiple of 125^4, a check passes that no generation's CFG
      allows. */
  lemma StalePasses(n: nat) returns (s: State)
    requires 2 <= n <= VERSION_SPACE_MAX && n % HALF_IDS == 0
    ensures Reachable(s) && s.versionSpace == n - 1 && Passes(s, 0, 0) && Misses(s, 0, 0)
    ensures forall g :: 0 <= g < |s.cfgs| ==> !Allowed(s, Bid(0, g), 0)
  {
    MeetsOld(n - 2);
    s := Under(1, 1, Bid(0, 0), n - 1, n, Moved(), FillingTary({})).(tary := map[0 := Filled(n, true)]);
    assert s.cfgs[0] == Calm() && s.cfgs[n] == Moved();
    SameVersion(0, n);
  }

  /** Against IDs the guarantee holds exactly while version_space + 1 is below 125^4, which is less than
      VERSION_SPACE_MAX. */
  lemma IdsSoundExactly(v: nat)
    ensures IdsSoundUpTo(v) <==> v + 1 < HALF_IDS
  {
    if v + 1 < HALF_IDS {
      forall s, t, addr | Reachable(s) && s.versionSpace <= v && Misses(s, t, addr) ensures !Passes(s, t, addr) {
        if Passes(s, t, addr) {
          PassingCheckAllowed(s, t, addr);
        }
      }
    } else {
      var s := StalePasses(HALF_IDS);
    }
  }
}
