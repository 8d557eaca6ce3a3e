/** What a passing check proves, over all table entries: those that hold an ID and those that do not yet. */
module Guarantee {
  import opened Versions
  import opened Protocol
  import opened Checks
  import opened StaleIds

  function Apart(g: nat, h: nat): nat {
    if g <= h then h - g else g - h
  }

  /** Exactly when a check passes. An entry that holds an ID must be active, a whole number of rounds of versions
      away from the BID, and of the class number of the BID; one that holds none must be active, and the BID of
      the first class of a generation with version 0. */
  lemma PassesExactly(s: State, t: Tid, addr: Addr)
    requires Reachable(s) && t in s.threads && s.threads[t].bid.Bid? && addr in s.tary
    ensures s.threads[t].bid.gen < |s.cfgs| && s.threads[t].bid.slot in s.cfgs[s.threads[t].bid.gen].calls
    ensures s.tary[addr].Filled? ==> s.tary[addr].gen < |s.cfgs| && addr in s.cfgs[s.tary[addr].gen].targets
    ensures var b := s.threads[t].bid;
      var c := s.cfgs[b.gen].calls[b.slot];
      Passes(s, t, addr) <==>
      s.tary[addr].active &&
        match s.tary[addr]
        case Filled(g, _) => Apart(b.gen, g) % HALF_IDS == 0 && s.cfgs[g].targets[addr] == c
        case Blank(_) => (b.gen + 1) % HALF_IDS == 0 && c == 0
  {
    var b := s.threads[t].bid;
    HeldExists(s, t);
    match s.tary[addr]
    case Filled(g, _) =>
      EntryExists(s, addr);
      ClassesBounded(s, b.gen);
      ClassesBounded(s, g);
      VersionsAgree(b.gen, g);
      ClassesAgree(s.cfgs[b.gen].calls[b.slot], s.cfgs[g].targets[addr]);
    case Blank(_) => PassingBlank(s, t, addr);
  }

  lemma VersionsAgree(g: nat, h: nat)
    ensures Version(g) == Version(h) <==> Apart(g, h) % HALF_IDS == 0
  {
    if g <= h {
      SameVersion(g, h);
    } else {
      SameVersion(h, g);
    }
  }

  lemma ClassesAgree(c: nat, d: nat)
    requires c < HALF_IDS && d < HALF_IDS
    ensures ClassId(c) == ClassId(d) <==> c == d
  {
    if ClassId(c) == ClassId(d) {
      SameClass(c, d);
    }
  }

  /** Thread t holds a BID, and no edge of the CFG of its generation goes to addr. */
  ghost predicate Forbidden(s: State, t: Tid, addr: Addr) {
    t in s.threads && s.threads[t].bid.Bid? && addr in s.tary && !Allowed(s, s.threads[t].bid, addr)
  }

  /** No forbidden check passes, whatever the entry, in any reachable state with at most n generations. */
  ghost predicate SoundWithin(n: nat) {
    forall s, t, addr :: Reachable(s) && |s.cfgs| <= n && Forbidden(s, t, addr) ==> !Passes(s, t, addr)
  }

  /** With fewer than 125^4 generations a check that passes is allowed by the CFG of one single generation. */
  lemma PassingAllowed(s: State, t: Tid, addr: Addr)
    requires Reachable(s) && Passes(s, t, addr) && |s.cfgs| < HALF_IDS
    ensures s.tary[addr].Filled? && s.tary[addr].gen == s.threads[t].bid.gen && Allowed(s, s.threads[t].bid, addr)
  {
    var b := s.threads[t].bid;
    PassesExactly(s, t, addr);
    WithinRound(b.gen + 1);
    if s.tary[addr].Filled? {
      WithinRound(Apart(b.gen, s.tary[addr].gen));
    }
  }

  lemma WithinRound(d: nat)
    requires d < HALF_IDS
    ensures d % HALF_IDS == 0 <==> d == 0
  {
  }

  // ---------- a run without threads, until a generation has version 0 ----------

  /** A slot of class 0, and no targets. */
  function Quiet(): Cfg {
    Cfg(map[0 := 0], map[])
  }

  function QuietCfgs(n: nat): (cfgs: seq<Cfg>)
    ensures |cfgs| == n && forall i :: 0 <= i < n ==> cfgs[i] == Quiet()
    decreases n, 0
  {
    if n == 0 then [] else QuietCfgs(n - 1) + [Quiet()]
  }

  /** Between generations, nobody there: each scan resets version_space. */
  function Resting(n: nat): State
    requires n > 0
  {
    State(map[], map[], 0, QuietCfgs(n), {0}, {}, {0}, {}, map[0 := n - 1], map[0 := Blank(false)], true, {}, {}, Idle)
  }

  /** While generation n is under way. */
  function Moving(n: nat, phase: Phase): State
    requires n > 0
  {
    Resting(n).(cfgs := QuietCfgs(n) + [Quiet()], phase := phase)
  }

  /** While the first generation is under way. */
  function Starting(bary: map<Slot, nat>, phase: Phase): State {
    State(map[], map[], 0, [Quiet()], {}, {0}, {}, {0}, bary, map[0 := Blank(false)], false, {}, {}, phase)
  }

  lemma StartsMoving()
    ensures Reachable(Starting(map[], FillingNew({}, {0})))
  {
    assert After([]) == Init();
    Reach(Init(), RuntimeDoes(LoadModule({0}, {0})));
    var s1 := Apply(Init(), RuntimeDoes(LoadModule({0}, {0})));
    assert s1.tary == map[0 := Blank(false)];
    Reach(s1, Scans(BeginScan(Quiet())));
    var s2 := Apply(s1, Scans(BeginScan(Quiet())));
    assert s2.phase.threads == {};
    Reach(s2, Scans(EndScan));
    assert {0} * Quiet().targets.Keys == {};
    assert Apply(s2, Scans(EndScan)) == Starting(map[], FillingNew({}, {0}));
  }

  lemma StartsFilled()
    ensures Reachable(Starting(map[0 := 0], FillingBary({})))
  {
    StartsMoving();
    var s0 := Starting(map[], FillingNew({}, {0}));
    Reach(s0, Fills(FillBary(0)));
    var s1 := Apply(s0, Fills(FillBary(0)));
    assert s1.phase == FillingNew({}, {}) && s1.bary == map[0 := 0];
    Reach(s1, Fills(EndNew));
    var s2 := Apply(s1, Fills(EndNew));
    assert s2.phase == FillingTary({});
    Reach(s2, Fills(EndTary));
    assert Apply(s2, Fills(EndTary)) == Starting(map[0 := 0], FillingBary({}));
  }

  lemma FirstRests()
    ensures Reachable(Resting(1))
  {
    StartsFilled();
    var s0 := Starting(map[0 := 0], FillingBary({}));
    Reach(s0, Fills(EndBary));
    var s1 := Apply(s0, Fills(EndBary));
    assert s1.oldSlots == {0} && s1.oldAddrs == {0} && QuietCfgs(1) == [Quiet()];
    Reach(s1, Ends(EndCompensate));
    var s2 := Apply(s1, Ends(EndCompensate));
    Reach(s2, Ends(EndSnapshot));
    assert Apply(s2, Ends(EndSnapshot)) == Resting(1);
  }

  lemma NextMoves(n: nat)
    requires n > 0 && Reachable(Resting(n))
    ensures Reachable(Moving(n, FillingBary({0})))
  {
    var s0 := Resting(n);
    Reach(s0, Scans(BeginScan(Quiet())));
    var s1 := Apply(s0, Scans(BeginScan(Quiet())));
    assert s1.phase.threads == {};
    Reach(s1, Scans(EndScan));
    assert {} * Quiet().targets.Keys == {};
    var s2 := Apply(s1, Scans(EndScan));
    assert s2 == Moving(n, FillingNew({}, {}));
    Reach(s2, Fills(EndNew));
    assert s2.oldAddrs * s2.cfgs[|s2.cfgs| - 1].targets.Keys == {};
    var s3 := Apply(s2, Fills(EndNew));
    assert s3 == Moving(n, FillingTary({}));
    Reach(s3, Fills(EndTary));
    assert Apply(s3, Fills(EndTary)) == Moving(n, FillingBary({0}));
  }

  lemma NextRests(n: nat)
    requires n > 0 && Reachable(Resting(n))
    ensures Reachable(Resting(n + 1))
  {
    NextMoves(n);
    var s0 := Moving(n, FillingBary({0}));
    Reach(s0, Fills(FillBary(0)));
    var s1 := Apply(s0, Fills(FillBary(0)));
    assert s1.phase.calls == {} && s1.bary == map[0 := n];
    Reach(s1, Fills(EndBary));
    var s2 := Apply(s1, Fills(EndBary));
    assert s2.oldSlots == {0} && s2.oldAddrs == {0} && s2.phase == Snapshotting({});
    Reach(s2, Ends(EndSnapshot));
    assert QuietCfgs(n + 1) == QuietCfgs(n) + [Quiet()];
    assert Apply(s2, Ends(EndSnapshot)) == Resting(n + 1);
  }

  lemma {:induction false} Rests(n: nat)
    requires n > 0
    ensures Reachable(Resting(n))
  {
    if n == 1 {
      FirstRests();
    } else {
      Rests(n - 1);
      NextRests(n - 1);
    }
  }

  /** An early activation: a call site is restored before its return address has an ID. */
  lemma Activated(n: nat)
    requires n > 0
    ensures Reachable(Resting(n).(tary := map[0 := Blank(true)], restored := {0}))
  {
    Rests(n);
    var s0 := Resting(n);
    Reach(s0, RuntimeDoes(PatchCall(0)));
    var s1 := Apply(s0, RuntimeDoes(PatchCall(0)));
    assert s1.tary == map[0 := Blank(true)];
    Reach(s1, RuntimeDoes(RestoreCall));
    var s2 := Apply(s1, RuntimeDoes(RestoreCall));
    assert s2.restored == {0};
  }

  /** After n generations, n a multiple of 125^4, a check passes against an entry that holds no ID; no generation's
      CFG allows it, and version_space is 0. */
  lemma BlankPasses(n: nat) returns (s: State)
    requires 0 < n && n % HALF_IDS == 0
    ensures Reachable(s) && |s.cfgs| == n && s.versionSpace == 0
    ensures 0 in s.tary && s.tary[0].Blank? && Forbidden(s, 0, 0) && Passes(s, 0, 0)
    ensures forall g :: 0 <= g < |s.cfgs| ==> !Allowed(s, Bid(0, g), 0)
  {
    Activated(n);
    var s0 := Resting(n).(tary := map[0 := Blank(true)], restored := {0});
    Reach(s0, RuntimeDoes(CreateThread(0, 0, false)));
    var s1 := Apply(s0, RuntimeDoes(CreateThread(0, 0, false)));
    Reach(s1, ThreadDoes(0, ReadBid(0)));
    s := Apply(s1, ThreadDoes(0, ReadBid(0)));
    assert s.threads[0].bid == Bid(0, n - 1) && s.cfgs[n - 1] == Quiet();
    PassingBlank(s, 0, 0);
  }

  /** Over all entries the guarantee holds exactly while there are fewer than 125^4 generations. */
  lemma SoundExactlyWithin(n: nat)
    ensures SoundWithin(n) <==> n < HALF_IDS
  {
    if n < HALF_IDS {
      forall s, t, addr | Reachable(s) && |s.cfgs| <= n && Forbidden(s, t, addr) ensures !Passes(s, t, addr) {
        if Passes(s, t, addr) {
          PassingAllowed(s, t, addr);
        }
      }
    } else {
      var s := BlankPasses(HALF_IDS);
    }
  }
}
