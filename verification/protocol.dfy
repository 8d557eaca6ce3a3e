/** The CFG version protocol of runtime.c: generations rewrite the tables while threads run checks. */
module Protocol {
  import opened Versions

  type Tid = nat
  type Slot = nat
  type Addr = nat

  const VERSION_SPACE_MAX: nat := 252047376

  /** A generation's CFG: the class of each indirect branch, and of each target. */
  datatype Cfg = Cfg(calls: map<Slot, nat>, targets: map<Addr, nat>)

  /** The BID a thread holds between its two table reads: the slot's entry of some generation. */
  datatype Held = NoBid | Bid(slot: Slot, gen: nat)

  datatype Thread = Thread(escapes: nat, insyscall: bool, bid: Held)

  /** A Tary entry: zero but for its activation bit, or the ID of some generation. */
  datatype TaryEntry = Blank(active: bool) | Filled(gen: nat, active: bool)

  datatype Reading = NotReading | Escapes(t: Tid, count: nat)

  /** Where the thread inside the runtime stands. */
  datatype Phase =
    | Idle
    | Patching(addr: Addr)
    | Scanning(threads: set<Tid>, reading: Reading, cfg: Cfg)
    | FillingNew(targets: set<Addr>, calls: set<Slot>)
    | FillingTary(targets: set<Addr>)
    | FillingBary(calls: set<Slot>)
    | Compensating
    | Snapshotting(threads: set<Tid>)

  /** The live threads, thread_escape_map, version_space, the CFG of every generation so far, the slots and
      addresses of modules whose cfggened is set and of those where it is not, the tables, and the
      state of online patching. */
  datatype State = State(
    threads: map<Tid, Thread>, snaps: map<Tid, nat>, versionSpace: nat, cfgs: seq<Cfg>,
    oldSlots: set<Slot>, newSlots: set<Slot>, oldAddrs: set<Addr>, newAddrs: set<Addr>,
    bary: map<Slot, nat>, tary: map<Addr, TaryEntry>,
    cfggened: bool, compensate: set<Addr>, restored: set<Addr>, phase: Phase)

  /** What a thread does. */
  datatype ThreadStep = EnterSyscall | Escape | LeaveSyscall | ReadBid(slot: Slot) | DropBid

  /** What the runtime does outside gen_cfg(). */
  datatype RuntimeStep =
    | CreateThread(t: Tid, escapes: nat, insyscall: bool) | FreeThread(t: Tid)
    | LoadModule(slots: set<Slot>, addrs: set<Addr>)
    | PatchCall(addr: Addr) | RestoreCall

  /** gen_cfg() up to the point where tables change; while they change; and after that. */
  datatype ScanStep = BeginScan(cfg: Cfg) | ReadEscapes(t: Tid) | Decide | EndScan
  datatype FillStep = FillTary(addr: Addr, activate: bool) | FillBary(slot: Slot) | EndNew | EndTary | EndBary
  datatype EndStep = Compensate(addr: Addr) | EndCompensate | Snapshot(t: Tid) | EndSnapshot

  datatype Action =
    | ThreadDoes(t: Tid, thread: ThreadStep)
    | RuntimeDoes(runtime: RuntimeStep)
    | Scans(scan: ScanStep)
    | Fills(fill: FillStep)
    | Ends(end: EndStep)

  ghost function Init(): State {
    State(map[], map[], 0, [], {}, {}, {}, {}, map[], map[], false, {}, {}, Idle)
  }

  /** The number of the generation whose tables are in place or being filled in; -1 before the first. */
  function Latest(s: State): int {
    |s.cfgs| - 1
  }

  /** What the graph code must deliver: a class for every slot, targets only in loaded modules, and a
      target of the last generation stays one. */
  predicate GoodCfg(s: State, cfg: Cfg) {
    && cfg.calls.Keys == s.oldSlots + s.newSlots
    && cfg.targets.Keys <= s.oldAddrs + s.newAddrs
    && (s.cfgs != [] ==> s.cfgs[|s.cfgs| - 1].targets.Keys <= cfg.targets.Keys)
    && (forall slot :: slot in cfg.calls ==> cfg.calls[slot] < HALF_IDS)
    && (forall addr :: addr in cfg.targets ==> cfg.targets[addr] < HALF_IDS)
  }

  predicate Patched(s: State, addr: Addr) {
    addr in s.restored || s.phase == Patching(addr)
  }

  /** gen_tary() at one address; gen_bary() at one slot. */
  predicate WritesTary(s: State, addr: Addr) {
    match s.phase
    case FillingNew(targets, _) => addr in targets
    case FillingTary(targets) => addr in targets
    case _ => false
  }

  predicate WritesBary(s: State, slot: Slot) {
    match s.phase
    case FillingNew(_, calls) => slot in calls
    case FillingBary(calls) => slot in calls
    case _ => false
  }

  predicate ThreadCan(s: State, t: Tid, step: ThreadStep) {
    t in s.threads &&
      match step
      case EnterSyscall => !s.threads[t].insyscall && s.threads[t].bid.NoBid?
      case Escape => s.threads[t].insyscall
      case LeaveSyscall => s.threads[t].insyscall
      case ReadBid(slot) =>
        !s.threads[t].insyscall && s.threads[t].bid.NoBid? && slot in s.oldSlots && slot in s.bary
      case DropBid => true
  }

  predicate RuntimeCan(s: State, step: RuntimeStep) {
    match step
    case CreateThread(t, _, _) => s.phase.Idle? && t !in s.threads
    case FreeThread(t) => s.phase.Idle? && t in s.threads
    case LoadModule(slots, addrs) =>
      s.phase.Idle? && slots !! s.oldSlots && slots !! s.newSlots && addrs !! s.oldAddrs && addrs !! s.newAddrs
    case PatchCall(addr) => s.phase.Idle? && addr in s.tary
    case RestoreCall => s.phase.Patching?
  }

  predicate ScanCan(s: State, step: ScanStep) {
    match step
    case BeginScan(cfg) => s.phase.Idle? && GoodCfg(s, cfg)
    case ReadEscapes(t) =>
      s.phase.Scanning? && s.phase.reading.NotReading? && t in s.phase.threads && t in s.threads
    case Decide =>
      s.phase.Scanning? && s.phase.reading.Escapes? && s.phase.reading.t in s.threads && s.phase.reading.t in s.snaps
    case EndScan => s.phase.Scanning? && s.phase.threads == {}
  }

  predicate FillCan(s: State, step: FillStep) {
    s.cfgs != [] &&
      match step
      case FillTary(addr, _) => WritesTary(s, addr) && addr in s.tary
      case FillBary(slot) => WritesBary(s, slot)
      case EndNew => s.phase.FillingNew? && s.phase.targets == {} && s.phase.calls == {}
      case EndTary => s.phase.FillingTary? && s.phase.targets == {}
      case EndBary => s.phase.FillingBary? && s.phase.calls == {}
  }

  predicate EndCan(s: State, step: EndStep) {
    match step
    case Compensate(addr) => s.phase.Compensating? && addr in s.compensate && addr in s.tary
    case EndCompensate => s.phase.Compensating? && s.compensate == {}
    case Snapshot(t) => s.phase.Snapshotting? && t in s.phase.threads && t in s.threads
    case EndSnapshot => s.phase.Snapshotting? && s.phase.threads == {}
  }

  predicate Enabled(s: State, a: Action) {
    match a
    case ThreadDoes(t, step) => ThreadCan(s, t, step)
    case RuntimeDoes(step) => RuntimeCan(s, step)
    case Scans(step) => ScanCan(s, step)
    case Fills(step) => FillCan(s, step)
    case Ends(step) => EndCan(s, step)
  }

  function SetThread(s: State, t: Tid, th: Thread): State {
    s.(threads := s.threads[t := th])
  }

  /** The tables start to change, with a version space that has been reset or not. */
  function StartFilling(s: State, cfg: Cfg, versionSpace: nat): State {
    s.(versionSpace := versionSpace, cfgs := s.cfgs + [cfg],
       phase := FillingNew(s.newAddrs * cfg.targets.Keys, s.newSlots))
  }

  /** safe() looks at one thread, whose escape count it has read before. */
  predicate Unsafe(s: State, t: Tid, count: nat)
    requires t in s.threads && t in s.snaps
  {
    !s.threads[t].insyscall && count == s.snaps[t]
  }

  function Decided(s: State): State
    requires ScanCan(s, Decide)
  {
    var Scanning(threads, Escapes(t, count), cfg) := s.phase;
    if !Unsafe(s, t, count) then s.(phase := Scanning(threads - {t}, NotReading, cfg))
    else if s.versionSpace < VERSION_SPACE_MAX then StartFilling(s, cfg, s.versionSpace)
    else s.(phase := Scanning(s.threads.Keys, NotReading, cfg))
  }

  /** gen_tary() keeps an active entry active and may leave an inactive one inactive. */
  function FilledTary(s: State, addr: Addr, activate: bool): State
    requires FillCan(s, FillStep.FillTary(addr, activate))
  {
    var entry := Filled(|s.cfgs| - 1, s.tary[addr].active || activate);
    var rest := if s.phase.FillingNew? then s.phase.(targets := s.phase.targets - {addr})
                else FillingTary(s.phase.targets - {addr});
    s.(tary := s.tary[addr := entry], phase := rest)
  }

  function FilledBary(s: State, slot: Slot): State
    requires FillCan(s, FillStep.FillBary(slot))
  {
    var rest := if s.phase.FillingNew? then s.phase.(calls := s.phase.calls - {slot})
                else FillingBary(s.phase.calls - {slot});
    s.(bary := s.bary[slot := |s.cfgs| - 1], phase := rest)
  }

  function PatchedCall(s: State, addr: Addr): State
    requires RuntimeCan(s, PatchCall(addr))
  {
    if Patched(s, addr) then s
    else if s.cfggened then
      s.(tary := s.tary[addr := s.tary[addr].(active := true)], phase := Patching(addr))
    else s.(compensate := s.compensate + {addr}, phase := Patching(addr))
  }

  function ThreadDone(s: State, t: Tid, step: ThreadStep): State
    requires ThreadCan(s, t, step)
  {
    var th := s.threads[t];
    match step
    case EnterSyscall => SetThread(s, t, th.(insyscall := true))
    case Escape => SetThread(s, t, th.(escapes := th.escapes + 1))
    case LeaveSyscall => SetThread(s, t, th.(insyscall := false))
    case ReadBid(slot) => SetThread(s, t, th.(bid := Bid(slot, s.bary[slot])))
    case DropBid => SetThread(s, t, th.(bid := NoBid))
  }

  function RuntimeDone(s: State, step: RuntimeStep): State
    requires RuntimeCan(s, step)
  {
    match step
    case CreateThread(t, escapes, insyscall) =>
      SetThread(s, t, Thread(escapes, insyscall, NoBid)).(snaps := s.snaps[t := 0])
    case FreeThread(t) => s.(threads := s.threads - {t}, snaps := s.snaps - {t})
    case LoadModule(slots, addrs) =>
      s.(newSlots := s.newSlots + slots, newAddrs := s.newAddrs + addrs,
         tary := s.tary + map addr | addr in addrs :: Blank(false))
    case PatchCall(addr) => PatchedCall(s, addr)
    case RestoreCall => s.(restored := s.restored + {s.phase.addr}, phase := Idle)
  }

  function ScanDone(s: State, step: ScanStep): State
    requires ScanCan(s, step)
  {
    match step
    case BeginScan(cfg) =>
      s.(versionSpace := s.versionSpace + 1, phase := Scanning(s.threads.Keys, NotReading, cfg))
    case ReadEscapes(t) => s.(phase := s.phase.(reading := Escapes(t, s.threads[t].escapes)))
    case Decide => Decided(s)
    case EndScan => StartFilling(s, s.phase.cfg, 0)
  }

  function FillDone(s: State, step: FillStep): State
    requires FillCan(s, step)
  {
    match step
    case FillTary(addr, activate) => FilledTary(s, addr, activate)
    case FillBary(slot) => FilledBary(s, slot)
    case EndNew => s.(phase := FillingTary(s.oldAddrs * s.cfgs[|s.cfgs| - 1].targets.Keys))
    case EndTary => s.(phase := FillingBary(s.oldSlots))
    case EndBary =>
      s.(oldSlots := s.oldSlots + s.newSlots, newSlots := {}, oldAddrs := s.oldAddrs + s.newAddrs, newAddrs := {},
         cfggened := true, phase := if s.cfggened then Snapshotting(s.threads.Keys) else Compensating)
  }

  function EndDone(s: State, step: EndStep): State
    requires EndCan(s, step)
  {
    match step
    case Compensate(addr) =>
      s.(tary := s.tary[addr := s.tary[addr].(active := true)], compensate := s.compensate - {addr})
    case EndCompensate => s.(phase := Snapshotting(s.threads.Keys))
    case Snapshot(t) =>
      s.(snaps := s.snaps[t := s.threads[t].escapes], phase := Snapshotting(s.phase.threads - {t}))
    case EndSnapshot => s.(phase := Idle)
  }

  function Apply(s: State, a: Action): State
    requires Enabled(s, a)
  {
    match a
    case ThreadDoes(t, step) => ThreadDone(s, t, step)
    case RuntimeDoes(step) => RuntimeDone(s, step)
    case Scans(step) => ScanDone(s, step)
    case Fills(step) => FillDone(s, step)
    case Ends(step) => EndDone(s, step)
  }

  // ---------- runs ----------

  /** The state after a run; an action that is not possible where it comes has no effect. */
  ghost function After(actions: seq<Action>): State {
    if actions == [] then Init()
    else
      var s := After(actions[..|actions| - 1]);
      var a := actions[|actions| - 1];
      if Enabled(s, a) then Apply(s, a) else s
  }

  ghost predicate Reachable(s: State) {
    exists actions :: After(actions) == s
  }

  // ---------- the invariant ----------

  /** The entries a generation has still to write. */
  function PendingTary(s: State): set<Addr> {
    match s.phase
    case FillingNew(targets, _) =>
      targets + (if s.cfgs == [] then {} else s.oldAddrs * s.cfgs[|s.cfgs| - 1].targets.Keys)
    case FillingTary(targets) => targets
    case _ => {}
  }

  function PendingBary(s: State): set<Slot> {
    match s.phase
    case FillingNew(_, calls) => calls + s.oldSlots
    case FillingTary(_) => s.oldSlots
    case FillingBary(calls) => calls
    case _ => {}
  }

  predicate Filling(s: State) {
    s.phase.FillingNew? || s.phase.FillingTary? || s.phase.FillingBary?
  }

  ghost predicate Domains(s: State) {
    && s.threads.Keys == s.snaps.Keys
    && s.oldSlots !! s.newSlots && s.oldAddrs !! s.newAddrs
    && s.tary.Keys == s.oldAddrs + s.newAddrs
    && (s.cfgs == [] ==> s.oldSlots == {} && !Filling(s))
    && (s.cfgs != [] ==> s.cfgs[|s.cfgs| - 1].targets.Keys <= if Filling(s) then s.tary.Keys else s.oldAddrs)
    && (s.cfgs != [] ==>
          (if Filling(s) then s.oldSlots + s.newSlots else s.oldSlots) <= s.cfgs[|s.cfgs| - 1].calls.Keys)
    && (s.phase.Scanning? ==> GoodCfg(s, s.phase.cfg) && s.phase.threads <= s.threads.Keys)
    && (s.phase.Snapshotting? ==> s.phase.threads <= s.threads.Keys)
    && (s.phase.Compensating? ==> s.cfggened)
    && (s.phase.FillingNew? ==> s.phase.targets <= s.newAddrs && s.phase.calls <= s.newSlots)
    && (s.phase.FillingTary? ==> s.phase.targets <= s.oldAddrs)
    && (s.phase.FillingNew? || s.phase.FillingTary? ==>
        s.cfgs != [] && s.phase.targets <= s.cfgs[|s.cfgs| - 1].targets.Keys)
    && (s.phase.FillingBary? ==> s.phase.calls <= s.oldSlots)
  }

  ghost predicate Generations(s: State) {
    && (forall g :: 0 <= g < |s.cfgs| ==> Numbered(s.cfgs[g]))
    && (|s.cfgs| >= 2 ==> s.cfgs[|s.cfgs| - 2].targets.Keys <= s.cfgs[|s.cfgs| - 1].targets.Keys)
  }

  /** Fewer classes than half-ids. */
  predicate Numbered(cfg: Cfg) {
    && (forall slot :: slot in cfg.calls ==> cfg.calls[slot] < HALF_IDS)
    && (forall addr :: addr in cfg.targets ==> cfg.targets[addr] < HALF_IDS)
  }

  /** A slot of an old module holds the latest generation, or the one before while it is pending; so does
      a new module's slot once it is written. */
  ghost predicate SlotInv(s: State, slot: Slot) {
    && (slot in PendingBary(s) && slot in s.oldSlots ==>
        slot in s.bary && |s.cfgs| >= 2 && s.bary[slot] == |s.cfgs| - 2 && slot in s.cfgs[|s.cfgs| - 2].calls)
    && (slot !in PendingBary(s) && (slot in s.oldSlots || (Filling(s) && slot in s.newSlots)) ==>
        slot in s.bary && |s.cfgs| >= 1 && s.bary[slot] == |s.cfgs| - 1 && slot in s.cfgs[|s.cfgs| - 1].calls)
  }

  /** An entry has the latest generation, or the one before while it is pending. */
  ghost predicate AddrInv(s: State, addr: Addr) {
    addr in s.tary ==>
      if s.cfgs == [] || addr !in s.cfgs[|s.cfgs| - 1].targets then s.tary[addr].Blank?
      else if addr !in PendingTary(s) then s.tary[addr].Filled? && s.tary[addr].gen == |s.cfgs| - 1
      else if |s.cfgs| >= 2 && addr in s.cfgs[|s.cfgs| - 2].targets then
        s.tary[addr].Filled? && s.tary[addr].gen == |s.cfgs| - 2
      else s.tary[addr].Blank?
  }

  /** How many generations old a BID may be. */
  function Window(s: State): nat {
    if s.phase.Scanning? then s.versionSpace else s.versionSpace + 1
  }

  /** Escaping since the snapshot, or having been found safe, proves a BID fresh. */
  predicate MustBeFresh(s: State, t: Tid)
    requires t in s.threads && t in s.snaps
  {
    match s.phase
    case Idle => s.threads[t].escapes != s.snaps[t]
    case Patching(_) => s.threads[t].escapes != s.snaps[t]
    case Scanning(threads, _, _) => t !in threads || s.threads[t].escapes != s.snaps[t]
    case Snapshotting(threads) => t !in threads && s.threads[t].escapes != s.snaps[t]
    case _ => false
  }

  ghost predicate ThreadInv(s: State, t: Tid) {
    t in s.threads ==>
      && t in s.snaps && s.snaps[t] <= s.threads[t].escapes
      && (s.threads[t].insyscall ==> s.threads[t].bid.NoBid?)
      && (s.threads[t].bid.Bid? ==> BidInv(s, t, s.threads[t].bid))
  }

  ghost predicate BidInv(s: State, t: Tid, b: Held)
    requires b.Bid? && t in s.threads && t in s.snaps
  {
    && b.gen < |s.cfgs| && b.slot in s.cfgs[b.gen].calls
    && |s.cfgs| - 1 - b.gen <= Window(s)
    && (MustBeFresh(s, t) ==> b.gen == |s.cfgs| - 1)
  }

  ghost predicate SpaceInv(s: State) {
    if s.phase.Scanning? then 1 <= s.versionSpace <= VERSION_SPACE_MAX else s.versionSpace < VERSION_SPACE_MAX
  }

  ghost predicate ReadingInv(s: State) {
    s.phase.Scanning? && s.phase.reading.Escapes? ==>
      var t := s.phase.reading.t;
      t in s.phase.threads && t in s.threads && t in s.snaps
      && s.snaps[t] <= s.phase.reading.count <= s.threads[t].escapes
  }

  /** A restored call site's return address is active, or waits in patch_compensate. */
  ghost predicate PatchInv(s: State, addr: Addr) {
    && (Patched(s, addr) ==> addr in s.tary && (s.tary[addr].active || addr in s.compensate))
    && (Patched(s, addr) && !s.cfggened ==> addr in s.compensate)
    && (addr in s.compensate ==> addr in s.tary && (!s.cfggened || s.phase.Compensating?))
  }

  ghost predicate Inv(s: State) {
    && Domains(s) && Generations(s) && SpaceInv(s) && ReadingInv(s)
    && (forall slot :: SlotInv(s, slot)) && (forall addr :: AddrInv(s, addr))
    && (forall t :: ThreadInv(s, t)) && (forall addr :: PatchInv(s, addr))
  }

  lemma InitInv()
    ensures Inv(Init())
  {
  }

  // ---------- every action keeps it ----------

  lemma DomainsStart(s: State, v: nat)
    requires Domains(s) && s.phase.Scanning?
    ensures Domains(StartFilling(s, s.phase.cfg, v))
  {
  }

  lemma DomainsInThread(s: State, who: Tid, step: ThreadStep)
    requires Domains(s) && ThreadCan(s, who, step)
    ensures Domains(ThreadDone(s, who, step))
  {
  }

  lemma DomainsInRuntime(s: State, step: RuntimeStep)
    requires Domains(s) && RuntimeCan(s, step)
    ensures Domains(RuntimeDone(s, step))
  {
  }

  lemma DomainsInScan(s: State, step: ScanStep)
    requires Domains(s) && ScanCan(s, step)
    ensures Domains(ScanDone(s, step))
  {
    hide StartFilling;
    if step.EndScan? {
      DomainsStart(s, 0);
    } else if step.Decide? {
      DomainsStart(s, s.versionSpace);
    }
  }

  lemma DomainsInFill(s: State, step: FillStep)
    requires Domains(s) && FillCan(s, step)
    ensures Domains(FillDone(s, step))
  {
  }

  lemma DomainsInEnd(s: State, step: EndStep)
    requires Domains(s) && EndCan(s, step)
    ensures Domains(EndDone(s, step))
  {
  }

  lemma DomainsKept(s: State, a: Action)
    requires Domains(s) && Enabled(s, a)
    ensures Domains(Apply(s, a))
  {
    match a
    case ThreadDoes(_, _) => DomainsInThread(s, a.t, a.thread);
    case RuntimeDoes(_) => DomainsInRuntime(s, a.runtime);
    case Scans(_) => DomainsInScan(s, a.scan);
    case Fills(_) => DomainsInFill(s, a.fill);
    case Ends(_) => DomainsInEnd(s, a.end);
  }

  lemma GenerationsStart(s: State, v: nat)
    requires Domains(s) && Generations(s) && s.phase.Scanning?
    ensures Generations(StartFilling(s, s.phase.cfg, v))
  {
  }

  lemma GenerationsInThread(s: State, who: Tid, step: ThreadStep)
    requires Domains(s) && Generations(s) && ThreadCan(s, who, step)
    ensures Generations(ThreadDone(s, who, step))
  {
  }

  lemma GenerationsInRuntime(s: State, step: RuntimeStep)
    requires Domains(s) && Generations(s) && RuntimeCan(s, step)
    ensures Generations(RuntimeDone(s, step))
  {
  }

  lemma GenerationsInScan(s: State, step: ScanStep)
    requires Domains(s) && Generations(s) && ScanCan(s, step)
    ensures Generations(ScanDone(s, step))
  {
    if step.EndScan? {
      GenerationsStart(s, 0);
    } else if step.Decide? {
      GenerationsStart(s, s.versionSpace);
    }
  }

  lemma GenerationsInFill(s: State, step: FillStep)
    requires Domains(s) && Generations(s) && FillCan(s, step)
    ensures Generations(FillDone(s, step))
  {
  }

  lemma GenerationsInEnd(s: State, step: EndStep)
    requires Domains(s) && Generations(s) && EndCan(s, step)
    ensures Generations(EndDone(s, step))
  {
  }

  lemma GenerationsKept(s: State, a: Action)
    requires Domains(s) && Generations(s) && Enabled(s, a)
    ensures Generations(Apply(s, a))
  {
    match a
    case ThreadDoes(_, _) => GenerationsInThread(s, a.t, a.thread);
    case RuntimeDoes(_) => GenerationsInRuntime(s, a.runtime);
    case Scans(_) => GenerationsInScan(s, a.scan);
    case Fills(_) => GenerationsInFill(s, a.fill);
    case Ends(_) => GenerationsInEnd(s, a.end);
  }

  lemma SlotStart(s: State, v: nat, slot: Slot)
    requires Domains(s) && SlotInv(s, slot) && s.phase.Scanning?
    ensures SlotInv(StartFilling(s, s.phase.cfg, v), slot)
  {
  }

  lemma SlotInThread(s: State, who: Tid, step: ThreadStep, slot: Slot)
    requires Domains(s) && SlotInv(s, slot) && ThreadCan(s, who, step)
    ensures SlotInv(ThreadDone(s, who, step), slot)
  {
  }

  lemma SlotInRuntime(s: State, step: RuntimeStep, slot: Slot)
    requires Domains(s) && SlotInv(s, slot) && RuntimeCan(s, step)
    ensures SlotInv(RuntimeDone(s, step), slot)
  {
  }

  lemma SlotInScan(s: State, step: ScanStep, slot: Slot)
    requires Domains(s) && SlotInv(s, slot) && ScanCan(s, step)
    ensures SlotInv(ScanDone(s, step), slot)
  {
    if step.EndScan? {
      SlotStart(s, 0, slot);
    } else if step.Decide? {
      SlotStart(s, s.versionSpace, slot);
    }
  }

  lemma SlotInFill(s: State, step: FillStep, slot: Slot)
    requires Domains(s) && SlotInv(s, slot) && FillCan(s, step)
    ensures SlotInv(FillDone(s, step), slot)
  {
  }

  lemma SlotInEnd(s: State, step: EndStep, slot: Slot)
    requires Domains(s) && SlotInv(s, slot) && EndCan(s, step)
    ensures SlotInv(EndDone(s, step), slot)
  {
  }

  lemma SlotKept(s: State, a: Action, slot: Slot)
    requires Domains(s) && SlotInv(s, slot) && Enabled(s, a)
    ensures SlotInv(Apply(s, a), slot)
  {
    match a
    case ThreadDoes(_, _) => SlotInThread(s, a.t, a.thread, slot);
    case RuntimeDoes(_) => SlotInRuntime(s, a.runtime, slot);
    case Scans(_) => SlotInScan(s, a.scan, slot);
    case Fills(_) => SlotInFill(s, a.fill, slot);
    case Ends(_) => SlotInEnd(s, a.end, slot);
  }

  lemma AddrStart(s: State, v: nat, addr: Addr)
    requires Domains(s) && Generations(s) && AddrInv(s, addr) && s.phase.Scanning?
    ensures AddrInv(StartFilling(s, s.phase.cfg, v), addr)
  {
  }

  lemma AddrInThread(s: State, who: Tid, step: ThreadStep, addr: Addr)
    requires Domains(s) && Generations(s) && AddrInv(s, addr) && ThreadCan(s, who, step)
    ensures AddrInv(ThreadDone(s, who, step), addr)
  {
  }

  lemma AddrInRuntime(s: State, step: RuntimeStep, addr: Addr)
    requires Domains(s) && Generations(s) && AddrInv(s, addr) && RuntimeCan(s, step)
    ensures AddrInv(RuntimeDone(s, step), addr)
  {
  }

  lemma AddrInScan(s: State, step: ScanStep, addr: Addr)
    requires Domains(s) && Generations(s) && AddrInv(s, addr) && ScanCan(s, step)
    ensures AddrInv(ScanDone(s, step), addr)
  {
    if step.EndScan? {
      AddrStart(s, 0, addr);
    } else if step.Decide? {
      AddrStart(s, s.versionSpace, addr);
    }
  }

  lemma AddrInFill(s: State, step: FillStep, addr: Addr)
    requires Domains(s) && Generations(s) && AddrInv(s, addr) && FillCan(s, step)
    ensures AddrInv(FillDone(s, step), addr)
  {
  }

  lemma AddrInEnd(s: State, step: EndStep, addr: Addr)
    requires Domains(s) && Generations(s) && AddrInv(s, addr) && EndCan(s, step)
    ensures AddrInv(EndDone(s, step), addr)
  {
  }

  lemma AddrKept(s: State, a: Action, addr: Addr)
    requires Domains(s) && Generations(s) && AddrInv(s, addr) && Enabled(s, a)
    ensures AddrInv(Apply(s, a), addr)
  {
    match a
    case ThreadDoes(_, _) => AddrInThread(s, a.t, a.thread, addr);
    case RuntimeDoes(_) => AddrInRuntime(s, a.runtime, addr);
    case Scans(_) => AddrInScan(s, a.scan, addr);
    case Fills(_) => AddrInFill(s, a.fill, addr);
    case Ends(_) => AddrInEnd(s, a.end, addr);
  }

  lemma ThreadStart(s: State, v: nat, t: Tid)
    requires Domains(s) && SpaceInv(s) && ReadingInv(s) && ThreadInv(s, t) && (forall slot :: SlotInv(s, slot))
    requires s.phase.Scanning?
    requires v == s.versionSpace || (v == 0 && s.phase.threads == {})
    ensures ThreadInv(StartFilling(s, s.phase.cfg, v), t)
  {
  }

  lemma ThreadInThread(s: State, who: Tid, step: ThreadStep, t: Tid)
    requires Domains(s) && SpaceInv(s) && ReadingInv(s) && ThreadInv(s, t) && (forall slot :: SlotInv(s, slot))
    requires ThreadCan(s, who, step)
    ensures ThreadInv(ThreadDone(s, who, step), t)
  {
    if step.ReadBid? {
      assert SlotInv(s, step.slot);
    }
  }

  lemma ThreadInRuntime(s: State, step: RuntimeStep, t: Tid)
    requires Domains(s) && SpaceInv(s) && ReadingInv(s) && ThreadInv(s, t) && (forall slot :: SlotInv(s, slot))
    requires RuntimeCan(s, step)
    ensures ThreadInv(RuntimeDone(s, step), t)
  {
  }

  lemma ThreadInScan(s: State, step: ScanStep, t: Tid)
    requires Domains(s) && SpaceInv(s) && ReadingInv(s) && ThreadInv(s, t) && (forall slot :: SlotInv(s, slot))
    requires ScanCan(s, step)
    ensures ThreadInv(ScanDone(s, step), t)
  {
    if step.EndScan? {
      ThreadStart(s, 0, t);
    } else if step.Decide? {
      ThreadStart(s, s.versionSpace, t);
    }
  }

  lemma ThreadInFill(s: State, step: FillStep, t: Tid)
    requires Domains(s) && SpaceInv(s) && ReadingInv(s) && ThreadInv(s, t) && (forall slot :: SlotInv(s, slot))
    requires FillCan(s, step)
    ensures ThreadInv(FillDone(s, step), t)
  {
  }

  lemma ThreadInEnd(s: State, step: EndStep, t: Tid)
    requires Domains(s) && SpaceInv(s) && ReadingInv(s) && ThreadInv(s, t) && (forall slot :: SlotInv(s, slot))
    requires EndCan(s, step)
    ensures ThreadInv(EndDone(s, step), t)
  {
  }

  lemma ThreadKept(s: State, a: Action, t: Tid)
    requires Domains(s) && SpaceInv(s) && ReadingInv(s) && ThreadInv(s, t) && (forall slot :: SlotInv(s, slot))
    requires Enabled(s, a)
    ensures ThreadInv(Apply(s, a), t)
  {
    match a
    case ThreadDoes(_, _) => ThreadInThread(s, a.t, a.thread, t);
    case RuntimeDoes(_) => ThreadInRuntime(s, a.runtime, t);
    case Scans(_) => ThreadInScan(s, a.scan, t);
    case Fills(_) => ThreadInFill(s, a.fill, t);
    case Ends(_) => ThreadInEnd(s, a.end, t);
  }

  lemma PatchStart(s: State, v: nat, addr: Addr)
    requires Domains(s) && PatchInv(s, addr) && s.phase.Scanning?
    ensures PatchInv(StartFilling(s, s.phase.cfg, v), addr)
  {
  }

  lemma PatchInThread(s: State, who: Tid, step: ThreadStep, addr: Addr)
    requires Domains(s) && PatchInv(s, addr) && ThreadCan(s, who, step)
    ensures PatchInv(ThreadDone(s, who, step), addr)
  {
  }

  lemma PatchInRuntime(s: State, step: RuntimeStep, addr: Addr)
    requires Domains(s) && PatchInv(s, addr) && RuntimeCan(s, step)
    ensures PatchInv(RuntimeDone(s, step), addr)
  {
  }

  lemma PatchInScan(s: State, step: ScanStep, addr: Addr)
    requires Domains(s) && PatchInv(s, addr) && ScanCan(s, step)
    ensures PatchInv(ScanDone(s, step), addr)
  {
    if step.EndScan? {
      PatchStart(s, 0, addr);
    } else if step.Decide? {
      PatchStart(s, s.versionSpace, addr);
    }
  }

  lemma PatchInFill(s: State, step: FillStep, addr: Addr)
    requires Domains(s) && PatchInv(s, addr) && FillCan(s, step)
    ensures PatchInv(FillDone(s, step), addr)
  {
  }

  lemma PatchInEnd(s: State, step: EndStep, addr: Addr)
    requires Domains(s) && PatchInv(s, addr) && EndCan(s, step)
    ensures PatchInv(EndDone(s, step), addr)
  {
  }

  lemma PatchKept(s: State, a: Action, addr: Addr)
    requires Domains(s) && PatchInv(s, addr) && Enabled(s, a)
    ensures PatchInv(Apply(s, a), addr)
  {
    match a
    case ThreadDoes(_, _) => PatchInThread(s, a.t, a.thread, addr);
    case RuntimeDoes(_) => PatchInRuntime(s, a.runtime, addr);
    case Scans(_) => PatchInScan(s, a.scan, addr);
    case Fills(_) => PatchInFill(s, a.fill, addr);
    case Ends(_) => PatchInEnd(s, a.end, addr);
  }

  lemma CountersInThread(s: State, who: Tid, step: ThreadStep)
    requires SpaceInv(s) && ReadingInv(s) && ThreadCan(s, who, step)
    ensures SpaceInv(ThreadDone(s, who, step)) && ReadingInv(ThreadDone(s, who, step))
  {
  }

  lemma CountersInRuntime(s: State, step: RuntimeStep)
    requires SpaceInv(s) && ReadingInv(s) && RuntimeCan(s, step)
    ensures SpaceInv(RuntimeDone(s, step)) && ReadingInv(RuntimeDone(s, step))
  {
  }

  lemma CountersInScan(s: State, step: ScanStep)
    requires SpaceInv(s) && ReadingInv(s) && ScanCan(s, step)
    requires Domains(s) && forall t :: ThreadInv(s, t)
    ensures SpaceInv(ScanDone(s, step)) && ReadingInv(ScanDone(s, step))
  {
    if step.ReadEscapes? {
      assert ThreadInv(s, step.t);
    }
  }

  lemma CountersInFill(s: State, step: FillStep)
    requires SpaceInv(s) && ReadingInv(s) && FillCan(s, step)
    ensures SpaceInv(FillDone(s, step)) && ReadingInv(FillDone(s, step))
  {
  }

  lemma CountersInEnd(s: State, step: EndStep)
    requires SpaceInv(s) && ReadingInv(s) && EndCan(s, step)
    ensures SpaceInv(EndDone(s, step)) && ReadingInv(EndDone(s, step))
  {
  }

  lemma CountersKept(s: State, a: Action)
    requires Domains(s) && SpaceInv(s) && ReadingInv(s) && Enabled(s, a)
    requires forall t :: ThreadInv(s, t)
    ensures SpaceInv(Apply(s, a)) && ReadingInv(Apply(s, a))
  {
    match a
    case ThreadDoes(_, _) => CountersInThread(s, a.t, a.thread);
    case RuntimeDoes(_) => CountersInRuntime(s, a.runtime);
    case Scans(_) => CountersInScan(s, a.scan);
    case Fills(_) => CountersInFill(s, a.fill);
    case Ends(_) => CountersInEnd(s, a.end);
  }

  lemma InvKept(s: State, a: Action)
    requires Inv(s) && Enabled(s, a)
    ensures Inv(Apply(s, a))
  {
    DomainsKept(s, a);
    GenerationsKept(s, a);
    CountersKept(s, a);
    forall slot ensures SlotInv(Apply(s, a), slot) {
      SlotKept(s, a, slot);
    }
    forall addr ensures AddrInv(Apply(s, a), addr) && PatchInv(Apply(s, a), addr) {
      assert AddrInv(s, addr) && PatchInv(s, addr);
      AddrKept(s, a, addr);
      PatchKept(s, a, addr);
    }
    forall t ensures ThreadInv(Apply(s, a), t) {
      ThreadKept(s, a, t);
    }
  }

  /** It holds in every state of every run. */
  lemma {:induction false} ReachableInv(actions: seq<Action>)
    ensures Inv(After(actions))
  {
    if actions == [] {
      InitInv();
    } else {
      var s, a := After(actions[..|actions| - 1]), actions[|actions| - 1];
      ReachableInv(actions[..|actions| - 1]);
      if Enabled(s, a) {
        InvKept(s, a);
      }
    }
  }
}
