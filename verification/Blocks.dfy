/** Safety of blocks over whole runs: row, kernel set and DROP rule stay together. */
module Blocks {
  import opened Firewall
  import opened IpsetManager
  import opened Config
  import opened Strikes

  // ---------- commands that only add ----------

  ghost predicate Guarded(k: Kernel, name: string) {
    name in k.sets && RuleCount(k, name) == 1
  }

  /** Nothing leaves a set, capacities stay, no guarded set loses its rule, no set gets a second one. */
  ghost predicate Extends(k: Kernel, k': Kernel) {
    && (forall name :: name in k.sets ==>
          name in k'.sets && Members(k, name) <= Members(k', name) && k'.sets[name].maxElem == k.sets[name].maxElem)
    && (forall name :: Guarded(k, name) ==> Guarded(k', name))
    && (forall name :: RuleCount(k, name) <= 1 ==> RuleCount(k', name) <= 1)
  }

  lemma ExtendsTransitive(k: Kernel, k': Kernel, k'': Kernel)
    requires Extends(k, k') && Extends(k', k'')
    ensures Extends(k, k'')
  {
  }

  lemma CreateExtends(k: Kernel, name: string, maxElem: nat, ok: bool)
    ensures Extends(k, Create(k, name, maxElem, ok).0)
    ensures Create(k, name, maxElem, ok).1 ==> name in Create(k, name, maxElem, ok).0.sets
  {
  }

  lemma AddExtends(k: Kernel, name: string, ip: string, ok: bool)
    ensures Extends(k, Add(k, name, ip, ok).0)
    ensures Add(k, name, ip, ok).1 ==> ip in Members(Add(k, name, ip, ok).0, name)
  {
  }

  lemma InstallExtends(k: Kernel, name: string, ok: bool)
    ensures Extends(k, InstallRule(k, name, ok).0)
    ensures InstallRule(k, name, ok).1 && RuleCount(k, name) <= 1 && name in k.sets
            ==> Guarded(InstallRule(k, name, ok).0, name)
  {
    var k' := InstallRule(k, name, ok).0;
    forall other ensures Guarded(k, other) ==> Guarded(k', other)
    ensures RuleCount(k, other) <= 1 ==> RuleCount(k', other) <= 1 {
      InstallRuleCounts(k, name, ok, other);
    }
    InstallRuleCounts(k, name, ok, name);
    assert name in k.rules <==> name in multiset(k.rules);
  }

  lemma InstallTwoExtends(k: Kernel, a: string, b: string, oks: seq<bool>)
    requires |oks| == 2
    ensures var (k', done) := InstallRules(k, [a, b], oks);
            && Extends(k, k')
            && (done && a in k.sets && b in k.sets && RuleCount(k, a) <= 1 && RuleCount(k, b) <= 1
                ==> Guarded(k', a) && Guarded(k', b))
  {
    assert [a, b][1..] == [b] && oks[1..] == [oks[1]];
    var k1 := InstallRule(k, a, oks[0]).0;
    InstallExtends(k, a, oks[0]);
    OneRule(k1, b, oks[1]);
    InstallExtends(k1, b, oks[1]);
    ExtendsTransitive(k, k1, InstallRule(k1, b, oks[1]).0);
  }

  /** The pool's sets and the permanent set exist, each with its one rule. */
  ghost predicate PoolGuarded(k: Kernel, p: Pool) {
    Guarded(k, PERMANENT) && forall i :: 0 <= i < |p.temps| ==> Guarded(k, p.temps[i])
  }

  ghost predicate SingleRules(k: Kernel) {
    forall name :: RuleCount(k, name) <= 1
  }

  lemma AvailableExtends(k: Kernel, p: Pool, f: AllocFaults)
    requires PoolOk(p)
    ensures var (k', p', name) := AvailableSpec(k, p, f);
            && Extends(k, k')
            && (PoolGuarded(k, p) && SingleRules(k) && f.rule ==> PoolGuarded(k', p'))
  {
    var name := TempName(|p.temps|);
    var (k1, created) := Create(k, name, MAX_TEMPORARY, f.create);
    CreateExtends(k, name, MAX_TEMPORARY, f.create);
    InstallExtends(k1, name, f.rule);
    ExtendsTransitive(k, k1, InstallRule(k1, name, f.rule).0);
  }

  lemma InitializeExtends(k: Kernel, f: InitFaults)
    ensures var (k', p) := InitializeSpec(k, f);
            Extends(k, k') && (p.Some? && SingleRules(k) ==> PoolGuarded(k', p.value))
  {
    var k1 := Create(k, PERMANENT, MAX_FIXED, f.permanent).0;
    var k2 := Create(k1, WHITELIST, MAX_FIXED, f.whitelist).0;
    var k3 := Create(k2, SEARCH_ENGINES, MAX_FIXED, f.searchEngines).0;
    var k4 := Create(k3, TempName(0), MAX_TEMPORARY, f.temporary).0;
    CreateExtends(k, PERMANENT, MAX_FIXED, f.permanent);
    CreateExtends(k1, WHITELIST, MAX_FIXED, f.whitelist);
    CreateExtends(k2, SEARCH_ENGINES, MAX_FIXED, f.searchEngines);
    CreateExtends(k3, TempName(0), MAX_TEMPORARY, f.temporary);
    InstallTwoExtends(k4, PERMANENT, TempName(0), [f.permanentRule, f.temporaryRule]);
    ExtendsTransitive(k, k1, k2);
    ExtendsTransitive(k, k2, k3);
    ExtendsTransitive(k, k3, k4);
    ExtendsTransitive(k, k4, InstallRules(k4, [PERMANENT, TempName(0)], [f.permanentRule, f.temporaryRule]).0);
  }

  ghost predicate RulesInstall(faults: seq<LineFaults>) {
    forall i :: 0 <= i < |faults| ==> faults[i].alloc.rule
  }

  lemma {:induction false} BlacklistExtends(k: Kernel, p: Pool, lines: seq<BlacklistLine>, faults: seq<LineFaults>)
    requires PoolOk(p) && |lines| == |faults|
    ensures var (k', p') := BlacklistSpec(k, p, lines, faults);
            && Extends(k, k')
            && (PoolGuarded(k, p) && SingleRules(k) && RulesInstall(faults) ==> PoolGuarded(k', p'))
    decreases |lines|
  {
    if lines != [] {
      var n := |lines| - 1;
      BlacklistExtends(k, p, lines[..n], faults[..n]);
      var (k1, p1) := BlacklistSpec(k, p, lines[..n], faults[..n]);
      LineExtends(k1, p1, lines[n], faults[n]);
      ExtendsTransitive(k, k1, LoadLineSpec(k1, p1, lines[n], faults[n]).0);
    }
  }

  lemma LineExtends(k: Kernel, p: Pool, line: BlacklistLine, f: LineFaults)
    requires PoolOk(p)
    ensures var (k', p') := LoadLineSpec(k, p, line, f);
            && Extends(k, k')
            && (PoolGuarded(k, p) && SingleRules(k) && f.alloc.rule ==> PoolGuarded(k', p'))
  {
    if line.Entry? {
      AvailableExtends(k, p, f.alloc);
      var (k1, p1, name) := if line.lockout == 0 then (k, p, PERMANENT) else AvailableSpec(k, p, f.alloc);
      AddExtends(k1, name, line.ip, f.add);
      ExtendsTransitive(k, k1, Add(k1, name, line.ip, f.add).0);
    }
  }

  // ---------- blocks ----------

  /** A blocked address is in the set its row names; the row has no end exactly when that is the permanent set. */
  ghost predicate RowOk(k: Kernel, ip: string, row: BlockRow) {
    && ip in Members(k, row.ipsetName)
    && (row.lockoutExpires.None? <==> row.ipsetName == PERMANENT)
  }

  ghost predicate BlocksOk(s: State) {
    forall ip :: ip in s.db.blocked ==> RowOk(s.kernel, ip, s.db.blocked[ip])
  }

  /** One DROP rule for every set that a row names, and for every set a running daemon may still use. */
  ghost predicate RulesOk(s: State) {
    && SingleRules(s.kernel)
    && (forall ip :: ip in s.db.blocked ==> Guarded(s.kernel, s.db.blocked[ip].ipsetName))
    && (s.up ==> PoolGuarded(s.kernel, s.pool))
  }

  /** No rule insertion fails during the event; start-up checks its own. */
  ghost predicate RulesWork(e: Event) {
    match e
    case Failure(_, _, _, _, _, f) => f.alloc.rule
    case Restart(_, _, _, _, faults) => RulesInstall(faults)
    case _ => true
  }

  lemma BlockKeeps(s: State, ip: string, domain: string, now: int, f: BlockFaults)
    requires StateOk(s) && BlocksOk(s)
    ensures BlocksOk(BlockSpec(s, ip, domain, now, f))
    ensures Extends(s.kernel, BlockSpec(s, ip, domain, now, f).kernel)
    ensures s.up && RulesOk(s) && f.alloc.rule ==> RulesOk(BlockSpec(s, ip, domain, now, f))
  {
    var s' := BlockSpec(s, ip, domain, now, f);
    var (k1, pool, name) := BlockTarget(s, domain, f);
    AvailableExtends(s.kernel, s.pool, f.alloc);
    AddExtends(k1, name, ip, f.add);
    ExtendsTransitive(s.kernel, k1, s'.kernel);
    TargetNames(s, domain, f);
    forall other | other in s.db.blocked ensures RowOk(s'.kernel, other, s.db.blocked[other]) {
      assert RowOk(s.kernel, other, s.db.blocked[other]);
    }
  }

  lemma TargetNames(s: State, domain: string, f: BlockFaults)
    requires PoolOk(s.pool)
    ensures var (k, pool, name) := BlockTarget(s, domain, f);
            && (BlockLockout(s.cfg, domain) == 0 <==> name == PERMANENT)
            && (BlockLockout(s.cfg, domain) != 0 ==> name == pool.temps[pool.next])
  {
    var (k, pool, name) := BlockTarget(s, domain, f);
    if BlockLockout(s.cfg, domain) != 0 {
      NamesDistinct(pool.next, pool.next);
      assert pool.temps[pool.next] == TempName(pool.next);
    }
  }

  /** Releasing takes no address from a set its remaining row names, and none from the permanent set. */
  lemma ReleaseKeeps(k: Kernel, blocked: map<string, BlockRow>, now: int, delOk: set<string>)
    requires forall ip :: ip in blocked ==> RowOk(k, ip, blocked[ip])
    ensures var k' := ReleasedKernel(k, blocked, Released(blocked, now) * delOk);
            && (forall ip :: ip in blocked && ip !in Released(blocked, now) ==> RowOk(k', ip, blocked[ip]))
            && Members(k', PERMANENT) == Members(k, PERMANENT)
            && k'.rules == k.rules && k'.sets.Keys == k.sets.Keys
            && (forall name :: name in k.sets ==> k'.sets[name].maxElem == k.sets[name].maxElem)
  {
    var gone := Released(blocked, now) * delOk;
    var k' := ReleasedKernel(k, blocked, gone);
    if PERMANENT in k.sets {
      forall ip | ip in gone ensures blocked[ip].ipsetName != PERMANENT {
        assert RowOk(k, ip, blocked[ip]);
      }
      assert k'.sets[PERMANENT].members == k.sets[PERMANENT].members;
    }
    forall ip | ip in blocked && ip !in Released(blocked, now) ensures RowOk(k', ip, blocked[ip]) {
      assert RowOk(k, ip, blocked[ip]);
    }
  }

  lemma CleanupKeeps(s: State, now: int, delOk: set<string>)
    requires StateOk(s) && BlocksOk(s)
    ensures BlocksOk(CleanupSpec(s, now, delOk))
    ensures RulesOk(s) ==> RulesOk(CleanupSpec(s, now, delOk))
    ensures Members(s.kernel, PERMANENT) <= Members(CleanupSpec(s, now, delOk).kernel, PERMANENT)
  {
    ReleaseKeeps(s.kernel, s.db.blocked, now, delOk);
    var s' := CleanupSpec(s, now, delOk);
    forall name
      ensures RuleCount(s'.kernel, name) == RuleCount(s.kernel, name)
              && (Guarded(s.kernel, name) ==> Guarded(s'.kernel, name))
    {
    }
  }

  lemma RestartExtends(s: State, e: Event)
    requires StateOk(s) && e.Restart? && EventOk(e)
    ensures Extends(s.kernel, Step(s, e).kernel) && Step(s, e).db == s.db
    ensures SingleRules(s.kernel) && RulesWork(e) && Step(s, e).up ==> PoolGuarded(Step(s, e).kernel, Step(s, e).pool)
  {
    InitializeExtends(s.kernel, e.init);
    var (k1, pool) := InitializeSpec(s.kernel, e.init);
    if pool.Some? {
      BlacklistExtends(k1, pool.value, e.lines, e.faults);
      ExtendsTransitive(s.kernel, k1, Step(s, e).kernel);
    }
  }

  lemma RestartKeeps(s: State, e: Event)
    requires StateOk(s) && BlocksOk(s) && e.Restart? && EventOk(e)
    ensures BlocksOk(Step(s, e)) && Extends(s.kernel, Step(s, e).kernel)
    ensures RulesOk(s) && RulesWork(e) ==> RulesOk(Step(s, e))
  {
    var s' := Step(s, e);
    RestartExtends(s, e);
    forall ip | ip in s.db.blocked ensures RowOk(s'.kernel, ip, s.db.blocked[ip]) {
      assert RowOk(s.kernel, ip, s.db.blocked[ip]);
    }
  }

  /** Every step keeps the blocks, and, when rules can be inserted, their rules; nothing leaves the permanent set. */
  lemma StepKeepsBlocks(s: State, e: Event)
    requires StateOk(s) && EventOk(e) && BlocksOk(s)
    ensures BlocksOk(Step(s, e))
    ensures RulesOk(s) && RulesWork(e) ==> RulesOk(Step(s, e))
    ensures Members(s.kernel, PERMANENT) <= Members(Step(s, e).kernel, PERMANENT)
  {
    match e
    case Failure(ip, domain, reason, now, blockNow, f) =>
      var s1 := CountedSpec(s, ip, domain, reason, now);
      CountedOk(s, ip, domain, reason, now);
      assert s1.db.blocked == s.db.blocked && s1.kernel == s.kernel && s1.pool == s.pool;
      BlockKeeps(s1, ip, domain, blockNow, f);
    case Success(_, _) =>
    case Cleanup(now, delOk) => CleanupKeeps(s, now, delOk);
    case Restart(_, _, _, _, _) => RestartKeeps(s, e);
  }

  /** An installation without blocks and without a running daemon, each set behind one rule at most. */
  lemma StartKeeps(s: State)
    requires s.db.blocked == map[] && !s.up && SingleRules(s.kernel)
    ensures BlocksOk(s) && RulesOk(s)
  {
  }

  ghost predicate AllRulesWork(events: seq<Event>) {
    forall i :: 0 <= i < |events| ==> RulesWork(events[i])
  }

  /** Permanent means permanent, over any run: rows are endless exactly in that set, and it never shrinks. */
  lemma {:induction false} RunKeepsBlocks(s: State, events: seq<Event>)
    requires StateOk(s) && EventsOk(events) && BlocksOk(s)
    ensures BlocksOk(Run(s, events))
    ensures RulesOk(s) && AllRulesWork(events) ==> RulesOk(Run(s, events))
    ensures Members(s.kernel, PERMANENT) <= Members(Run(s, events).kernel, PERMANENT)
    decreases |events|
  {
    if events != [] {
      var n := |events| - 1;
      RunKeepsBlocks(s, events[..n]);
      StepKeepsBlocks(Run(s, events[..n]), events[n]);
    }
  }

  /** The event is a cleanup that runs strictly after the end of the row. */
  predicate ReleasesRow(s: State, e: Event, ip: string) {
    && e.Cleanup? && s.up && ip in s.db.blocked
    && s.db.blocked[ip].lockoutExpires.Some? && s.db.blocked[ip].lockoutExpires.value < e.now
  }

  /** A row is gone after a step exactly when that step is such a cleanup. */
  lemma RowStaysIff(s: State, e: Event, ip: string)
    requires StateOk(s) && EventOk(e) && ip in s.db.blocked
    ensures ip in Step(s, e).db.blocked <==> !ReleasesRow(s, e, ip)
  {
  }

  /** No event of the run releases the address's row. */
  ghost predicate NeverReleased(s: State, events: seq<Event>, ip: string)
    requires StateOk(s) && EventsOk(events)
    decreases |events|
  {
    events == [] ||
      var n := |events| - 1;
      NeverReleased(s, events[..n], ip) && !ReleasesRow(Run(s, events[..n]), events[n], ip)
  }

  lemma {:induction false} RowStays(s: State, events: seq<Event>, ip: string)
    requires StateOk(s) && EventsOk(events) && ip in s.db.blocked && NeverReleased(s, events, ip)
    ensures ip in Run(s, events).db.blocked
    decreases |events|
  {
    if events != [] {
      var n := |events| - 1;
      RowStays(s, events[..n], ip);
      RowStaysIff(Run(s, events[..n]), events[n], ip);
    }
  }

  // ---------- which sets have their rule ----------

  /**
   An allocation opens a set: the size query works and finds the last set of the
   pool full, and the creation works on a set that is new or has our capacity.
   */
  predicate OpensSet(k: Kernel, p: Pool, f: AllocFaults)
    requires PoolOk(p)
  {
    var current, name := p.temps[p.next], TempName(|p.temps|);
    && p.next + 1 == |p.temps|
    && f.size && current in k.sets && |k.sets[current].members| >= MAX_TEMPORARY
    && f.create && (name in k.sets ==> k.sets[name].maxElem == MAX_TEMPORARY)
  }

  /** The rule that an allocation inserts: it opens a set, and the insertion works. */
  function AllocRules(k: Kernel, p: Pool, f: AllocFaults): set<string>
    requires PoolOk(p)
  {
    if OpensSet(k, p, f) && f.rule then {TempName(|p.temps|)} else {}
  }

  function LineRules(k: Kernel, p: Pool, line: BlacklistLine, f: LineFaults): set<string>
    requires PoolOk(p)
  {
    if line.Entry? && line.lockout != 0 then AllocRules(k, p, f.alloc) else {}
  }

  function BlacklistRules(k: Kernel, p: Pool, lines: seq<BlacklistLine>, faults: seq<LineFaults>): set<string>
    requires PoolOk(p) && |lines| == |faults|
    decreases |lines|
  {
    if lines == [] then {} else
      var n := |lines| - 1;
      var (k1, p1) := BlacklistSpec(k, p, lines[..n], faults[..n]);
      BlacklistRules(k, p, lines[..n], faults[..n]) + LineRules(k1, p1, lines[n], faults[n])
  }

  /** Start-up inserts the permanent set's rule first, and the first temporary set's only after that. */
  function InitRules(k: Kernel, f: InitFaults): (names: set<string>)
    ensures names <= {PERMANENT, TempName(0)}
  {
    var (k1, ok1) := Create(k, PERMANENT, MAX_FIXED, f.permanent);
    var (k2, ok2) := Create(k1, WHITELIST, MAX_FIXED, f.whitelist);
    var (k3, ok3) := Create(k2, SEARCH_ENGINES, MAX_FIXED, f.searchEngines);
    var (k4, ok4) := Create(k3, TempName(0), MAX_TEMPORARY, f.temporary);
    if !(ok1 && ok2 && ok3 && ok4) then {} else
      (if f.permanentRule then {PERMANENT} else {})
      + (if (PERMANENT in k.rules || f.permanentRule) && f.temporaryRule then {TempName(0)} else {})
  }

  /** The rules whose insertion an event attempts and gets. */
  function EventRules(s: State, e: Event): set<string>
    requires StateOk(s) && EventOk(e)
  {
    match e
    case Failure(ip, domain, reason, now, blockNow, f) =>
      if s.up && FailureSpec(s, ip, domain, reason, now, blockNow, f).2 && BlockLockout(s.cfg, domain) != 0
      then AllocRules(s.kernel, s.pool, f.alloc) else {}
    case Restart(_, _, init, lines, faults) =>
      var (k, pool) := InitializeSpec(s.kernel, init);
      InitRules(s.kernel, init) + if pool.Some? then BlacklistRules(k, pool.value, lines, faults) else {}
    case _ => {}
  }

  function RunRules(s: State, events: seq<Event>): set<string>
    requires StateOk(s) && EventsOk(events)
    decreases |events|
  {
    if events == [] then {} else
      var n := |events| - 1;
      RunRules(s, events[..n]) + EventRules(Run(s, events[..n]), events[n])
  }

  ghost predicate AddsRules(k: Kernel, k': Kernel, names: set<string>) {
    forall name :: name in k'.rules <==> name in k.rules || name in names
  }

  lemma AllocAddsRules(k: Kernel, p: Pool, f: AllocFaults)
    requires PoolOk(p)
    ensures AddsRules(k, AvailableSpec(k, p, f).0, AllocRules(k, p, f))
  {
  }

  lemma LineAddsRules(k: Kernel, p: Pool, line: BlacklistLine, f: LineFaults)
    requires PoolOk(p)
    ensures AddsRules(k, LoadLineSpec(k, p, line, f).0, LineRules(k, p, line, f))
  {
    AllocAddsRules(k, p, f.alloc);
  }

  lemma {:induction false} BlacklistAddsRules(k: Kernel, p: Pool, lines: seq<BlacklistLine>, faults: seq<LineFaults>)
    requires PoolOk(p) && |lines| == |faults|
    ensures AddsRules(k, BlacklistSpec(k, p, lines, faults).0, BlacklistRules(k, p, lines, faults))
    decreases |lines|
  {
    if lines != [] {
      var n := |lines| - 1;
      BlacklistAddsRules(k, p, lines[..n], faults[..n]);
      var (k1, p1) := BlacklistSpec(k, p, lines[..n], faults[..n]);
      LineAddsRules(k1, p1, lines[n], faults[n]);
    }
  }

  lemma InitializeAddsRules(k: Kernel, f: InitFaults)
    ensures AddsRules(k, InitializeSpec(k, f).0, InitRules(k, f))
  {
    var k1 := Create(k, PERMANENT, MAX_FIXED, f.permanent).0;
    var k2 := Create(k1, WHITELIST, MAX_FIXED, f.whitelist).0;
    var k3 := Create(k2, SEARCH_ENGINES, MAX_FIXED, f.searchEngines).0;
    var k4 := Create(k3, TempName(0), MAX_TEMPORARY, f.temporary).0;
    if f.permanent && f.whitelist && f.searchEngines && f.temporary {
      CreateExtends(k, PERMANENT, MAX_FIXED, true);
      CreateExtends(k1, WHITELIST, MAX_FIXED, true);
      CreateExtends(k2, SEARCH_ENGINES, MAX_FIXED, true);
      CreateExtends(k3, TempName(0), MAX_TEMPORARY, true);
      TwoAddRules(k4, PERMANENT, TempName(0), f.permanentRule, f.temporaryRule);
    }
  }

  /** The second insertion is attempted only when the first set has its rule. */
  lemma TwoAddRules(k: Kernel, a: string, b: string, okA: bool, okB: bool)
    requires a in k.sets && b in k.sets
    ensures AddsRules(k, InstallRules(k, [a, b], [okA, okB]).0,
                      (if okA then {a} else {}) + (if (a in k.rules || okA) && okB then {b} else {}))
  {
    assert [a, b][1..] == [b] && [okA, okB][1..] == [okB];
    OneRule(InstallRule(k, a, okA).0, b, okB);
  }

  lemma FailureAddsRules(s: State, e: Event)
    requires StateOk(s) && EventOk(e) && e.Failure?
    ensures AddsRules(s.kernel, Step(s, e).kernel, EventRules(s, e))
  {
    BlockAddsRules(CountedSpec(s, e.ip, e.domain, e.reason, e.now), e.ip, e.domain, e.blockNow, e.f);
  }

  lemma BlockAddsRules(s: State, ip: string, domain: string, now: int, f: BlockFaults)
    requires PoolOk(s.pool)
    ensures AddsRules(s.kernel, BlockSpec(s, ip, domain, now, f).kernel,
                      if BlockLockout(s.cfg, domain) != 0 then AllocRules(s.kernel, s.pool, f.alloc) else {})
  {
    AllocAddsRules(s.kernel, s.pool, f.alloc);
  }

  lemma RestartAddsRules(s: State, e: Event)
    requires StateOk(s) && EventOk(e) && e.Restart?
    ensures AddsRules(s.kernel, Step(s, e).kernel, EventRules(s, e))
  {
    InitializeAddsRules(s.kernel, e.init);
    var (k, pool) := InitializeSpec(s.kernel, e.init);
    if pool.Some? {
      BlacklistAddsRules(k, pool.value, e.lines, e.faults);
    }
  }

  lemma StepAddsRules(s: State, e: Event)
    requires StateOk(s) && EventOk(e)
    ensures AddsRules(s.kernel, Step(s, e).kernel, EventRules(s, e))
    ensures SingleRules(s.kernel) ==> SingleRules(Step(s, e).kernel)
  {
    match e
    case Failure(_, _, _, _, _, _) =>
      FailureExtends(s, e);
      FailureAddsRules(s, e);
    case Restart(_, _, _, _, _) =>
      RestartExtends(s, e);
      RestartAddsRules(s, e);
    case Success(_, _) =>
    case Cleanup(_, _) =>
      assert forall name :: RuleCount(Step(s, e).kernel, name) == RuleCount(s.kernel, name);
  }

  lemma FailureExtends(s: State, e: Event)
    requires StateOk(s) && EventOk(e) && e.Failure?
    ensures Extends(s.kernel, Step(s, e).kernel)
  {
    var s1 := CountedSpec(s, e.ip, e.domain, e.reason, e.now);
    var (k1, pool, name) := BlockTarget(s1, e.domain, e.f);
    AvailableExtends(s.kernel, s.pool, e.f.alloc);
    AddExtends(k1, name, e.ip, e.f.add);
    ExtendsTransitive(s.kernel, k1, Add(k1, name, e.ip, e.f.add).0);
  }

  /** Over any run a set has its rule exactly when it had one or some insertion for it worked; never two. */
  lemma {:induction false} RunRulesIff(s: State, events: seq<Event>)
    requires StateOk(s) && EventsOk(events)
    ensures AddsRules(s.kernel, Run(s, events).kernel, RunRules(s, events))
    ensures SingleRules(s.kernel) ==> SingleRules(Run(s, events).kernel)
    decreases |events|
  {
    if events != [] {
      var n := |events| - 1;
      RunRulesIff(s, events[..n]);
      StepAddsRules(Run(s, events[..n]), events[n]);
    }
  }

  /**
   A block holds: from any state where the address has a row, through any
   events, including re-blocks by other domains, failing commands and
   restarts, it keeps a row and stays in the set that its latest row names,
   until a cleanup after the end of that row. That set has exactly one DROP
   rule exactly when it had one or some insertion for it worked, so always when
   no insertion fails.
   */
  lemma BlockHolds(s: State, events: seq<Event>, ip: string)
    requires StateOk(s) && EventsOk(events) && BlocksOk(s) && ip in s.db.blocked && NeverReleased(s, events, ip)
    ensures var s' := Run(s, events);
            && ip in s'.db.blocked
            && ip in Members(s'.kernel, s'.db.blocked[ip].ipsetName)
            && var name := s'.db.blocked[ip].ipsetName;
               && (SingleRules(s.kernel) ==>
                     (RuleCount(s'.kernel, name) == 1 <==> name in s.kernel.rules || name in RunRules(s, events)))
               && (RulesOk(s) && AllRulesWork(events) ==> RuleCount(s'.kernel, name) == 1)
  {
    RunKeepsBlocks(s, events);
    RowStays(s, events, ip);
    RunRulesIff(s, events);
    var s' := Run(s, events);
    var name := s'.db.blocked[ip].ipsetName;
    assert RowOk(s'.kernel, ip, s'.db.blocked[ip]);
    assert name in s'.kernel.rules <==> name in multiset(s'.kernel.rules);
  }

  // ---------- who leaves a set ----------

  /** The event releases a row of the address that names this set, and the deletion works. */
  predicate TakesOut(s: State, e: Event, ip: string, name: string) {
    ReleasesRow(s, e, ip) && s.db.blocked[ip].ipsetName == name && ip in e.delOk && IsAddress(ip)
  }

  /** Nothing else ever takes an address out of a set. */
  lemma MemberStaysIff(s: State, e: Event, ip: string, name: string)
    requires StateOk(s) && EventOk(e) && ip in Members(s.kernel, name)
    ensures ip in Members(Step(s, e).kernel, name) <==> !TakesOut(s, e, ip, name)
  {
    match e
    case Failure(_, _, _, _, _, _) => FailureExtends(s, e);
    case Restart(_, _, _, _, _) => RestartExtends(s, e);
    case Success(_, _) =>
    case Cleanup(_, _) =>
  }

  ghost predicate NeverTakenOut(s: State, events: seq<Event>, ip: string, name: string)
    requires StateOk(s) && EventsOk(events)
    decreases |events|
  {
    events == [] ||
      var n := |events| - 1;
      NeverTakenOut(s, events[..n], ip, name) && !TakesOut(Run(s, events[..n]), events[n], ip, name)
  }

  lemma {:induction false} MemberStays(s: State, events: seq<Event>, ip: string, name: string)
    requires StateOk(s) && EventsOk(events) && ip in Members(s.kernel, name) && NeverTakenOut(s, events, ip, name)
    ensures ip in Members(Run(s, events).kernel, name)
    decreases |events|
  {
    if events != [] {
      var n := |events| - 1;
      MemberStays(s, events[..n], ip, name);
      MemberStaysIff(Run(s, events[..n]), events[n], ip, name);
    }
  }
}
