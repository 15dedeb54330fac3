/**
 Inputs on which the daemon falls short of a promise, each a short history of a
 new installation: one start, and a few failures of one address.
 */
module Shortfalls {
  import opened Prelude
  import opened Text
  import opened Firewall
  import opened IpsetManager
  import opened Config
  import opened Strikes
  import opened Blocks
  import opened Release

  const IP := "192.0.2.1"
  const DOMAIN := "example.com"
  const OTHER := "example.org"
  const BRIEF := "example.edu"
  const SETTINGS := DomainConfig(18, 604800, 10, false)
  const CFG := Config(SETTINGS, map[DOMAIN := SETTINGS, OTHER := SETTINGS, BRIEF := SETTINGS.(lockout := 1)])
  const WORKS := BlockFaults(AllocFaults(true, true, true), true)

  /** Before the first start, over a kernel that may keep temporary sets of an earlier installation. */
  function Installed(temps: map<string, IPSet>): State {
    State(Kernel(temps, []), Db(map[], map[]), false, CFG, Pool([TempName(0)], 0), map[])
  }

  function Start(): Event {
    Restart(0, CFG, ALL_WORK, [], [])
  }

  function Fails(domain: string, f: BlockFaults): Event {
    Failure(IP, domain, "hmac_failed", 0, 0, f)
  }

  ghost predicate OnlyTemps(temps: map<string, IPSet>) {
    && PERMANENT !in temps && WHITELIST !in temps && SEARCH_ENGINES !in temps
    && forall name :: name in temps ==> temps[name].maxElem == MAX_TEMPORARY
  }

  lemma Started(temps: map<string, IPSet>)
    requires OnlyTemps(temps)
    ensures var s := Run(Installed(temps), [Start()]);
            && s.up && s.cfg == CFG && s.pool == Pool([TempName(0)], 0) && s.mem == map[] && s.db == Db(map[], map[])
            && SetsAfter(temps, s.kernel)
            && forall name :: name in s.kernel.rules <==> name in {PERMANENT, TempName(0)}
  {
    var k := Kernel(temps, []);
    InitializedFrom(k);
    RulesInitialized(temps);
    SetsInitialized(temps, InitializeSpec(k, ALL_WORK).0);
    StartStep(temps);
  }

  lemma RulesInitialized(temps: map<string, IPSet>)
    requires OnlyTemps(temps)
    ensures AddsRules(Kernel(temps, []), InitializeSpec(Kernel(temps, []), ALL_WORK).0, {PERMANENT, TempName(0)})
  {
    var k := Kernel(temps, []);
    NamesDistinct(0, 0);
    FixedNamesDistinct();
    InitializeAddsRules(k, ALL_WORK);
    assert InitRules(k, ALL_WORK) == {PERMANENT, TempName(0)};
  }

  lemma StartStep(temps: map<string, IPSet>)
    requires InitializeSpec(Kernel(temps, []), ALL_WORK).1 == Some(Pool([TempName(0)], 0))
    ensures Run(Installed(temps), [Start()])
         == State(InitializeSpec(Kernel(temps, []), ALL_WORK).0, Db(map[], map[]), true, CFG, Pool([TempName(0)], 0),
                  map[])
  {
    RunOne(Installed(temps), Start());
    QuietRestart(Installed(temps), Start());
  }

  /** A restart that works, without blacklist and without strikes. */
  lemma QuietRestart(s: State, e: Event)
    requires StateOk(s) && s.db.strikes == map[] && e.Restart? && e.lines == [] && e.faults == []
    requires InitializeSpec(s.kernel, e.init).1.Some? && PoolOk(InitializeSpec(s.kernel, e.init).1.value)
    ensures Step(s, e) == var (k, p) := InitializeSpec(s.kernel, e.init); State(k, s.db, true, e.cfg, p.value, map[])
  {
    NothingLoaded(s.db.strikes, e.now);
    var (k, p) := InitializeSpec(s.kernel, e.init);
    assert BlacklistSpec(k, p.value, e.lines, e.faults) == (k, p.value);
  }

  lemma NothingLoaded(table: map<(string, string), Strike>, now: int)
    requires table == map[]
    ensures LoadStrikes(table, now) == map[]
  {
    LoadedOk(table, now);
  }

  /** What start-up leaves in the kernel: the sets of before, and the four of start-up, empty when they are new. */
  ghost predicate SetsAfter(temps: map<string, IPSet>, k: Kernel) {
    && k.sets.Keys == temps.Keys + {PERMANENT, WHITELIST, SEARCH_ENGINES, TempName(0)}
    && (forall name :: name in temps ==> k.sets[name] == temps[name])
    && k.sets[PERMANENT] == IPSet(MAX_FIXED, {})
    && (TempName(0) !in temps ==> k.sets[TempName(0)] == IPSet(MAX_TEMPORARY, {}))
    && forall name :: name !in temps ==> Members(k, name) == {}
  }

  lemma SetsInitialized(temps: map<string, IPSet>, k: Kernel)
    requires OnlyTemps(temps) && k == InitializeSpec(Kernel(temps, []), ALL_WORK).0
    ensures SetsAfter(temps, k)
  {
    NamesDistinct(0, 0);
    FixedNamesDistinct();
    InitializedFrom(Kernel(temps, []));
  }

  /** The record after n such failures. */
  function RecordOf(domain: string, n: nat): Strike {
    Strike(IP, domain, n, 0, 0, false, Some(AddMinutes(0, StrikeLockout(CFG, domain))))
  }

  lemma OneMore(s: State, domain: string, n: nat)
    requires s.cfg == CFG && Lookup(s.mem, Key(IP, domain)) == if n == 0 then None else Some(RecordOf(domain, n))
    ensures CountedSpec(s, IP, domain, "hmac_failed", 0)
         == s.(mem := s.mem[Key(IP, domain) := RecordOf(domain, n + 1)],
               db := s.db.(strikes := s.db.strikes[(IP, domain) := RecordOf(domain, n + 1)]))
  {
    assert StrikeLockout(CFG, domain) > 0 && !StrikeExcuse(CFG, domain);
  }

  /** The records play no part in where and how a block is made. */
  lemma RecordsApart(s: State, mem: map<string, Strike>, strikes: map<(string, string), Strike>, domain: string,
                     f: BlockFaults)
    requires PoolOk(s.pool)
    ensures var s1, after := s.(mem := mem, db := s.db.(strikes := strikes)), BlockSpec(s, IP, domain, 0, f);
            BlockSpec(s1, IP, domain, 0, f) == after.(mem := mem, db := after.db.(strikes := strikes))
  {
  }

  /** Three failures of one domain. */
  function Thrice(s: State, domain: string, f: BlockFaults): (r: State)
    requires StateOk(s) && IsDomain(domain)
    ensures StateOk(r)
  {
    var e := Fails(domain, f);
    Run(s, [e, e, e])
  }

  /** The answer to the third. */
  function ThirdAnswer(s: State, domain: string, f: BlockFaults): bool
    requires StateOk(s) && IsDomain(domain)
  {
    var e := Fails(domain, f);
    FailureSpec(Run(s, [e, e]), IP, domain, e.reason, e.now, e.blockNow, f).2
  }

  /** None is excusable: the third is answered "blocked", and only it touches the kernel. */
  ghost predicate BlockedOnce(s: State, r: State, domain: string, f: BlockFaults)
    requires PoolOk(s.pool)
  {
    var after := BlockSpec(s, IP, domain, 0, f);
    && r.kernel == after.kernel && r.pool == after.pool && r.cfg == after.cfg && r.up == after.up
    && r.db.blocked == after.db.blocked
    && r.mem == s.mem[Key(IP, domain) := RecordOf(domain, 3)]
  }

  lemma ThreeFailures(s: State, domain: string, f: BlockFaults)
    requires StateOk(s) && s.up && s.cfg == CFG && IsDomain(domain) && Key(IP, domain) !in s.mem
    ensures ThirdAnswer(s, domain, f) && BlockedOnce(s, Thrice(s, domain, f), domain, f)
  {
    var e := Fails(domain, f);
    StepCounts(s, domain, 0, f);
    StepCounts(Step(s, e), domain, 1, f);
    var s2 := Step(Step(s, e), e);
    StepBlocks(s2, domain, f);
    RunThree(s, e);
    CountedAgain(s, domain);
    RecordsApart(s, s.mem[Key(IP, domain) := RecordOf(domain, 3)], s.db.strikes[(IP, domain) := RecordOf(domain, 3)],
                 domain, f);
  }

  lemma CountedAgain(s: State, domain: string)
    ensures Counted(Counted(Counted(s, domain, 1), domain, 2), domain, 3) == Counted(s, domain, 3)
  {
  }

  lemma RunThree(s: State, e: Event)
    requires StateOk(s) && EventOk(e)
    ensures StateOk(Step(s, e)) && StateOk(Step(Step(s, e), e))
    ensures Run(s, [e, e]) == Step(Step(s, e), e)
    ensures Run(s, [e, e, e]) == Step(Step(Step(s, e), e), e)
  {
    StepOk(s, e);
    StepOk(Step(s, e), e);
    RunOne(s, e);
    RunSnoc(s, [e], e);
    RunSnoc(s, [e, e], e);
    assert [e] + [e] == [e, e] && [e, e] + [e] == [e, e, e];
  }

  lemma RunSnoc(s: State, events: seq<Event>, e: Event)
    requires StateOk(s) && EventsOk(events) && EventOk(e)
    ensures EventsOk(events + [e]) && Run(s, events + [e]) == Step(Run(s, events), e)
  {
    RunConcat(s, events, [e]);
    RunOne(Run(s, events), e);
  }

  lemma StepCounts(s: State, domain: string, n: nat, f: BlockFaults)
    requires StateOk(s) && s.up && s.cfg == CFG && IsDomain(domain) && n < 2
    requires Lookup(s.mem, Key(IP, domain)) == if n == 0 then None else Some(RecordOf(domain, n))
    ensures Step(s, Fails(domain, f)) == Counted(s, domain, n + 1)
    ensures StateOk(Step(s, Fails(domain, f)))
  {
    OneMore(s, domain, n);
    StepOk(s, Fails(domain, f));
  }

  lemma StepBlocks(s: State, domain: string, f: BlockFaults)
    requires StateOk(s) && s.up && s.cfg == CFG && IsDomain(domain)
    requires Lookup(s.mem, Key(IP, domain)) == Some(RecordOf(domain, 2))
    ensures Step(s, Fails(domain, f)) == BlockSpec(Counted(s, domain, 3), IP, domain, 0, f)
    ensures FailureSpec(s, IP, domain, "hmac_failed", 0, 0, f).2
  {
    OneMore(s, domain, 2);
  }

  function Counted(s: State, domain: string, n: nat): State {
    s.(mem := s.mem[Key(IP, domain) := RecordOf(domain, n)],
       db := s.db.(strikes := s.db.strikes[(IP, domain) := RecordOf(domain, n)]))
  }

  /** What the examples start from: a running daemon without strikes or rows, over the sets given. */
  function Running(temps: map<string, IPSet>): (s: State)
    ensures StateOk(s)
  {
    Run(Installed(temps), [Start()])
  }

  function FullSet(n: nat): IPSet {
    IPSet(MAX_TEMPORARY, Numbered(n))
  }

  lemma NotNumbered(n: nat)
    ensures IP !in Numbered(n) && |Numbered(n)| == n && IsAddress(IP)
  {
    NumberedCount(n);
    NumberedAreAddresses(n);
    assert IP[1] == '9';
  }

  /** The first set is the only one of the pool; it holds n addresses. */
  ghost predicate FirstHolds(s: State, n: nat) {
    && StateOk(s) && s.up && s.cfg == CFG && s.pool == Pool([TempName(0)], 0) && s.mem == map[] && s.db.blocked == map[]
    && TempName(0) in s.kernel.sets && s.kernel.sets[TempName(0)] == FullSet(n)
    && forall name :: name in s.kernel.rules <==> name in {PERMANENT, TempName(0)}
  }

  lemma RunningFirst(temps: map<string, IPSet>, n: nat)
    requires OnlyTemps(temps) && (if TempName(0) in temps then temps[TempName(0)] == FullSet(n) else n == 0)
    ensures FirstHolds(Running(temps), n) && SetsAfter(temps, Running(temps).kernel)
  {
    Started(temps);
    assert Numbered(0) == {};
  }

  // ---------- the examples ----------

  /**
   Two full sets of an earlier installation: the third failure is answered "blocked", and no set
   holds the address.
   */
  lemma AnsweredButNotBlocked(temps: map<string, IPSet>)
    requires temps == map[TempName(0) := FullSet(MAX_TEMPORARY), TempName(1) := FullSet(MAX_TEMPORARY)]
    ensures var s := Running(temps);
            ThirdAnswer(s, DOMAIN, WORKS) && forall name :: IP !in Members(Thrice(s, DOMAIN, WORKS).kernel, name)
  {
    TwoSets(temps);
    NoRoomAhead(temps, Running(temps), WORKS);
  }

  /** A full first set, and a size query or a creation that fails: the same, although nothing stops AddIP itself. */
  lemma AnsweredThoughCommandFails(temps: map<string, IPSet>, f: BlockFaults)
    requires temps == map[TempName(0) := FullSet(MAX_TEMPORARY)]
    requires f.add && !(f.alloc.size && f.alloc.create)
    ensures var s := Running(temps);
            ThirdAnswer(s, DOMAIN, f) && forall name :: IP !in Members(Thrice(s, DOMAIN, f).kernel, name)
  {
    NamesDistinct(0, 0);
    assert OnlyTemps(temps);
    RunningFirst(temps, MAX_TEMPORARY);
    NoRoomAhead(temps, Running(temps), f);
  }

  lemma TwoSets(temps: map<string, IPSet>)
    requires temps == map[TempName(0) := FullSet(MAX_TEMPORARY), TempName(1) := FullSet(MAX_TEMPORARY)]
    ensures FirstHolds(Running(temps), MAX_TEMPORARY) && SetsAfter(temps, Running(temps).kernel)
  {
    NamesDistinct(0, 1);
    NamesDistinct(1, 0);
    assert OnlyTemps(temps);
    RunningFirst(temps, MAX_TEMPORARY);
  }

  lemma NoRoomAhead(temps: map<string, IPSet>, s: State, f: BlockFaults)
    requires FirstHolds(s, MAX_TEMPORARY) && SetsAfter(temps, s.kernel)
    requires forall name :: name in temps ==> temps[name] == FullSet(MAX_TEMPORARY)
    requires TempName(1) in temps || !(f.alloc.size && f.alloc.create)
    ensures ThirdAnswer(s, DOMAIN, f) && forall name :: IP !in Members(Thrice(s, DOMAIN, f).kernel, name)
  {
    ThreeFailures(s, DOMAIN, f);
    CannotTake(s, f);
    Nowhere(temps, s);
  }

  lemma Nowhere(temps: map<string, IPSet>, s: State)
    requires SetsAfter(temps, s.kernel) && forall name :: name in temps ==> temps[name] == FullSet(MAX_TEMPORARY)
    ensures forall name :: IP !in Members(s.kernel, name)
  {
    NotNumbered(MAX_TEMPORARY);
  }

  lemma CannotTake(s: State, f: BlockFaults)
    requires FirstHolds(s, MAX_TEMPORARY)
    requires (TempName(1) in s.kernel.sets && s.kernel.sets[TempName(1)] == FullSet(MAX_TEMPORARY))
             || !(f.alloc.size && f.alloc.create)
    ensures NotBlocked(s, BlockSpec(s, IP, DOMAIN, 0, f), IP)
  {
    NotNumbered(MAX_TEMPORARY);
    assert !CanTake(s, IP, DOMAIN, f.alloc);
    BlockOutcome(s, IP, DOMAIN, 0, f);
  }

  /** A full first set, and a rule insertion that fails: the address is in the new set, which nothing drops. */
  lemma BlockedButNotDropped(temps: map<string, IPSet>, f: BlockFaults)
    requires temps == map[TempName(0) := FullSet(MAX_TEMPORARY)]
    requires f == BlockFaults(AllocFaults(true, true, false), true)
    ensures var s' := Thrice(Running(temps), DOMAIN, f);
            && IP in s'.db.blocked && s'.db.blocked[IP].ipsetName == TempName(1)
            && IP in Members(s'.kernel, TempName(1)) && RuleCount(s'.kernel, TempName(1)) == 0
  {
    OneSet(temps, MAX_TEMPORARY);
    NewSetUnguarded(Running(temps), f);
  }

  lemma NewSetUnguarded(s: State, f: BlockFaults)
    requires FirstHolds(s, MAX_TEMPORARY) && TempName(1) !in s.kernel.sets && TempName(1) !in s.kernel.rules
    requires f == BlockFaults(AllocFaults(true, true, false), true)
    ensures var s' := Thrice(s, DOMAIN, f);
            && IP in s'.db.blocked && s'.db.blocked[IP].ipsetName == TempName(1)
            && IP in Members(s'.kernel, TempName(1)) && RuleCount(s'.kernel, TempName(1)) == 0
  {
    NotNumbered(MAX_TEMPORARY);
    ThreeFailures(s, DOMAIN, f);
    OpensSecond(s, DOMAIN, f);
  }

  /** A kernel left with the first set alone, holding n addresses. */
  lemma OneSet(temps: map<string, IPSet>, n: nat)
    requires temps == map[TempName(0) := FullSet(n)]
    ensures FirstHolds(Running(temps), n)
    ensures TempName(1) !in Running(temps).kernel.sets && TempName(1) !in Running(temps).kernel.rules
  {
    NamesDistinct(0, 0);
    assert OnlyTemps(temps);
    RunningFirst(temps, n);
    SecondIsNew(temps, Running(temps));
  }

  lemma SecondIsNew(temps: map<string, IPSet>, s: State)
    requires temps.Keys == {TempName(0)} && SetsAfter(temps, s.kernel)
    requires forall name :: name in s.kernel.rules <==> name in {PERMANENT, TempName(0)}
    ensures TempName(1) !in s.kernel.sets && TempName(1) !in s.kernel.rules
  {
    NamesDistinct(1, 0);
  }

  /** The first set is full and the second is new, so a block opens it; its rule is there if the insertion worked. */
  lemma OpensSecond(s: State, domain: string, f: BlockFaults)
    requires StateOk(s) && s.cfg == CFG && domain in CFG.domains && s.pool == Pool([TempName(0)], 0)
    requires CFG.domains[domain] == SETTINGS
    requires TempName(0) in s.kernel.sets && s.kernel.sets[TempName(0)].maxElem == MAX_TEMPORARY
    requires |Members(s.kernel, TempName(0))| == MAX_TEMPORARY
    requires TempName(1) !in s.kernel.sets && TempName(1) !in s.kernel.rules
    requires f.alloc.size && f.alloc.create && f.add
    ensures var s' := BlockSpec(s, IP, domain, 0, f);
            && s'.db.blocked == s.db.blocked[IP := BlockRow(domain, 0, Some(AddMinutes(0, 10)), TempName(1))]
            && IP in Members(s'.kernel, TempName(1))
            && Members(s'.kernel, TempName(0)) == Members(s.kernel, TempName(0))
            && (RuleCount(s'.kernel, TempName(1)) == 0 <==> !f.alloc.rule)
            && forall name :: name in s.kernel.rules ==> name in s'.kernel.rules
  {
    NamesDistinct(0, 1);
    NotNumbered(0);
    AllocationRoomIff(s.kernel, s.pool, f.alloc);
    AllocAddsRules(s.kernel, s.pool, f.alloc);
    AllocationSameMembers(s.kernel, s.pool, f.alloc);
    var k := BlockSpec(s, IP, domain, 0, f).kernel;
    assert TempName(1) in k.rules <==> TempName(1) in multiset(k.rules);
  }

  /** The first set has room, so a block of a configured domain goes there. */
  lemma TakesFirst(s: State, domain: string, n: nat)
    requires FirstHolds(s, n) && domain in CFG.domains && CFG.domains[domain] == SETTINGS && n < MAX_TEMPORARY
    ensures var s' := BlockSpec(s, IP, domain, 0, WORKS);
            && s'.db.blocked == map[IP := BlockRow(domain, 0, Some(AddMinutes(0, 10)), TempName(0))]
            && s'.pool == s.pool && s'.kernel.rules == s.kernel.rules && s'.kernel.sets.Keys == s.kernel.sets.Keys
            && s'.kernel.sets[TempName(0)] == IPSet(MAX_TEMPORARY, Numbered(n) + {IP})
  {
    NotNumbered(n);
  }

  /**
   A block taken over from a set that is then full: the second domain's block
   goes to the next set, and the release at minute 11 leaves the address in the first.
   */
  lemma ReleasedButStillDropped(temps: map<string, IPSet>)
    requires temps == map[TempName(0) := FullSet(MAX_TEMPORARY - 1)]
    ensures var s' := Run(Thrice(Thrice(Running(temps), DOMAIN, WORKS), OTHER, WORKS),
                          [Cleanup(AddMinutes(0, 11), {IP})]);
            IP !in s'.db.blocked && IP in Members(s'.kernel, TempName(0)) && TempName(0) in s'.kernel.rules
  {
    OneSet(temps, MAX_TEMPORARY - 1);
    TakeoverMissed(Running(temps));
  }

  lemma TakeoverMissed(s: State)
    requires FirstHolds(s, MAX_TEMPORARY - 1) && TempName(1) !in s.kernel.sets && TempName(1) !in s.kernel.rules
    ensures var s' := Run(Thrice(Thrice(s, DOMAIN, WORKS), OTHER, WORKS), [Cleanup(AddMinutes(0, 11), {IP})]);
            IP !in s'.db.blocked && IP in Members(s'.kernel, TempName(0)) && TempName(0) in s'.kernel.rules
  {
    TakenOver(s);
    ReleaseMisses(Thrice(Thrice(s, DOMAIN, WORKS), OTHER, WORKS), TempName(0));
  }

  lemma TakenOver(s: State)
    requires FirstHolds(s, MAX_TEMPORARY - 1) && TempName(1) !in s.kernel.sets && TempName(1) !in s.kernel.rules
    ensures var s2 := Thrice(Thrice(s, DOMAIN, WORKS), OTHER, WORKS);
            && s2.up && IP in s2.db.blocked
            && s2.db.blocked[IP] == BlockRow(OTHER, 0, Some(AddMinutes(0, 10)), TempName(1))
            && TempName(1) != TempName(0)
            && IP in Members(s2.kernel, TempName(0)) && TempName(0) in s2.kernel.rules
  {
    var s1 := Thrice(s, DOMAIN, WORKS);
    LastPlaceTaken(s);
    OtherKey();
    ThreeFailures(s1, OTHER, WORKS);
    OpensSecond(s1, OTHER, WORKS);
    NamesDistinct(0, 1);
  }

  lemma LastPlaceTaken(s: State)
    requires FirstHolds(s, MAX_TEMPORARY - 1) && TempName(1) !in s.kernel.sets && TempName(1) !in s.kernel.rules
    ensures var s1 := Thrice(s, DOMAIN, WORKS);
            && s1.up && s1.cfg == CFG && s1.pool == s.pool && s1.mem.Keys == {Key(IP, DOMAIN)}
            && s1.kernel.rules == s.kernel.rules && s1.kernel.sets.Keys == s.kernel.sets.Keys
            && IP in Members(s1.kernel, TempName(0)) && |Members(s1.kernel, TempName(0))| == MAX_TEMPORARY
            && s1.kernel.sets[TempName(0)].maxElem == MAX_TEMPORARY
  {
    ThreeFailures(s, DOMAIN, WORKS);
    TakesFirst(s, DOMAIN, MAX_TEMPORARY - 1);
    NotNumbered(MAX_TEMPORARY - 1);
  }

  lemma OtherKey()
    ensures Key(IP, OTHER) != Key(IP, DOMAIN) && Key(IP, BRIEF) != Key(IP, DOMAIN)
    ensures IsDomain(OTHER) && IsDomain(DOMAIN) && IsDomain(BRIEF)
  {
    KeyRoundTrip(IP, DOMAIN);
    KeyRoundTrip(IP, OTHER);
    KeyRoundTrip(IP, BRIEF);
  }

  lemma ReleaseMisses(s: State, name: string)
    requires StateOk(s) && s.up && EndedRow(s.db, IP, AddMinutes(0, 11)) && s.db.blocked[IP].ipsetName != name
    requires IP in Members(s.kernel, name) && name in s.kernel.rules
    ensures var s' := Run(s, [Cleanup(AddMinutes(0, 11), {IP})]);
            IP !in s'.db.blocked && IP in Members(s'.kernel, name) && name in s'.kernel.rules
  {
    NotNumbered(0);
    RunOne(s, Cleanup(AddMinutes(0, 11), {IP}));
    StillDroppedIff(s, AddMinutes(0, 11), {IP}, IP, name);
  }

  /**
   A fourth failure whose AddIP fails moves the record's end past the row's. The
   pass at minute 11 releases the address and leaves its record at four strikes.
   */
  lemma FailedAddOutlastsRow(temps: map<string, IPSet>, fourth: Event)
    requires temps == map[]
    requires fourth == Failure(IP, DOMAIN, "hmac_failed", AddMinutes(0, 5), AddMinutes(0, 5),
                               BlockFaults(AllocFaults(true, true, true), false))
    ensures var blocked := Thrice(Running(temps), DOMAIN, WORKS);
            var s' := Run(Run(blocked, [fourth]), [Cleanup(AddMinutes(0, 11), {IP})]);
            && IP in blocked.db.blocked && IP !in s'.db.blocked
            && Key(IP, DOMAIN) in s'.mem && s'.mem[Key(IP, DOMAIN)].count == 4
  {
    NewKernel(temps);
    FirstTakes(Running(temps));
    FourthOutlasts(Thrice(Running(temps), DOMAIN, WORKS), fourth);
  }

  lemma FourthOutlasts(s: State, fourth: Event)
    requires fourth == Failure(IP, DOMAIN, "hmac_failed", AddMinutes(0, 5), AddMinutes(0, 5),
                               BlockFaults(AllocFaults(true, true, true), false))
    requires StateOk(s) && s.up && s.cfg == CFG && Lookup(s.mem, Key(IP, DOMAIN)) == Some(RecordOf(DOMAIN, 3))
    requires IP in s.db.blocked && s.db.blocked[IP].lockoutExpires == Some(AddMinutes(0, 10))
    ensures var s' := Run(Run(s, [fourth]), [Cleanup(AddMinutes(0, 11), {IP})]);
            IP !in s'.db.blocked && Key(IP, DOMAIN) in s'.mem && s'.mem[Key(IP, DOMAIN)].count == 4
  {
    FourthFails(s, fourth);
    RecordStays(Run(s, [fourth]));
  }

  lemma FirstTakes(s: State)
    requires FirstHolds(s, 0)
    ensures var s' := Thrice(s, DOMAIN, WORKS);
            && s'.up && s'.cfg == CFG && s'.mem == map[Key(IP, DOMAIN) := RecordOf(DOMAIN, 3)]
            && TempName(0) in s'.kernel.sets
            && s'.db.blocked == map[IP := BlockRow(DOMAIN, 0, Some(AddMinutes(0, 10)), TempName(0))]
            && s'.pool == s.pool && s'.kernel.rules == s.kernel.rules && s'.kernel.sets.Keys == s.kernel.sets.Keys
            && s'.kernel.sets[TempName(0)] == IPSet(MAX_TEMPORARY, {IP})
  {
    ThreeFailures(s, DOMAIN, WORKS);
    TakesFirst(s, DOMAIN, 0);
    assert Numbered(0) + {IP} == {IP};
  }

  /** A deletion that fails: the pass at minute 11 drops the row, and the address stays behind the rule. */
  lemma DeletionFails(temps: map<string, IPSet>)
    requires temps == map[]
    ensures var s' := Run(Thrice(Running(temps), DOMAIN, WORKS), [Cleanup(AddMinutes(0, 11), {})]);
            IP !in s'.db.blocked && IP in Members(s'.kernel, TempName(0)) && TempName(0) in s'.kernel.rules
  {
    NewKernel(temps);
    FirstTakes(Running(temps));
    RowGoesAlone(Thrice(Running(temps), DOMAIN, WORKS), TempName(0));
  }

  lemma RowGoesAlone(s: State, name: string)
    requires StateOk(s) && s.up && EndedRow(s.db, IP, AddMinutes(0, 11))
    requires IP in Members(s.kernel, name) && name in s.kernel.rules
    ensures var s' := Run(s, [Cleanup(AddMinutes(0, 11), {})]);
            IP !in s'.db.blocked && IP in Members(s'.kernel, name) && name in s'.kernel.rules
  {
    NotNumbered(0);
    RunOne(s, Cleanup(AddMinutes(0, 11), {}));
    StillDroppedIff(s, AddMinutes(0, 11), {}, IP, name);
  }

  /**
   A re-block by a domain with a lockout of one minute: the first domain's block
   was to last ten, and the pass at minute 2 ends it.
   */
  lemma ReblockedShorter(temps: map<string, IPSet>)
    requires temps == map[]
    ensures var blocked := Thrice(Running(temps), DOMAIN, WORKS);
            var s' := Run(Thrice(blocked, BRIEF, WORKS), [Cleanup(AddMinutes(0, 2), {IP})]);
            && IP in blocked.db.blocked && blocked.db.blocked[IP].lockoutExpires == Some(AddMinutes(0, 10))
            && blocked.db.blocked[IP].ipsetName == TempName(0) && IP in Members(blocked.kernel, TempName(0))
            && IP !in s'.db.blocked && IP !in Members(s'.kernel, TempName(0))
  {
    NewKernel(temps);
    var blocked := Thrice(Running(temps), DOMAIN, WORKS);
    FirstTakes(Running(temps));
    OtherKey();
    ShorterRow(blocked);
    PassAtTwo(Thrice(blocked, BRIEF, WORKS));
  }

  lemma ShorterRow(s: State)
    requires StateOk(s) && s.up && s.cfg == CFG && s.pool == Pool([TempName(0)], 0)
    requires Key(IP, BRIEF) !in s.mem && IsDomain(BRIEF)
    requires TempName(0) in s.kernel.sets && s.kernel.sets[TempName(0)] == IPSet(MAX_TEMPORARY, {IP})
    ensures var s' := Thrice(s, BRIEF, WORKS);
            && s'.up && s'.kernel == s.kernel
            && s'.db.blocked == s.db.blocked[IP := BlockRow(BRIEF, 0, Some(AddMinutes(0, 1)), TempName(0))]
  {
    NotNumbered(0);
    ThreeFailures(s, BRIEF, WORKS);
  }

  lemma PassAtTwo(s: State)
    requires StateOk(s) && s.up && EndedRow(s.db, IP, AddMinutes(0, 2)) && s.db.blocked[IP].ipsetName == TempName(0)
    ensures var s' := Run(s, [Cleanup(AddMinutes(0, 2), {IP})]);
            IP !in s'.db.blocked && IP !in Members(s'.kernel, TempName(0))
  {
    NotNumbered(0);
    RunOne(s, Cleanup(AddMinutes(0, 2), {IP}));
    StillDroppedIff(s, AddMinutes(0, 2), {IP}, IP, TempName(0));
  }

  lemma RecordStays(s: State)
    requires StateOk(s) && s.up && EndedRow(s.db, IP, AddMinutes(0, 11))
    requires Lookup(s.mem, Key(IP, DOMAIN))
             == Some(Strike(IP, DOMAIN, 4, 0, AddMinutes(0, 5), false, Some(AddMinutes(0, 15))))
    ensures var s' := Run(s, [Cleanup(AddMinutes(0, 11), {IP})]);
            IP !in s'.db.blocked && Key(IP, DOMAIN) in s'.mem && s'.mem[Key(IP, DOMAIN)].count == 4
  {
    RunOne(s, Cleanup(AddMinutes(0, 11), {IP}));
  }

  lemma FourthFails(s: State, fourth: Event)
    requires fourth == Failure(IP, DOMAIN, "hmac_failed", AddMinutes(0, 5), AddMinutes(0, 5),
                               BlockFaults(AllocFaults(true, true, true), false))
    requires StateOk(s) && s.up && s.cfg == CFG && Lookup(s.mem, Key(IP, DOMAIN)) == Some(RecordOf(DOMAIN, 3))
    ensures var s' := Run(s, [fourth]);
            && s'.up && s'.db.blocked == s.db.blocked
            && Lookup(s'.mem, Key(IP, DOMAIN))
               == Some(Strike(IP, DOMAIN, 4, 0, AddMinutes(0, 5), false, Some(AddMinutes(0, 15))))
  {
    RunOne(s, fourth);
    assert DOMAIN in CFG.domains && CFG.domains[DOMAIN] == SETTINGS;
  }

  /** A domain that domains.json lacks: its record ends after the default ten minutes, its block never. */
  lemma UnconfiguredBlockedForGood(temps: map<string, IPSet>, domain: string)
    requires temps == map[] && domain == "example.net"
    ensures var s' := Thrice(Running(temps), domain, WORKS);
            && IP in s'.db.blocked && s'.db.blocked[IP].lockoutExpires == None
            && Key(IP, domain) in s'.mem && s'.mem[Key(IP, domain)].expiresAt == Some(AddMinutes(0, 10))
  {
    NewKernel(temps);
    PermanentTakes(Running(temps), domain);
  }

  /** A kernel without any of the manager's sets. */
  lemma NewKernel(temps: map<string, IPSet>)
    requires temps == map[]
    ensures FirstHolds(Running(temps), 0)
    ensures var sets := Running(temps).kernel.sets; PERMANENT in sets && sets[PERMANENT] == IPSet(MAX_FIXED, {})
  {
    assert OnlyTemps(temps);
    RunningFirst(temps, 0);
  }

  lemma PermanentTakes(s: State, domain: string)
    requires FirstHolds(s, 0) && domain !in CFG.domains && IsDomain(domain)
    requires PERMANENT in s.kernel.sets && s.kernel.sets[PERMANENT] == IPSet(MAX_FIXED, {})
    ensures var s' := Thrice(s, domain, WORKS);
            && s'.db.blocked == map[IP := BlockRow(domain, 0, None, PERMANENT)]
            && s'.mem == map[Key(IP, domain) := RecordOf(domain, 3)]
  {
    ThreeFailures(s, domain, WORKS);
    NotNumbered(0);
  }
}
