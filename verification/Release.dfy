/** When blocks take effect, and what a release leaves behind. */
module Release {
  import opened Prelude
  import opened Firewall
  import opened IpsetManager
  import opened Blacklist
  import opened Config
  import opened Strikes
  import opened FailureLog
  import opened Blocks

  // ---------- which rows are permanent ----------

  /**
   The row a block writes, in terms of the file as written: it names the domain,
   and has no end exactly when the domain is missing from the file or has
   lockout 0 while the default is 0 as well. The record behind it still expires:
   for a missing domain it takes the default lockout.
   */
  lemma PermanentRowIff(s: State, raw: Config, ip: string, domain: string, now: int, f: BlockFaults)
    requires StateOk(s) && s.cfg == Loaded(raw) && BlockTakes(s, ip, domain, f)
    ensures ip in BlockSpec(s, ip, domain, now, f).db.blocked
    ensures var row := BlockSpec(s, ip, domain, now, f).db.blocked[ip];
            && row.domain == domain && row.blockedAt == now
            && (row.lockoutExpires.None? <==>
                  domain !in raw.domains || (raw.domains[domain].lockout == 0 && raw.default.lockout == 0))
            && (row.lockoutExpires.Some? ==>
                  var minutes := if raw.domains[domain].lockout == 0 then raw.default.lockout
                                 else raw.domains[domain].lockout;
                  row.lockoutExpires.value == now + minutes * 60 * 1_000_000_000)
            && (row.ipsetName == PERMANENT <==> row.lockoutExpires.None?)
            && (domain !in raw.domains ==> StrikeLockout(s.cfg, domain) == raw.default.lockout)
  {
    BlocksForGoodIff(raw, domain);
    TargetNames(s, domain, f);
  }

  // ---------- which blocks take effect ----------

  /** A running daemon's sets exist with their capacity, whatever failed on the way. */
  ghost predicate KnownWhenUp(s: State) {
    s.up ==> Known(s.kernel, s.pool)
  }

  lemma KnownExtends(k: Kernel, k': Kernel, p: Pool)
    requires Known(k, p) && Extends(k, k')
    ensures Known(k', p)
  {
  }

  lemma AvailableKnown(k: Kernel, p: Pool, f: AllocFaults)
    requires PoolOk(p) && Known(k, p)
    ensures Known(AvailableSpec(k, p, f).0, AvailableSpec(k, p, f).1)
  {
    AvailableExtends(k, p, f);
    KnownExtends(k, AvailableSpec(k, p, f).0, p);
  }

  lemma {:induction false} BlacklistKnown(k: Kernel, p: Pool, lines: seq<BlacklistLine>, faults: seq<LineFaults>)
    requires PoolOk(p) && Known(k, p) && |lines| == |faults|
    ensures Known(BlacklistSpec(k, p, lines, faults).0, BlacklistSpec(k, p, lines, faults).1)
    decreases |lines|
  {
    if lines != [] {
      var n := |lines| - 1;
      BlacklistKnown(k, p, lines[..n], faults[..n]);
      var (k1, p1) := BlacklistSpec(k, p, lines[..n], faults[..n]);
      LineKnown(k1, p1, lines[n], faults[n]);
    }
  }

  lemma LineKnown(k: Kernel, p: Pool, line: BlacklistLine, f: LineFaults)
    requires PoolOk(p) && Known(k, p)
    ensures Known(LoadLineSpec(k, p, line, f).0, LoadLineSpec(k, p, line, f).1)
  {
    if line.Entry? {
      AvailableKnown(k, p, f.alloc);
      var (k1, p1, name) := if line.lockout == 0 then (k, p, PERMANENT) else AvailableSpec(k, p, f.alloc);
      AddExtends(k1, name, line.ip, f.add);
      KnownExtends(k1, Add(k1, name, line.ip, f.add).0, p1);
    }
  }

  lemma InitializeKnown(k: Kernel, f: InitFaults)
    ensures InitializeSpec(k, f).1.Some? ==> Known(InitializeSpec(k, f).0, InitializeSpec(k, f).1.value)
  {
    var k1 := Create(k, PERMANENT, MAX_FIXED, f.permanent).0;
    var k2 := Create(k1, WHITELIST, MAX_FIXED, f.whitelist).0;
    var k3 := Create(k2, SEARCH_ENGINES, MAX_FIXED, f.searchEngines).0;
    var k4 := Create(k3, TempName(0), MAX_TEMPORARY, f.temporary).0;
    InstallTwoExtends(k4, PERMANENT, TempName(0), [f.permanentRule, f.temporaryRule]);
  }

  lemma BlockKnown(s: State, ip: string, domain: string, now: int, f: BlockFaults)
    requires PoolOk(s.pool) && Known(s.kernel, s.pool)
    ensures Known(BlockSpec(s, ip, domain, now, f).kernel, BlockSpec(s, ip, domain, now, f).pool)
  {
    AvailableKnown(s.kernel, s.pool, f.alloc);
    var (k, pool, name) := BlockTarget(s, domain, f);
    AddExtends(k, name, ip, f.add);
    KnownExtends(k, Add(k, name, ip, f.add).0, pool);
  }

  lemma StepKnown(s: State, e: Event)
    requires StateOk(s) && EventOk(e) && KnownWhenUp(s)
    ensures KnownWhenUp(Step(s, e))
  {
    match e
    case Failure(ip, domain, reason, now, blockNow, f) =>
      if s.up {
        BlockKnown(CountedSpec(s, ip, domain, reason, now), ip, domain, blockNow, f);
      }
    case Success(_, _) =>
    case Cleanup(_, _) =>
    case Restart(_, _, init, lines, faults) =>
      InitializeKnown(s.kernel, init);
      var (k1, pool) := InitializeSpec(s.kernel, init);
      if pool.Some? {
        BlacklistKnown(k1, pool.value, lines, faults);
      }
  }

  lemma {:induction false} RunKnown(s: State, events: seq<Event>)
    requires StateOk(s) && EventsOk(events) && KnownWhenUp(s)
    ensures KnownWhenUp(Run(s, events))
    decreases |events|
  {
    if events != [] {
      var n := |events| - 1;
      RunKnown(s, events[..n]);
      StepKnown(Run(s, events[..n]), events[n]);
    }
  }

  /** What a block needs of the state it meets: room in the set that it will get, or to be in there already. */
  predicate CanTake(s: State, ip: string, domain: string, f: AllocFaults)
    requires PoolOk(s.pool)
  {
    && IsAddress(ip)
    && if BlockLockout(s.cfg, domain) == 0
       then HasRoom(s.kernel, PERMANENT) || ip in Members(s.kernel, PERMANENT)
       else RoomAhead(s.kernel, s.pool, f) || ip in Members(s.kernel, SetAhead(s.kernel, s.pool, f))
  }

  /**
   In every state that a daemon can reach, restarts and failed commands
   included, and whichever of its own commands fail, a block takes effect
   exactly when AddIP works, the address is one, and its set has room or holds
   it already: the permanent set for lockout 0, else the temporary set ahead.
   */
  lemma BlockTakesIff(s0: State, events: seq<Event>, ip: string, domain: string, f: BlockFaults)
    requires StateOk(s0) && !s0.up && EventsOk(events) && Run(s0, events).up
    ensures var s := Run(s0, events); BlockTakes(s, ip, domain, f) <==> f.add && CanTake(s, ip, domain, f.alloc)
  {
    RunKnown(s0, events);
    BlockTakesHere(Run(s0, events), ip, domain, f);
  }

  lemma BlockTakesHere(s: State, ip: string, domain: string, f: BlockFaults)
    requires StateOk(s) && Known(s.kernel, s.pool)
    ensures BlockTakes(s, ip, domain, f) <==> f.add && CanTake(s, ip, domain, f.alloc)
  {
    AllocationRoomIff(s.kernel, s.pool, f.alloc);
  }

  /** The block is in force: the row is the new one, and the address is in its set. */
  ghost predicate InForce(s: State, ip: string, domain: string, now: int) {
    && ip in s.db.blocked && s.db.blocked[ip].domain == domain && s.db.blocked[ip].blockedAt == now
    && ip in Members(s.kernel, s.db.blocked[ip].ipsetName)
  }

  /** Rows and the sets that hold the address are as they were. */
  ghost predicate NotBlocked(s: State, s': State, ip: string) {
    && s'.db.blocked == s.db.blocked
    && forall name :: ip in Members(s'.kernel, name) <==> ip in Members(s.kernel, name)
  }

  /**
   The answer "blocked" depends on the charged failures alone. It is true to
   the kernel exactly when the block could take effect: then the address is in
   the set of its new row, else the sets that hold it and all rows are as before.
   */
  lemma BlockedAnswerIff(s0: State, t0: int, events: seq<Event>, e: Event)
    requires NoStrikes(s0) && !s0.up && EventsOk(events) && LoadsInOrder(t0, events) && Run(s0, events).up
    requires e.Failure? && EventOk(e)
    ensures var s := Run(s0, events);
            var (s', _, blocked) := FailureSpec(s, e.ip, e.domain, e.reason, e.now, e.blockNow, e.f);
            var takes := e.f.add && CanTake(s, e.ip, e.domain, e.f.alloc);
            && (blocked <==> Charged(LogWith(s0, t0, events, e)) >= THRESHOLD)
            && (blocked && takes ==> InForce(s', e.ip, e.domain, e.blockNow))
            && (blocked && !takes ==> NotBlocked(s, s', e.ip))
  {
    AnswerCountsFailures(s0, t0, events, e);
    RunKnown(s0, events);
    var s := Run(s0, events);
    BlockOutcome(CountedSpec(s, e.ip, e.domain, e.reason, e.now), e.ip, e.domain, e.blockNow, e.f);
  }

  lemma BlockOutcome(s: State, ip: string, domain: string, now: int, f: BlockFaults)
    requires PoolOk(s.pool) && Known(s.kernel, s.pool)
    ensures var s' := BlockSpec(s, ip, domain, now, f);
            if f.add && CanTake(s, ip, domain, f.alloc) then InForce(s', ip, domain, now) else NotBlocked(s, s', ip)
  {
    AllocationRoomIff(s.kernel, s.pool, f.alloc);
    var (k, pool, name) := BlockTarget(s, domain, f);
    AddExtends(k, name, ip, f.add);
    AllocationSameMembers(s.kernel, s.pool, f.alloc);
  }

  lemma AllocationSameMembers(k: Kernel, p: Pool, f: AllocFaults)
    requires PoolOk(p)
    ensures forall name :: Members(AvailableSpec(k, p, f).0, name) == Members(k, name)
  {
  }

  /** The sets are created for IPv4, so an IPv6 address is never added, although the answer is the same. */
  lemma Ipv6NeverBlocked(s: State, ip: string, domain: string, now: int, f: BlockFaults)
    requires PoolOk(s.pool) && ':' in ip
    ensures !IsAddress(ip) && NotBlocked(s, BlockSpec(s, ip, domain, now, f), ip)
  {
    var i :| 0 <= i < |ip| && ip[i] == ':';
    assert !IsAddressChar(ip[i]);
    AllocationSameMembers(s.kernel, s.pool, f.alloc);
  }

  // ---------- the file at start-up ----------

  lemma {:induction false} PrefixExtends(k: Kernel, p: Pool, lines: seq<BlacklistLine>, faults: seq<LineFaults>, i: nat)
    requires PoolOk(p) && i <= |lines| == |faults|
    ensures Extends(BlacklistSpec(k, p, lines[..i], faults[..i]).0, BlacklistSpec(k, p, lines, faults).0)
    decreases |lines|
  {
    if i == |lines| {
      assert lines[..i] == lines && faults[..i] == faults;
    } else {
      var n := |lines| - 1;
      assert lines[..n][..i] == lines[..i] && faults[..n][..i] == faults[..i];
      PrefixExtends(k, p, lines[..n], faults[..n], i);
      var (k1, p1) := BlacklistSpec(k, p, lines[..n], faults[..n]);
      LineExtends(k1, p1, lines[n], faults[n]);
      ExtendsTransitive(BlacklistSpec(k, p, lines[..i], faults[..i]).0, k1, BlacklistSpec(k, p, lines, faults).0);
    }
  }

  /** The set that the line is for has room, given the state it meets. */
  predicate LineHasRoom(k: Kernel, p: Pool, line: BlacklistLine, f: LineFaults)
    requires PoolOk(p) && line.Entry?
  {
    if line.lockout == 0 then HasRoom(k, PERMANENT) else RoomAhead(k, p, f.alloc)
  }

  function LineSet(k: Kernel, p: Pool, line: BlacklistLine, f: LineFaults): string
    requires PoolOk(p) && line.Entry?
  {
    if line.lockout == 0 then PERMANENT else SetAhead(k, p, f.alloc)
  }

  /**
   Every line of the file is tried, whatever became of the lines before it: an
   entry that meets room is in its set when the whole file is loaded.
   */
  lemma EveryLineTried(k: Kernel, p: Pool, lines: seq<BlacklistLine>, faults: seq<LineFaults>, i: nat)
    requires PoolOk(p) && Known(k, p) && i < |lines| == |faults|
    requires lines[i].Entry? && IsAddress(lines[i].ip) && faults[i].add
    requires var (k1, p1) := BlacklistSpec(k, p, lines[..i], faults[..i]); LineHasRoom(k1, p1, lines[i], faults[i])
    ensures var (k1, p1) := BlacklistSpec(k, p, lines[..i], faults[..i]);
            lines[i].ip in Members(BlacklistSpec(k, p, lines, faults).0, LineSet(k1, p1, lines[i], faults[i]))
  {
    var (k1, p1) := BlacklistSpec(k, p, lines[..i], faults[..i]);
    BlacklistKnown(k, p, lines[..i], faults[..i]);
    LineTakes(k1, p1, lines[i], faults[i]);
    assert lines[..i + 1][..i] == lines[..i] && faults[..i + 1][..i] == faults[..i];
    PrefixExtends(k, p, lines, faults, i + 1);
  }

  lemma LineTakes(k: Kernel, p: Pool, line: BlacklistLine, f: LineFaults)
    requires PoolOk(p) && Known(k, p) && line.Entry? && IsAddress(line.ip) && f.add && LineHasRoom(k, p, line, f)
    ensures line.ip in Members(LoadLineSpec(k, p, line, f).0, LineSet(k, p, line, f))
  {
    AllocationRoomIff(k, p, f.alloc);
  }

  /** A first start, with working commands, runs under the new settings and has loaded the whole file. */
  lemma StartLoadsFile(s: State, e: Event)
    requires StateOk(s) && Untouched(s.kernel) && e.Restart? && EventOk(e) && e.init == ALL_WORK && NoFaults(e.faults)
    ensures var s' := Step(s, e);
            && s'.up && s'.cfg == e.cfg && s'.db == s.db
            && (forall j :: 0 <= j < |e.lines| && IsTemporary(e.lines[j]) && IsAddress(e.lines[j].ip)
                            ==> InSomeTemporary(s'.kernel, s'.pool, e.lines[j].ip))
            && Members(s'.kernel, PERMANENT) <= PermanentAddresses(e.lines)
            && (PermanentAddresses(e.lines) <= Members(s'.kernel, PERMANENT)
                <==> |PermanentAddresses(e.lines)| <= 50000)
  {
    TemporaryEntriesLoaded(s.kernel, e.lines, e.faults);
    PermanentEntriesLoadedIff(s.kernel, e.lines, e.faults);
  }

  /** Allocation and size queries work, and the daemon is not restarted. */
  ghost predicate Steady(e: Event) {
    match e
    case Failure(_, _, _, _, _, f) => f.alloc.size && f.alloc.create
    case Restart(_, _, _, _, _) => false
    case _ => true
  }

  lemma AddKeepsRoomy(k: Kernel, p: Pool, name: string, ip: string, ok: bool)
    requires Roomy(k, p)
    ensures Roomy(Add(k, name, ip, ok).0, p)
  {
  }

  lemma BlockKeepsRoomy(s: State, ip: string, domain: string, now: int, f: BlockFaults)
    requires Roomy(s.kernel, s.pool) && f.alloc.size && f.alloc.create
    ensures Roomy(BlockSpec(s, ip, domain, now, f).kernel, BlockSpec(s, ip, domain, now, f).pool)
    ensures BlockLockout(s.cfg, domain) != 0 ==> (BlockTakes(s, ip, domain, f) <==> f.add && IsAddress(ip))
  {
    RoomyAllocates(s.kernel, s.pool, f.alloc);
    var (k, pool, name) := BlockTarget(s, domain, f);
    AddKeepsRoomy(k, pool, name, ip, f.add);
  }

  lemma StepRoomy(s: State, e: Event)
    requires StateOk(s) && EventOk(e) && Roomy(s.kernel, s.pool) && Steady(e)
    ensures Roomy(Step(s, e).kernel, Step(s, e).pool)
  {
    match e
    case Failure(ip, domain, reason, now, blockNow, f) =>
      BlockKeepsRoomy(CountedSpec(s, ip, domain, reason, now), ip, domain, blockNow, f);
    case Success(_, _) =>
    case Cleanup(_, _) =>
    case Restart(_, _, _, _, _) =>
  }

  lemma {:induction false} RunRoomy(s: State, events: seq<Event>)
    requires StateOk(s) && EventsOk(events) && Roomy(s.kernel, s.pool)
    requires forall i :: 0 <= i < |events| ==> Steady(events[i])
    ensures Roomy(Run(s, events).kernel, Run(s, events).pool)
    decreases |events|
  {
    if events != [] {
      var n := |events| - 1;
      RunRoomy(s, events[..n]);
      StepRoomy(Run(s, events[..n]), events[n]);
    }
  }

  /**
   A daemon first started on a fresh kernel: whatever its blacklist and its
   history, as long as it is not restarted and its size queries and creations
   work, every temporary block of an address takes effect.
   */
  lemma FreshDaemonBlocks(s0: State, start: Event, events: seq<Event>, ip: string, domain: string, f: BlockFaults)
    requires StateOk(s0) && Untouched(s0.kernel)
    requires start.Restart? && EventOk(start) && start.init == ALL_WORK && NoFaults(start.faults)
    requires EventsOk(events) && forall i :: 0 <= i < |events| ==> Steady(events[i])
    requires f.alloc.size && f.alloc.create && f.add
    ensures StateOk(Step(s0, start)) && Step(s0, start).up
    ensures var s := Run(Step(s0, start), events);
            && s.pool.next == |s.pool.temps| - 1
            && (BlockLockout(s.cfg, domain) != 0 ==> (BlockTakes(s, ip, domain, f) <==> IsAddress(ip)))
  {
    StepOk(s0, start);
    StartFilled(s0.kernel);
    var (k1, p0) := InitializeSpec(s0.kernel, ALL_WORK);
    LoadingFills(k1, p0.value, start.lines, start.faults);
    var s1 := Step(s0, start);
    assert Roomy(s1.kernel, s1.pool);
    RunRoomy(s1, events);
    BlockKeepsRoomy(Run(s1, events), ip, domain, 0, f);
  }

  /** A set opened by an allocation is behind a rule exactly when that one insertion worked. */
  lemma NewSetGuardedIff(k: Kernel, p: Pool, f: AllocFaults)
    requires PoolOk(p) && Known(k, p) && p.next + 1 == |p.temps| && f.size && f.create
    requires !HasRoom(k, p.temps[p.next])
    requires TempName(|p.temps|) !in k.sets && RuleCount(k, TempName(|p.temps|)) == 0
    ensures var (k', p', name) := AvailableSpec(k, p, f);
            name == TempName(|p.temps|) && (Guarded(k', name) <==> f.rule)
  {
    assert p.temps[p.next] in k.sets;
    var name := TempName(|p.temps|);
    InstallRuleCounts(Create(k, name, MAX_TEMPORARY, true).0, name, f.rule, name);
  }

  // ---------- clean release ----------

  /** No record of the address and domain is at the threshold. */
  ghost predicate BelowThreshold(mem: map<string, Strike>, ip: string, domain: string) {
    forall key :: key in mem && mem[key].ip == ip && mem[key].domain == domain ==> mem[key].count < THRESHOLD
  }

  /** The address has a row whose end is strictly before now. */
  predicate EndedRow(db: Db, ip: string, now: int) {
    ip in db.blocked && db.blocked[ip].lockoutExpires.Some? && db.blocked[ip].lockoutExpires.value < now
  }

  /** A record at the threshold never outlasts the row that its domain wrote. */
  ghost predicate RecordsEndFirst(db: Db) {
    forall p :: p in db.strikes && db.strikes[p].count >= THRESHOLD
                && p.0 in db.blocked && db.blocked[p.0].domain == p.1 && db.blocked[p.0].lockoutExpires.Some?
                ==> db.strikes[p].expiresAt.Some?
                    && db.strikes[p].expiresAt.value <= db.blocked[p.0].lockoutExpires.value
  }

  /** When the event answers "blocked", the address really was added. */
  ghost predicate Effective(s: State, e: Event)
    requires StateOk(s) && EventOk(e)
  {
    e.Failure? && s.up && FailureSpec(s, e.ip, e.domain, e.reason, e.now, e.blockNow, e.f).2
    ==> BlockTakes(CountedSpec(s, e.ip, e.domain, e.reason, e.now), e.ip, e.domain, e.f)
  }

  ghost predicate Orderly(e: Event) {
    match e
    case Failure(_, _, _, now, blockNow, _) => now <= blockNow
    case Restart(_, cfg, _, _, _) => NonNegative(cfg)
    case _ => true
  }

  lemma FailureKeepsRelease(s: State, e: Event)
    requires StateOk(s) && EventOk(e) && e.Failure? && s.up && Orderly(e) && Effective(s, e)
    requires RecordsEndFirst(s.db) && NonNegative(s.cfg)
    ensures RecordsEndFirst(Step(s, e).db)
  {
    var s1 := CountedSpec(s, e.ip, e.domain, e.reason, e.now);
    CountedOk(s, e.ip, e.domain, e.reason, e.now);
    var p, strike := (e.ip, e.domain), s1.mem[Key(e.ip, e.domain)];
    var s' := Step(s, e);
    assert s'.db.strikes == s.db.strikes[p := strike];
    if strike.count >= THRESHOLD {
      var row := NewRow(s1, e.domain, e.blockNow, e.f);
      assert s'.db.blocked == s.db.blocked[e.ip := row];
      StruckExpiry(s, e.ip, e.domain, e.reason, e.now);
      assert row.lockoutExpires.Some? ==> e.domain in s.cfg.domains && BlockLockout(s.cfg, e.domain) > 0;
    } else {
      assert s'.db.blocked == s.db.blocked;
    }
  }

  lemma StruckExpiry(s: State, ip: string, domain: string, reason: string, now: int)
    ensures StrikeLockout(s.cfg, domain) > 0 ==>
              CountedSpec(s, ip, domain, reason, now).mem[Key(ip, domain)].expiresAt
              == Some(AddMinutes(now, StrikeLockout(s.cfg, domain)))
  {
  }

  lemma StepKeepsRelease(s: State, e: Event)
    requires StateOk(s) && EventOk(e) && Orderly(e) && Effective(s, e)
    requires RecordsEndFirst(s.db) && NonNegative(s.cfg)
    ensures RecordsEndFirst(Step(s, e).db) && NonNegative(Step(s, e).cfg)
  {
    match e
    case Failure(_, _, _, _, _, _) => if s.up { FailureKeepsRelease(s, e); }
    case Success(_, _) =>
    case Cleanup(_, _) =>
    case Restart(_, _, _, _, _) =>
  }

  ghost predicate AllEffective(s: State, events: seq<Event>)
    requires StateOk(s) && EventsOk(events)
    decreases |events|
  {
    events == [] ||
      var n := |events| - 1;
      AllEffective(s, events[..n]) && Orderly(events[n]) && Effective(Run(s, events[..n]), events[n])
  }

  lemma {:induction false} RunKeepsRelease(s: State, events: seq<Event>)
    requires StateOk(s) && EventsOk(events) && AllEffective(s, events)
    requires RecordsEndFirst(s.db) && NonNegative(s.cfg)
    ensures RecordsEndFirst(Run(s, events).db) && NonNegative(Run(s, events).cfg)
    decreases |events|
  {
    if events != [] {
      var n := |events| - 1;
      RunKeepsRelease(s, events[..n]);
      StepKeepsRelease(Run(s, events[..n]), events[n]);
    }
  }

  /**
   Clean release: after any run from an installation without strikes, in which
   every answered block was added, the pass that releases an address also
   drops the record of the domain that its row names, if that was at the
   threshold; the address starts again below it.
   */
  lemma CleanRelease(s0: State, t0: int, events: seq<Event>, now: int, delOk: set<string>, ip: string)
    requires NoStrikes(s0) && NonNegative(s0.cfg)
    requires EventsOk(events) && LoadsInOrder(t0, events) && AllEffective(s0, events)
    requires Run(s0, events).up && EndedRow(Run(s0, events).db, ip, now)
    ensures var s, s' := Run(s0, events), CleanupSpec(Run(s0, events), now, delOk);
            ip !in s'.db.blocked && BelowThreshold(s'.mem, ip, s.db.blocked[ip].domain)
  {
    RunAgrees(s0, t0, events);
    RunKeepsRelease(s0, events);
    var s, h := Run(s0, events), LogFrom(s0, t0, events);
    forall key | key in s.mem ensures InTable(s.mem[key], s.db) {
      MemIsTable(s, h, key);
    }
    PassIsClean(s, now, delOk, ip);
  }

  ghost predicate InTable(strike: Strike, db: Db) {
    (strike.ip, strike.domain) in db.strikes && db.strikes[(strike.ip, strike.domain)] == strike
  }

  lemma PassIsClean(s: State, now: int, delOk: set<string>, ip: string)
    requires forall key :: key in s.mem ==> InTable(s.mem[key], s.db)
    requires RecordsEndFirst(s.db) && EndedRow(s.db, ip, now)
    ensures var s' := CleanupSpec(s, now, delOk);
            ip !in s'.db.blocked && BelowThreshold(s'.mem, ip, s.db.blocked[ip].domain)
  {
    var s' := CleanupSpec(s, now, delOk);
    forall key | key in s'.mem && s'.mem[key].ip == ip && s'.mem[key].domain == s.db.blocked[ip].domain
      ensures s'.mem[key].count < THRESHOLD
    {
      assert InTable(s.mem[key], s.db);
    }
  }

  lemma MemIsTable(s: State, h: History, key: string)
    requires StateOk(s) && s.up && Agrees(s, h) && key in s.mem
    ensures InTable(s.mem[key], s.db)
  {
    KeyRoundTrip(s.mem[key].ip, s.mem[key].domain);
    var p := SplitKey(key);
    assert p in h.log && p in s.db.strikes && key == Key(p.0, p.1);
  }

  /**
   With no assumption on the blocks: the pass leaves a record of the address
   and domain at the threshold exactly when their failures on record charge
   three or more and the last expiry among them is not before the pass.
   */
  lemma ReleaseIsCleanIff(s0: State, t0: int, events: seq<Event>, now: int, delOk: set<string>,
                          ip: string, domain: string)
    requires NoStrikes(s0) && IsDomain(domain)
    requires EventsOk(events) && LoadsInOrder(t0, events) && Run(s0, events).up
    ensures var log := LogOf(LogFrom(s0, t0, events), (ip, domain));
            (BelowThreshold(CleanupSpec(Run(s0, events), now, delOk).mem, ip, domain)
             <==> Charged(log) < THRESHOLD || EndedBefore(log, now))
  {
    RunAgrees(s0, t0, events);
    PassLeavesIff(Run(s0, events).mem, LogFrom(s0, t0, events), now, ip, domain);
  }

  lemma OneRecord(mem: map<string, Strike>, ip: string, domain: string)
    requires MemOk(mem) && IsDomain(domain)
    ensures BelowThreshold(mem, ip, domain) <==> Key(ip, domain) !in mem || mem[Key(ip, domain)].count < THRESHOLD
  {
    if Key(ip, domain) in mem {
      OwnRecord(mem, ip, domain);
    }
  }

  lemma PassLeavesIff(mem: map<string, Strike>, h: History, now: int, ip: string, domain: string)
    requires MemOk(mem) && MemAgrees(mem, h) && IsDomain(domain)
    ensures BelowThreshold(mem - Stale(mem, now), ip, domain)
       <==> Charged(LogOf(h, (ip, domain))) < THRESHOLD || EndedBefore(LogOf(h, (ip, domain)), now)
  {
    LookupAgrees(mem, h, ip, domain);
    OneRecord(mem - Stale(mem, now), ip, domain);
    RecordLeftIff(mem, Key(ip, domain), now, (ip, domain), LogOf(h, (ip, domain)));
  }

  lemma RecordLeftIff(mem: map<string, Strike>, key: string, now: int, p: (string, string), log: seq<Fail>)
    requires Lookup(mem, key) == SummaryOf(p, log)
    ensures var left := mem - Stale(mem, now);
            (key !in left || left[key].count < THRESHOLD <==> Charged(log) < THRESHOLD || EndedBefore(log, now))
  {
    if log == [] {
      assert Charged(log) == 0;
    }
  }

  // ---------- what a release leaves ----------

  /**
   A released address has no row any more, and is still dropped exactly by the
   other sets that hold it, and by its own when the deletion failed.
   */
  lemma StillDroppedIff(s: State, now: int, delOk: set<string>, ip: string, name: string)
    requires StateOk(s) && EndedRow(s.db, ip, now) && IsAddress(ip)
    ensures ip !in CleanupSpec(s, now, delOk).db.blocked
    ensures ip in Members(CleanupSpec(s, now, delOk).kernel, name)
       <==> ip in Members(s.kernel, name) && (name != s.db.blocked[ip].ipsetName || ip !in delOk)
  {
    assert ip in Released(s.db.blocked, now);
  }

  /**
   So a block taken over by another domain, into another set, leaves a trace:
   the row moves, the old membership does not, the release misses it, and it
   stays until the address is blocked into that set and released once more.
   */
  lemma TakeoverLeavesOldSet(s: State, ip: string, domain: string, now: int, f: BlockFaults, later: int,
                             delOk: set<string>, events: seq<Event>)
    requires StateOk(s) && s.up && BlocksOk(s) && ip in s.db.blocked && IsAddress(ip) && ip in delOk
    requires BlockTakes(s, ip, domain, f) && BlockTarget(s, domain, f).2 != s.db.blocked[ip].ipsetName
    requires BlockLockout(s.cfg, domain) != 0 && AddMinutes(now, BlockLockout(s.cfg, domain)) < later
    requires EventsOk(events)
    requires NeverTakenOut(Run(BlockSpec(s, ip, domain, now, f), [Cleanup(later, delOk)]), events, ip,
                           s.db.blocked[ip].ipsetName)
    ensures var s' := Run(BlockSpec(s, ip, domain, now, f), [Cleanup(later, delOk)]);
            ip !in s'.db.blocked && ip in Members(Run(s', events).kernel, s.db.blocked[ip].ipsetName)
  {
    var s1 := BlockSpec(s, ip, domain, now, f);
    var s' := Run(s1, [Cleanup(later, delOk)]);
    RunOne(s1, Cleanup(later, delOk));
    BlockKeeps(s, ip, domain, now, f);
    assert RowOk(s.kernel, ip, s.db.blocked[ip]);
    StillDroppedIff(s1, later, delOk, ip, s.db.blocked[ip].ipsetName);
    MemberStays(s', events, ip, s.db.blocked[ip].ipsetName);
  }

  // ---------- how long a block lasts ----------

  /** This failure blocks the address and writes this row for it. */
  predicate WritesRow(s: State, e: Event, ip: string, row: BlockRow)
    requires StateOk(s) && EventOk(e)
  {
    && e.Failure? && e.ip == ip && s.up
    && FailureSpec(s, ip, e.domain, e.reason, e.now, e.blockNow, e.f).2
    && BlockTakes(s, ip, e.domain, e.f) && row == NewRow(s, e.domain, e.blockNow, e.f)
  }

  ghost predicate WrittenAt(s: State, events: seq<Event>, ip: string, row: BlockRow, i: int)
    requires StateOk(s) && EventsOk(events)
  {
    0 <= i < |events| && WritesRow(Run(s, events[..i]), events[i], ip, row)
  }

  ghost predicate WrittenIn(s: State, events: seq<Event>, ip: string, row: BlockRow)
    requires StateOk(s) && EventsOk(events)
  {
    exists i :: WrittenAt(s, events, ip, row, i)
  }

  lemma WrittenInPrefix(s: State, events: seq<Event>, ip: string, row: BlockRow, n: nat)
    requires StateOk(s) && EventsOk(events) && n <= |events| && WrittenIn(s, events[..n], ip, row)
    ensures exists i :: i < n && WrittenAt(s, events, ip, row, i)
  {
    var i :| WrittenAt(s, events[..n], ip, row, i);
    WrittenAtPrefix(s, events, ip, row, n, i);
  }

  lemma WrittenAtPrefix(s: State, events: seq<Event>, ip: string, row: BlockRow, n: nat, i: nat)
    requires StateOk(s) && EventsOk(events) && n <= |events| && WrittenAt(s, events[..n], ip, row, i)
    ensures i < n && WrittenAt(s, events, ip, row, i)
  {
    assert events[..n][..i] == events[..i];
  }

  /** A row that is not the one of the beginning was written by a failure on the way. */
  lemma {:induction false} RowOrigin(s: State, events: seq<Event>, ip: string)
    requires StateOk(s) && EventsOk(events) && ip in Run(s, events).db.blocked
    ensures var row := Run(s, events).db.blocked[ip];
            (ip in s.db.blocked && row == s.db.blocked[ip]) || WrittenIn(s, events, ip, row)
    decreases |events|
  {
    if events != [] {
      var n := |events| - 1;
      var before, row := Run(s, events[..n]), Run(s, events).db.blocked[ip];
      RowStep(before, events[n], ip);
      if WritesRow(before, events[n], ip, row) {
        assert WrittenAt(s, events, ip, row, n);
      } else {
        RowOrigin(s, events[..n], ip);
        if WrittenIn(s, events[..n], ip, row) {
          WrittenInPrefix(s, events, ip, row, n);
        }
      }
    }
  }

  lemma RowStep(s: State, e: Event, ip: string)
    requires StateOk(s) && EventOk(e) && ip in Step(s, e).db.blocked
    ensures var row := Step(s, e).db.blocked[ip];
            WritesRow(s, e, ip, row) || (ip in s.db.blocked && row == s.db.blocked[ip])
  {
  }

  ghost predicate MemberAt(s: State, events: seq<Event>, ip: string, name: string, n: int)
    requires StateOk(s) && EventsOk(events)
  {
    0 <= n <= |events| && ip in Members(Run(s, events[..n]).kernel, name)
  }

  /** Event j takes the address out of the set. */
  ghost predicate TakenAt(s: State, events: seq<Event>, ip: string, name: string, j: int)
    requires StateOk(s) && EventsOk(events)
  {
    0 <= j < |events| && TakesOut(Run(s, events[..j]), events[j], ip, name)
  }

  /** The address is in the set all the way. */
  ghost predicate Kept(s: State, events: seq<Event>, ip: string, name: string)
    requires StateOk(s) && EventsOk(events)
  {
    forall n :: 0 <= n <= |events| ==> MemberAt(s, events, ip, name, n)
  }

  lemma NextMember(s: State, events: seq<Event>, ip: string, name: string, j: nat)
    requires StateOk(s) && EventsOk(events) && j < |events| && MemberAt(s, events, ip, name, j)
    ensures MemberAt(s, events, ip, name, j + 1) <==> !TakenAt(s, events, ip, name, j)
  {
    assert events[..j + 1][..j] == events[..j];
    MemberStaysIff(Run(s, events[..j]), events[j], ip, name);
  }

  lemma {:induction false} KeptUpTo(s: State, events: seq<Event>, ip: string, name: string, n: nat)
    requires StateOk(s) && EventsOk(events) && ip in Members(s.kernel, name) && n <= |events|
    requires forall j :: 0 <= j < n ==> !TakenAt(s, events, ip, name, j)
    ensures MemberAt(s, events, ip, name, n)
  {
    if n == 0 {
      assert events[..0] == [];
    } else {
      KeptUpTo(s, events, ip, name, n - 1);
      NextMember(s, events, ip, name, n - 1);
    }
  }

  lemma KeptIff(s: State, events: seq<Event>, ip: string, name: string)
    requires StateOk(s) && EventsOk(events) && ip in Members(s.kernel, name)
    ensures Kept(s, events, ip, name) <==> forall j :: 0 <= j < |events| ==> !TakenAt(s, events, ip, name, j)
  {
    if Kept(s, events, ip, name) {
      forall j | 0 <= j < |events| ensures !TakenAt(s, events, ip, name, j) {
        assert MemberAt(s, events, ip, name, j) && MemberAt(s, events, ip, name, j + 1);
        NextMember(s, events, ip, name, j);
      }
    }
    if forall j :: 0 <= j < |events| ==> !TakenAt(s, events, ip, name, j) {
      forall n | 0 <= n <= |events| ensures MemberAt(s, events, ip, name, n) {
        KeptUpTo(s, events, ip, name, n);
      }
    }
  }

  /** Failure i blocked the address again, and pass j releases it by that row, out of this set. */
  ghost predicate CutsShort(s: State, events: seq<Event>, ip: string, name: string, i: int, j: int)
    requires StateOk(s) && EventsOk(events)
  {
    && 0 <= i < j && TakenAt(s, events, ip, name, j)
    && WrittenAt(s, events, ip, Run(s, events[..j]).db.blocked[ip], i)
  }

  /** The row of failure i ends by that failure's own lockout, before pass j. */
  lemma CutBefore(s: State, events: seq<Event>, ip: string, name: string, i: int, j: int)
    requires StateOk(s) && EventsOk(events) && CutsShort(s, events, ip, name, i, j)
    ensures var lockout := BlockLockout(Run(s, events[..i]).cfg, events[i].domain);
            lockout != 0 && AddMinutes(events[i].blockNow, lockout) < events[j].now
  {
  }

  /**
   A block lasts to the end of its lockout, unless it is cut short: over a run
   whose passes are not after that end, the address stays in its set all the
   way exactly when no pass releases it by the row of a later re-block into the
   same set, a row that by its own lockout has ended before the pass.
   */
  lemma LockoutServedIff(s: State, events: seq<Event>, ip: string, until: int)
    requires StateOk(s) && EventsOk(events) && BlocksOk(s) && ip in s.db.blocked
    requires s.db.blocked[ip].lockoutExpires == Some(until)
    requires forall j :: 0 <= j < |events| && events[j].Cleanup? ==> events[j].now <= until
    ensures var name := s.db.blocked[ip].ipsetName;
            Kept(s, events, ip, name) <==> !exists i, j :: CutsShort(s, events, ip, name, i, j)
  {
    var name := s.db.blocked[ip].ipsetName;
    assert RowOk(s.kernel, ip, s.db.blocked[ip]);
    KeptIff(s, events, ip, name);
    forall j | 0 <= j < |events| && TakenAt(s, events, ip, name, j)
      ensures exists i :: CutsShort(s, events, ip, name, i, j)
    {
      TakenByLaterRow(s, events, ip, name, until, j);
    }
  }

  lemma TakenByLaterRow(s: State, events: seq<Event>, ip: string, name: string, until: int, j: nat)
    requires StateOk(s) && EventsOk(events) && ip in s.db.blocked && s.db.blocked[ip].lockoutExpires == Some(until)
    requires TakenAt(s, events, ip, name, j) && events[j].now <= until
    ensures exists i :: CutsShort(s, events, ip, name, i, j)
  {
    var row := Run(s, events[..j]).db.blocked[ip];
    RowOrigin(s, events[..j], ip);
    assert row.lockoutExpires != Some(until);
    WrittenInPrefix(s, events, ip, row, j);
    var i :| i < j && WrittenAt(s, events, ip, row, i);
    assert CutsShort(s, events, ip, name, i, j);
  }
}
