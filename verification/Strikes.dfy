/**
 The strike tracker: strikes in memory and in SQLite, blocks in SQLite and in
 the kernel. First every operation as a function of the daemon's whole state,
 then the tracker itself.
 */
module Strikes {
  import opened Prelude
  import opened Firewall
  import opened IpsetManager
  import opened Config

  /** Times are nanoseconds. */
  const MINUTE := 60_000_000_000

  const THRESHOLD := 3

  datatype Strike = Strike(ip: string, domain: string, count: nat, firstFailure: int, lastFailure: int,
                           excused: bool, expiresAt: Option<int>)

  datatype BlockRow = BlockRow(domain: string, blockedAt: int, lockoutExpires: Option<int>, ipsetName: string)

  /** The two tables, by primary key. */
  datatype Db = Db(strikes: map<(string, string), Strike>, blocked: map<string, BlockRow>)

  /** The machine: kernel and database outlive the daemon; the rest is its memory, meaningless while it is down. */
  datatype State = State(kernel: Kernel, db: Db, up: bool, cfg: Config, pool: Pool, mem: map<string, Strike>)

  // ---------- keys ----------

  function Key(ip: string, domain: string): string {
    ip + ":" + domain
  }

  ghost predicate IsDomain(domain: string) {
    ':' !in domain
  }

  /** The key split at its last ':'. */
  function SplitKey(key: string): (string, string) {
    if key == "" then ("", "")
    else if key[|key| - 1] == ':' then (key[..|key| - 1], "")
    else
      var (ip, domain) := SplitKey(key[..|key| - 1]);
      (ip, domain + [key[|key| - 1]])
  }

  /** A key determines its address and domain when the domain has no ':'; addresses may have some. */
  lemma {:induction false} KeyRoundTrip(ip: string, domain: string)
    requires IsDomain(domain)
    ensures SplitKey(Key(ip, domain)) == (ip, domain)
  {
    var key := Key(ip, domain);
    if domain == "" {
      assert key[..|key| - 1] == ip;
    } else {
      var front := domain[..|domain| - 1];
      assert key[..|key| - 1] == Key(ip, front);
      KeyRoundTrip(ip, front);
      assert domain == front + [domain[|domain| - 1]];
    }
  }

  /** A key that has a ':' is rebuilt from its two parts. */
  lemma {:induction false} SplitKeyRejoins(key: string)
    requires ':' in key
    ensures Key(SplitKey(key).0, SplitKey(key).1) == key && IsDomain(SplitKey(key).1)
  {
    var front, last := key[..|key| - 1], key[|key| - 1];
    assert key == front + [last];
    if last != ':' {
      SplitKeyRejoins(front);
      var (ip, domain) := SplitKey(front);
      assert Key(ip, domain + [last]) == Key(ip, domain) + [last];
    }
  }

  ghost predicate SharesKey(ip: string, domain: string, ip': string, domain': string) {
    IsDomain(domain') && (ip', domain') != (ip, domain) && Key(ip', domain') == Key(ip, domain)
  }

  /** Exactly the pairs whose domain has a ':' share their record with a well-formed pair. */
  lemma ColonDomainsCollide(ip: string, domain: string)
    ensures ':' in domain <==> exists ip', domain' :: SharesKey(ip, domain, ip', domain')
    ensures SharesKey("a", "b:c", "a:b", "c")
  {
    var key := Key(ip, domain);
    if ':' in domain {
      assert ':' in key;
      SplitKeyRejoins(key);
      assert SharesKey(ip, domain, SplitKey(key).0, SplitKey(key).1);
    }
    if ip', domain' :| SharesKey(ip, domain, ip', domain') {
      KeyRoundTrip(ip', domain');
      if IsDomain(domain) {
        KeyRoundTrip(ip, domain);
      }
    }
    assert Key("a", "b:c") == "a:b:c" == Key("a:b", "c");
  }

  // ---------- operations ----------

  /** Every record sits under its own key. */
  ghost predicate MemOk(mem: map<string, Strike>) {
    forall key :: key in mem ==> key == Key(mem[key].ip, mem[key].domain) && IsDomain(mem[key].domain)
  }

  ghost predicate TableOk(table: map<(string, string), Strike>) {
    forall p :: p in table ==> p == (table[p].ip, table[p].domain) && IsDomain(p.1)
  }

  /** What every operation may rely on. */
  ghost predicate StateOk(s: State) {
    PoolOk(s.pool) && MemOk(s.mem) && TableOk(s.db.strikes)
  }

  /** Which commands of one block work. */
  datatype BlockFaults = BlockFaults(alloc: AllocFaults, add: bool)

  function AddMinutes(t: int, minutes: int): int {
    t + minutes * MINUTE
  }

  /** The record after one more failure. */
  function Struck(record: Option<Strike>, ip: string, domain: string, timeout: bool, mayExcuse: bool, lockout: int,
                  now: int): Strike
  {
    var s0 := if record.Some? then record.value else Strike(ip, domain, 0, now, now, false, None);
    var s1 := if timeout && mayExcuse && !s0.excused then s0.(excused := true)
              else s0.(count := s0.count + 1, lastFailure := now);
    if lockout > 0 then s1.(expiresAt := Some(AddMinutes(now, lockout))) else s1
  }

  /** Where a block of this domain goes: the permanent set, or the temporary set allocated for it. */
  function BlockTarget(s: State, domain: string, f: BlockFaults): (r: (Kernel, Pool, string))
    requires PoolOk(s.pool)
    ensures PoolOk(r.1)
  {
    if BlockLockout(s.cfg, domain) == 0 then (s.kernel, s.pool, PERMANENT) else AvailableSpec(s.kernel, s.pool, f.alloc)
  }

  /** AddIP succeeds. */
  predicate BlockTakes(s: State, ip: string, domain: string, f: BlockFaults)
    requires PoolOk(s.pool)
  {
    var (k, pool, name) := BlockTarget(s, domain, f);
    Add(k, name, ip, f.add).1
  }

  /** The row a successful block writes. */
  function NewRow(s: State, domain: string, now: int, f: BlockFaults): BlockRow
    requires PoolOk(s.pool)
  {
    var lockout := BlockLockout(s.cfg, domain);
    BlockRow(domain, now, if lockout == 0 then None else Some(AddMinutes(now, lockout)), BlockTarget(s, domain, f).2)
  }

  function BlockSpec(s: State, ip: string, domain: string, now: int, f: BlockFaults): (r: State)
    requires PoolOk(s.pool)
    ensures PoolOk(r.pool)
  {
    var (k1, pool, name) := BlockTarget(s, domain, f);
    var s1 := s.(kernel := Add(k1, name, ip, f.add).0, pool := pool);
    if BlockTakes(s, ip, domain, f)
    then s1.(db := s.db.(blocked := s.db.blocked[ip := NewRow(s, domain, now, f)]))
    else s1
  }

  function Lookup(mem: map<string, Strike>, key: string): Option<Strike> {
    if key in mem then Some(mem[key]) else None
  }

  /** The state once the failure is counted and saved, before any block. */
  function CountedSpec(s: State, ip: string, domain: string, reason: string, now: int): State {
    var strike := Struck(Lookup(s.mem, Key(ip, domain)), ip, domain, reason == "timeout",
                         StrikeExcuse(s.cfg, domain), StrikeLockout(s.cfg, domain), now);
    s.(mem := s.mem[Key(ip, domain) := strike],
       db := s.db.(strikes := s.db.strikes[(strike.ip, strike.domain) := strike]))
  }

  /** `RecordFailure`: the new state, and the answer. The second clock reading is the one of blockIP. */
  function FailureSpec(s: State, ip: string, domain: string, reason: string, now: int, blockNow: int, f: BlockFaults)
    : (State, nat, bool)
    requires PoolOk(s.pool)
  {
    var s1 := CountedSpec(s, ip, domain, reason, now);
    var count := s1.mem[Key(ip, domain)].count;
    if count >= THRESHOLD then (BlockSpec(s1, ip, domain, blockNow, f), count, true) else (s1, count, false)
  }

  function SuccessSpec(s: State, ip: string, domain: string): State {
    if Key(ip, domain) in s.mem
    then s.(mem := s.mem - {Key(ip, domain)}, db := s.db.(strikes := s.db.strikes - {(ip, domain)}))
    else s
  }

  /** `Before(now)`, and `< ?` in SQL. */
  predicate Lapsed(expiry: Option<int>, now: int) {
    expiry.Some? && expiry.value < now
  }

  /** The addresses a cleanup pass releases. */
  function Released(blocked: map<string, BlockRow>, now: int): set<string> {
    set ip | ip in blocked && Lapsed(blocked[ip].lockoutExpires, now)
  }

  /** Released addresses leave the set their row names, when the deletion works. */
  function ReleasedKernel(k: Kernel, blocked: map<string, BlockRow>, gone: set<string>): Kernel {
    k.(sets := map name | name in k.sets ::
         var out := set ip | ip in gone && ip in blocked && blocked[ip].ipsetName == name && IsAddress(ip);
         k.sets[name].(members := k.sets[name].members - out))
  }

  /** The records a cleanup pass drops, and their rows. */
  function Stale(mem: map<string, Strike>, now: int): set<string> {
    set key | key in mem && Lapsed(mem[key].expiresAt, now)
  }

  function Pairs(mem: map<string, Strike>, keys: set<string>): set<(string, string)> {
    set key | key in keys && key in mem :: (mem[key].ip, mem[key].domain)
  }

  function CleanupSpec(s: State, now: int, delOk: set<string>): State {
    var stale, out := Stale(s.mem, now), Released(s.db.blocked, now);
    s.(mem := s.mem - stale,
       db := Db(s.db.strikes - Pairs(s.mem, stale), s.db.blocked - out),
       kernel := ReleasedKernel(s.kernel, s.db.blocked, out * delOk))
  }

  /** `expires_at IS NULL OR expires_at > ?`. */
  predicate StillLive(expiry: Option<int>, now: int) {
    expiry.None? || expiry.value > now
  }

  function LoadStrikes(table: map<(string, string), Strike>, now: int): map<string, Strike>
    requires TableOk(table)
  {
    map key | key in (set p | p in table && StillLive(table[p].expiresAt, now) :: Key(p.0, p.1)) :: (
      assert SplitKey(key) in table by {
        var p :| p in table && key == Key(p.0, p.1);
        KeyRoundTrip(p.0, p.1);
      }
      table[SplitKey(key)])
  }

  lemma LoadedOk(table: map<(string, string), Strike>, now: int)
    requires TableOk(table)
    ensures MemOk(LoadStrikes(table, now))
    ensures forall p :: p in table ==> (Key(p.0, p.1) in LoadStrikes(table, now)
                                        <==> StillLive(table[p].expiresAt, now))
    ensures forall p :: p in table && StillLive(table[p].expiresAt, now) ==>
              LoadStrikes(table, now)[Key(p.0, p.1)] == table[p]
    ensures forall key :: key in LoadStrikes(table, now) ==>
              SplitKey(key) in table && LoadStrikes(table, now)[key] == table[SplitKey(key)]
  {
    forall p | p in table ensures SplitKey(Key(p.0, p.1)) == p {
      KeyRoundTrip(p.0, p.1);
    }
  }

  /** Process end and start: memory is lost, sets are re-created, the blacklist and then the strikes are loaded. */
  function RestartSpec(s: State, now: int, cfg: Config, init: InitFaults, lines: seq<BlacklistLine>,
                       faults: seq<LineFaults>): State
    requires TableOk(s.db.strikes) && |lines| == |faults|
  {
    var (k1, pool) := InitializeSpec(s.kernel, init);
    if pool.None? then s.(kernel := k1, up := false, mem := map[]) else
      assert PoolOk(pool.value);
      var (k2, pool2) := BlacklistSpec(k1, pool.value, lines, faults);
      State(k2, s.db, true, cfg, pool2, LoadStrikes(s.db.strikes, now))
  }

  // ---------- runs ----------

  datatype Event =
    | Failure(ip: string, domain: string, reason: string, now: int, blockNow: int, f: BlockFaults)
    | Success(ip: string, domain: string)
    | Cleanup(now: int, delOk: set<string>)
    | Restart(now: int, cfg: Config, init: InitFaults, lines: seq<BlacklistLine>, faults: seq<LineFaults>)

  ghost predicate EventOk(e: Event) {
    match e
    case Failure(_, domain, _, _, _, _) => IsDomain(domain)
    case Success(_, domain) => IsDomain(domain)
    case Cleanup(_, _) => true
    case Restart(_, _, _, lines, faults) => |lines| == |faults|
  }

  /** Without a daemon only a restart does anything. */
  function Step(s: State, e: Event): State
    requires StateOk(s) && EventOk(e)
  {
    match e
    case Failure(ip, domain, reason, now, blockNow, f) =>
      if s.up then FailureSpec(s, ip, domain, reason, now, blockNow, f).0 else s
    case Success(ip, domain) => if s.up then SuccessSpec(s, ip, domain) else s
    case Cleanup(now, delOk) => if s.up then CleanupSpec(s, now, delOk) else s
    case Restart(now, cfg, init, lines, faults) => RestartSpec(s, now, cfg, init, lines, faults)
  }

  /** The record that a failure updates is the pair's own. */
  lemma OwnRecord(mem: map<string, Strike>, ip: string, domain: string)
    requires MemOk(mem) && IsDomain(domain) && Key(ip, domain) in mem
    ensures mem[Key(ip, domain)].ip == ip && mem[Key(ip, domain)].domain == domain
  {
    var s := mem[Key(ip, domain)];
    KeyRoundTrip(ip, domain);
    KeyRoundTrip(s.ip, s.domain);
  }

  lemma CountedOk(s: State, ip: string, domain: string, reason: string, now: int)
    requires StateOk(s) && IsDomain(domain)
    ensures StateOk(CountedSpec(s, ip, domain, reason, now))
    ensures CountedSpec(s, ip, domain, reason, now).mem[Key(ip, domain)].ip == ip
    ensures CountedSpec(s, ip, domain, reason, now).mem[Key(ip, domain)].domain == domain
  {
    if Key(ip, domain) in s.mem {
      OwnRecord(s.mem, ip, domain);
    }
  }

  lemma StepOk(s: State, e: Event)
    requires StateOk(s) && EventOk(e)
    ensures StateOk(Step(s, e))
  {
    match e
    case Failure(ip, domain, reason, now, _, _) => CountedOk(s, ip, domain, reason, now);
    case Success(_, _) =>
    case Cleanup(_, _) =>
    case Restart(now, _, _, _, _) => LoadedOk(s.db.strikes, now);
  }

  ghost predicate EventsOk(events: seq<Event>) {
    forall i :: 0 <= i < |events| ==> EventOk(events[i])
  }

  function Run(s: State, events: seq<Event>): (r: State)
    requires StateOk(s) && EventsOk(events)
    ensures StateOk(r)
    decreases |events|
  {
    if events == [] then s else
      var n := |events| - 1;
      var before := Run(s, events[..n]);
      StepOk(before, events[n]);
      Step(before, events[n])
  }

  lemma RunOne(s: State, e: Event)
    requires StateOk(s) && EventOk(e)
    ensures Run(s, [e]) == Step(s, e)
  {
    assert [e][..0] == [];
  }

  lemma {:induction false} RunConcat(s: State, past: seq<Event>, events: seq<Event>)
    requires StateOk(s) && EventsOk(past) && EventsOk(events)
    ensures EventsOk(past + events) && Run(s, past + events) == Run(Run(s, past), events)
    decreases |events|
  {
    if events == [] {
      assert past + events == past;
    } else {
      var n := |events| - 1;
      RunConcat(s, past, events[..n]);
      assert (past + events)[..|past + events| - 1] == past + events[..n];
    }
  }

  // ---------- the tracker ----------

  /** The row loop of `loadStrikes`, the rows in any order. */
  method LoadRows(table: map<(string, string), Strike>, now: int) returns (strikes: map<string, Strike>)
    requires TableOk(table)
    ensures strikes == LoadStrikes(table, now)
  {
    strikes := map[];
    var rows := set p | p in table && StillLive(table[p].expiresAt, now);
    ghost var all := rows;
    forall p | p in table ensures SplitKey(Key(p.0, p.1)) == p {
      KeyRoundTrip(p.0, p.1);
    }
    while rows != {}
      invariant rows <= all
      invariant forall p :: p in all && p !in rows ==> Key(p.0, p.1) in strikes
      invariant forall key :: key in strikes ==> SplitKey(key) in all && key == Key(SplitKey(key).0, SplitKey(key).1)
      invariant forall key :: key in strikes ==> strikes[key] == table[SplitKey(key)]
      decreases rows
    {
      var p :| p in rows;
      rows := rows - {p};
      var s := table[p];
      strikes := strikes[s.ip + ":" + s.domain := s];
    }
    LoadedOk(table, now);
  }

  class Database {
    var strikes: map<(string, string), Strike>
    var blocked: map<string, BlockRow>

    constructor (db: Db)
      ensures State() == db
    {
      strikes, blocked := db.strikes, db.blocked;
    }

    ghost function State(): Db
      reads this
    {
      Db(strikes, blocked)
    }
  }

  class Tracker {
    const db: Database
    const config: Config
    const ipsetMgr: Manager
    var strikes: map<string, Strike>

    ghost function Machine(): State
      reads this, db, ipsetMgr, ipsetMgr.fw
    {
      State(ipsetMgr.fw.State(), db.State(), true, config, ipsetMgr.State(), strikes)
    }

    ghost predicate Valid()
      reads this, db, ipsetMgr, ipsetMgr.fw
    {
      ipsetMgr.Valid() && StateOk(Machine())
    }

    constructor (db: Database, config: Config, ipsetMgr: Manager, now: int)
      requires ipsetMgr.Valid() && TableOk(db.strikes)
      ensures this.db == db && this.config == config && this.ipsetMgr == ipsetMgr
      ensures Valid() && strikes == LoadStrikes(db.strikes, now)
    {
      this.db, this.config, this.ipsetMgr := db, config, ipsetMgr;
      strikes := map[];
      new;
      strikes := LoadRows(db.strikes, now);
      LoadedOk(db.strikes, now);
    }

    method SaveStrike(strike: Strike)
      modifies db`strikes
      ensures db.strikes == old(db.strikes)[(strike.ip, strike.domain) := strike]
    {
      db.strikes := db.strikes[(strike.ip, strike.domain) := strike];
    }

    method BlockIP(ip: string, domain: string, now: int, f: BlockFaults)
      requires Valid()
      modifies db`blocked, ipsetMgr, ipsetMgr.fw
      ensures Valid() && Machine() == BlockSpec(old(Machine()), ip, domain, now, f)
    {
      var domainCfg := GetDomainConfig(config, domain);
      var lockout := if domainCfg.None? then 0 else domainCfg.value.lockout;
      var expires: Option<int> := None;
      var name := PERMANENT;
      if lockout != 0 {
        name := ipsetMgr.GetAvailableTemporarySet(f.alloc);
        expires := Some(AddMinutes(now, lockout));
      }
      var added := ipsetMgr.fw.AddIPToSet(name, ip, f.add);
      if !added {
        return;
      }
      db.blocked := db.blocked[ip := BlockRow(domain, now, expires, name)];
    }

    /** RecordFailure up to the threshold test: the record is updated in memory and saved. */
    method CountFailure(ip: string, domain: string, reason: string, now: int) returns (strike: Strike)
      requires Valid() && IsDomain(domain)
      modifies this, db`strikes
      ensures Valid() && Machine() == CountedSpec(old(Machine()), ip, domain, reason, now)
      ensures Key(ip, domain) in strikes && strike == strikes[Key(ip, domain)]
    {
      CountedOk(Machine(), ip, domain, reason, now);
      var key := ip + ":" + domain;
      var domainCfg := GetDomainConfig(config, domain);
      var settings := if domainCfg.None? then config.default else domainCfg.value;
      strike := if key in strikes then strikes[key] else Strike(ip, domain, 0, now, now, false, None);
      var shouldExcuse := reason == "timeout" && settings.excuseFirstTimeout && !strike.excused;
      if shouldExcuse {
        strike := strike.(excused := true);
      }
      if !shouldExcuse {
        strike := strike.(count := strike.count + 1, lastFailure := now);
      }
      if settings.lockout > 0 {
        strike := strike.(expiresAt := Some(AddMinutes(now, settings.lockout)));
      }
      strikes := strikes[key := strike];
      SaveStrike(strike);
    }

    /** The answer counts the strikes after this failure; a block was attempted exactly when it says so. */
    method RecordFailure(ip: string, domain: string, reason: string, now: int, blockNow: int, f: BlockFaults)
      returns (count: nat, blocked: bool)
      requires Valid() && IsDomain(domain)
      modifies this, db, ipsetMgr, ipsetMgr.fw
      ensures Valid() && (Machine(), count, blocked)
              == FailureSpec(old(Machine()), ip, domain, reason, now, blockNow, f)
    {
      var strike := CountFailure(ip, domain, reason, now);
      if strike.count >= THRESHOLD {
        BlockIP(ip, domain, blockNow, f);
        return strike.count, true;
      }
      return strike.count, false;
    }

    method RecordSuccess(ip: string, domain: string)
      requires Valid()
      modifies this, db`strikes
      ensures Valid() && Machine() == SuccessSpec(old(Machine()), ip, domain)
    {
      var key := ip + ":" + domain;
      if key in strikes {
        strikes := strikes - {key};
        db.strikes := db.strikes - {(ip, domain)};
      }
    }

    /** The first loop of `CleanupExpired`: strikes, in any order. */
    method CleanStrikes(now: int)
      modifies this, db`strikes
      ensures strikes == old(strikes) - Stale(old(strikes), now)
      ensures db.strikes == old(db.strikes) - Pairs(old(strikes), Stale(old(strikes), now))
    {
      ghost var mem, table := strikes, db.strikes;
      ghost var gone: set<string> := {};
      var todo := strikes.Keys;
      while todo != {}
        invariant todo <= mem.Keys && gone <= Stale(mem, now) <= gone + todo && gone !! todo
        invariant strikes == mem - gone
        invariant db.strikes == table - Pairs(mem, gone)
        decreases todo
      {
        var key :| key in todo;
        todo := todo - {key};
        var strike := strikes[key];
        if Lapsed(strike.expiresAt, now) {
          MorePairs(mem, gone, key);
          strikes := strikes - {key};
          db.strikes := db.strikes - {(strike.ip, strike.domain)};
          gone := gone + {key};
        }
      }
      assert gone == Stale(mem, now);
    }

    /** One released row: the address leaves its set if the deletion works, and the row goes either way. */
    method ReleaseRow(ip: string, delOk: bool)
      requires ipsetMgr.Valid() && ip in db.blocked
      modifies db`blocked, ipsetMgr.fw`sets
      ensures ipsetMgr.Valid() && db.blocked == old(db.blocked) - {ip}
      ensures ipsetMgr.fw.State() == Remove(old(ipsetMgr.fw.State()), old(db.blocked)[ip].ipsetName, ip, delOk).0
    {
      var removed := ipsetMgr.fw.RemoveIPFromSet(db.blocked[ip].ipsetName, ip, delOk);
      db.blocked := db.blocked - {ip};
    }

    /** The second loop of `CleanupExpired`: expired block rows, in any order. */
    method ReleaseBlocked(now: int, delOk: set<string>)
      requires ipsetMgr.Valid()
      modifies db`blocked, ipsetMgr.fw`sets
      ensures ipsetMgr.Valid()
      ensures db.blocked == old(db.blocked) - Released(old(db.blocked), now)
      ensures ipsetMgr.fw.State()
           == ReleasedKernel(old(ipsetMgr.fw.State()), old(db.blocked), Released(old(db.blocked), now) * delOk)
    {
      ghost var k, blocked := ipsetMgr.fw.State(), db.blocked;
      ghost var all := Released(blocked, now);
      var rows := Released(db.blocked, now);
      NothingReleased(k, blocked);
      assert (all - rows) * delOk == {};
      while rows != {}
        invariant rows <= all && ipsetMgr.Valid()
        invariant db.blocked == blocked - (all - rows)
        invariant ipsetMgr.fw.State() == ReleasedKernel(k, blocked, (all - rows) * delOk)
        decreases rows
      {
        var ip :| ip in rows;
        ghost var gone := all - rows;
        assert ip in all && ip !in gone;
        ReleaseOne(k, blocked, gone * delOk, ip, ip in delOk);
        MoreReleased(gone, ip, delOk);
        ReleaseRow(ip, ip in delOk);
        rows := rows - {ip};
        assert all - rows == gone + {ip};
      }
      assert all - rows == all;
    }

    method CleanupExpired(now: int, delOk: set<string>)
      requires Valid()
      modifies this, db, ipsetMgr.fw`sets
      ensures Valid() && Machine() == CleanupSpec(old(Machine()), now, delOk)
    {
      CleanStrikes(now);
      ReleaseBlocked(now, delOk);
    }

    method GetStrikeCount(ip: string, domain: string) returns (count: nat)
      ensures count == if Key(ip, domain) in strikes then strikes[Key(ip, domain)].count else 0
    {
      var key := ip + ":" + domain;
      if key in strikes {
        return strikes[key].count;
      }
      return 0;
    }
  }

  lemma MorePairs(mem: map<string, Strike>, keys: set<string>, key: string)
    requires key in mem
    ensures Pairs(mem, keys + {key}) == Pairs(mem, keys) + {(mem[key].ip, mem[key].domain)}
  {
  }

  lemma NothingReleased(k: Kernel, blocked: map<string, BlockRow>)
    ensures ReleasedKernel(k, blocked, {}) == k
  {
    var r := ReleasedKernel(k, blocked, {});
    forall name | name in k.sets ensures r.sets[name] == k.sets[name] {
      assert r.sets[name].members == k.sets[name].members;
    }
    assert r.sets == k.sets;
  }

  lemma MoreReleased(gone: set<string>, ip: string, delOk: set<string>)
    ensures (gone + {ip}) * delOk == if ip in delOk then gone * delOk + {ip} else gone * delOk
  {
  }

  /** Releasing one more address is one deletion in the kernel. */
  lemma ReleaseOne(k: Kernel, blocked: map<string, BlockRow>, gone: set<string>, ip: string, ok: bool)
    requires ip in blocked
    ensures Remove(ReleasedKernel(k, blocked, gone), blocked[ip].ipsetName, ip, ok).0
         == ReleasedKernel(k, blocked, if ok then gone + {ip} else gone)
  {
    if ok {
      var k1, k2 := ReleasedKernel(k, blocked, gone), ReleasedKernel(k, blocked, gone + {ip});
      var r := Remove(k1, blocked[ip].ipsetName, ip, ok).0;
      forall name | name in k.sets ensures r.sets[name] == k2.sets[name] {
        assert r.sets[name].members == k2.sets[name].members;
      }
      assert r.sets == k2.sets;
    }
  }
}
