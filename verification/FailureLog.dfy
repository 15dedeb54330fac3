/**
 The reference for the tracker: per address and domain, the plain list of
 failures since the record began. Counters, flags, the table and every restart
 have to come out as a summary of that list.
 */
module FailureLog {
  import opened Prelude
  import opened IpsetManager
  import opened Config
  import opened Strikes

  /** One failure, with the settings in force when it was recorded. */
  datatype Fail = Fail(time: int, timeout: bool, mayExcuse: bool, lockout: int)

  predicate Excusable(f: Fail) {
    f.timeout && f.mayExcuse
  }

  predicate HasExcuse(log: seq<Fail>) {
    exists i :: 0 <= i < |log| && Excusable(log[i])
  }

  /** One failure at most is excused; all others count. */
  function Charged(log: seq<Fail>): nat {
    if HasExcuse(log) then |log| - 1 else |log|
  }

  function LastCharged(log: seq<Fail>): int
    requires log != []
  {
    var front, last := log[..|log| - 1], log[|log| - 1];
    if Excusable(last) && !HasExcuse(front) then (if front == [] then last.time else LastCharged(front)) else last.time
  }

  function LastExpiry(log: seq<Fail>): Option<int> {
    if log == [] then None else
      var last := log[|log| - 1];
      if last.lockout > 0 then Some(last.time + last.lockout * 60 * 1_000_000_000) else LastExpiry(log[..|log| - 1])
  }

  function Summary(p: (string, string), log: seq<Fail>): Strike
    requires log != []
  {
    Strike(p.0, p.1, Charged(log), log[0].time, LastCharged(log), HasExcuse(log), LastExpiry(log))
  }

  lemma ExcuseAppend(log: seq<Fail>, f: Fail)
    ensures HasExcuse(log + [f]) <==> HasExcuse(log) || Excusable(f)
  {
    if HasExcuse(log) {
      var i :| 0 <= i < |log| && Excusable(log[i]);
      assert (log + [f])[i] == log[i];
    }
    assert (log + [f])[|log|] == f;
  }

  function SummaryOf(p: (string, string), log: seq<Fail>): Option<Strike> {
    if log == [] then None else Some(Summary(p, log))
  }

  predicate NewlyExcused(log: seq<Fail>, f: Fail) {
    Excusable(f) && !HasExcuse(log)
  }

  lemma CountAppend(log: seq<Fail>, f: Fail)
    ensures HasExcuse(log + [f]) <==> HasExcuse(log) || NewlyExcused(log, f)
    ensures Charged(log + [f]) == if NewlyExcused(log, f) then Charged(log) else Charged(log) + 1
  {
    ExcuseAppend(log, f);
  }

  lemma TimesAppend(log: seq<Fail>, f: Fail)
    ensures LastCharged(log + [f]) == if NewlyExcused(log, f) && log != [] then LastCharged(log) else f.time
    ensures LastExpiry(log + [f]) == if f.lockout > 0 then Some(AddMinutes(f.time, f.lockout)) else LastExpiry(log)
    ensures (log + [f])[0].time == if log == [] then f.time else log[0].time
  {
    var more := log + [f];
    assert more[..|more| - 1] == log && more[|more| - 1] == f;
  }

  /** Striking a summary is summarising the longer list. */
  lemma StruckIsSummary(p: (string, string), log: seq<Fail>, f: Fail)
    ensures Struck(SummaryOf(p, log), p.0, p.1, f.timeout, f.mayExcuse, f.lockout, f.time) == Summary(p, log + [f])
  {
    CountAppend(log, f);
    TimesAppend(log, f);
    if log == [] {
      assert !HasExcuse(log) && Charged(log) == 0 && LastExpiry(log) == None;
    }
  }

  // ---------- the log machine ----------

  /** The failures of every live record, and when the table was last loaded. */
  datatype History = History(log: map<(string, string), seq<Fail>>, loadedAt: int)

  function FailOf(cfg: Config, domain: string, reason: string, now: int): Fail {
    Fail(now, reason == "timeout", StrikeExcuse(cfg, domain), StrikeLockout(cfg, domain))
  }

  function LogOf(h: History, p: (string, string)): seq<Fail> {
    if p in h.log then h.log[p] else []
  }

  /** A restart forgets a record that has ended by now; a cleanup only one that ended strictly before. */
  predicate EndedBy(log: seq<Fail>, now: int) {
    LastExpiry(log).Some? && LastExpiry(log).value <= now
  }

  predicate EndedBefore(log: seq<Fail>, now: int) {
    LastExpiry(log).Some? && LastExpiry(log).value < now
  }

  /** What a cleanup keeps. */
  function Cleaned(h: History, now: int): History {
    h.(log := map p | p in h.log && !EndedBefore(h.log[p], now) :: h.log[p])
  }

  /** What a load keeps. */
  function Pruned(h: History, now: int): History {
    History(map p | p in h.log && !EndedBy(h.log[p], now) :: h.log[p], now)
  }

  /** One event on the log; the daemon's states tell only whether it runs and under which settings. */
  function Record(h: History, before: State, after: State, e: Event): History {
    if e.Restart? then
      if after.up then Pruned(h, e.now) else h
    else if !before.up then h
    else match e
      case Failure(ip, domain, reason, now, _, _) =>
        h.(log := h.log[(ip, domain) := LogOf(h, (ip, domain)) + [FailOf(before.cfg, domain, reason, now)]])
      case Success(ip, domain) => h.(log := h.log - {(ip, domain)})
      case Cleanup(now, _) => Cleaned(h, now)
      case Restart(_, _, _, _, _) => h
  }

  function RunLog(s: State, h: History, events: seq<Event>): History
    requires StateOk(s) && EventsOk(events)
    decreases |events|
  {
    if events == [] then h else
      var n := |events| - 1;
      var before := Run(s, events[..n]);
      Record(RunLog(s, h, events[..n]), before, Step(before, events[n]), events[n])
  }

  // ---------- agreement ----------

  ghost predicate TableAgrees(table: map<(string, string), Strike>, h: History) {
    && (forall p :: p in h.log ==> IsDomain(p.1) && h.log[p] != [] && p in table && table[p] == Summary(p, h.log[p]))
    && (forall p :: p in table && p !in h.log ==> table[p].expiresAt.Some? && table[p].expiresAt.value <= h.loadedAt)
  }

  ghost predicate MemAgrees(mem: map<string, Strike>, h: History) {
    && (forall p :: p in h.log ==> Key(p.0, p.1) in mem && h.log[p] != [] && mem[Key(p.0, p.1)] == Summary(p, h.log[p]))
    && (forall key :: key in mem ==> SplitKey(key) in h.log)
  }

  /** Table and memory are summaries of the log; a row without a log had expired at the last load. */
  ghost predicate Agrees(s: State, h: History) {
    TableAgrees(s.db.strikes, h) && (s.up ==> MemAgrees(s.mem, h))
  }

  lemma LookupAgrees(mem: map<string, Strike>, h: History, ip: string, domain: string)
    requires MemAgrees(mem, h) && IsDomain(domain)
    ensures Lookup(mem, Key(ip, domain)) == SummaryOf((ip, domain), LogOf(h, (ip, domain)))
  {
    KeyRoundTrip(ip, domain);
    if (ip, domain) in h.log {
      assert Key((ip, domain).0, (ip, domain).1) in mem;
    }
  }

  /** The record after a failure is the summary of the log after it. */
  lemma CountedIsSummary(s: State, h: History, ip: string, domain: string, reason: string, now: int)
    requires StateOk(s) && MemAgrees(s.mem, h) && IsDomain(domain)
    ensures var p := (ip, domain);
            var strike := Summary(p, LogOf(h, p) + [FailOf(s.cfg, domain, reason, now)]);
            && CountedSpec(s, ip, domain, reason, now).mem == s.mem[Key(ip, domain) := strike]
            && CountedSpec(s, ip, domain, reason, now).db.strikes == s.db.strikes[p := strike]
  {
    LookupAgrees(s.mem, h, ip, domain);
    StruckIsSummary((ip, domain), LogOf(h, (ip, domain)), FailOf(s.cfg, domain, reason, now));
  }

  lemma PutInTable(table: map<(string, string), Strike>, h: History, p: (string, string), log: seq<Fail>)
    requires TableAgrees(table, h) && IsDomain(p.1) && log != []
    ensures TableAgrees(table[p := Summary(p, log)], h.(log := h.log[p := log]))
  {
  }

  lemma KeysDistinct(h: History, p: (string, string))
    requires IsDomain(p.1) && forall q :: q in h.log ==> IsDomain(q.1)
    ensures SplitKey(Key(p.0, p.1)) == p
    ensures forall q :: q in h.log ==> SplitKey(Key(q.0, q.1)) == q
  {
    KeyRoundTrip(p.0, p.1);
    forall q | q in h.log ensures SplitKey(Key(q.0, q.1)) == q {
      KeyRoundTrip(q.0, q.1);
    }
  }

  lemma PutInMem(mem: map<string, Strike>, h: History, p: (string, string), log: seq<Fail>)
    requires MemAgrees(mem, h) && IsDomain(p.1) && log != [] && forall q :: q in h.log ==> IsDomain(q.1)
    ensures MemAgrees(mem[Key(p.0, p.1) := Summary(p, log)], h.(log := h.log[p := log]))
  {
    KeysDistinct(h, p);
  }

  lemma FailureAgrees(s: State, h: History, ip: string, domain: string, reason: string, now: int)
    requires StateOk(s) && Agrees(s, h) && s.up && IsDomain(domain)
    ensures var p := (ip, domain);
            Agrees(CountedSpec(s, ip, domain, reason, now),
                   h.(log := h.log[p := LogOf(h, p) + [FailOf(s.cfg, domain, reason, now)]]))
  {
    var p := (ip, domain);
    var log := LogOf(h, p) + [FailOf(s.cfg, domain, reason, now)];
    CountedIsSummary(s, h, ip, domain, reason, now);
    PutInTable(s.db.strikes, h, p, log);
    PutInMem(s.mem, h, p, log);
  }

  /** Blocking touches neither the strikes nor the log. */
  lemma FailureTouches(s: State, ip: string, domain: string, reason: string, now: int, blockNow: int, f: BlockFaults)
    requires StateOk(s)
    ensures var s1, s2 := CountedSpec(s, ip, domain, reason, now),
            FailureSpec(s, ip, domain, reason, now, blockNow, f).0;
            s2.mem == s1.mem && s2.db.strikes == s1.db.strikes && s2.up == s.up
  {
  }

  lemma DropFromMem(mem: map<string, Strike>, h: History, p: (string, string))
    requires MemOk(mem) && MemAgrees(mem, h) && IsDomain(p.1) && forall q :: q in h.log ==> IsDomain(q.1)
    ensures MemAgrees(mem - {Key(p.0, p.1)}, h.(log := h.log - {p}))
    ensures Key(p.0, p.1) in mem <==> p in h.log
  {
    KeysDistinct(h, p);
    forall key | key in mem ensures key == Key(SplitKey(key).0, SplitKey(key).1) {
      KeyRoundTrip(mem[key].ip, mem[key].domain);
    }
  }

  lemma DropFromTable(table: map<(string, string), Strike>, h: History, p: (string, string))
    requires TableAgrees(table, h)
    ensures TableAgrees(table - {p}, h.(log := h.log - {p}))
  {
  }

  lemma DropNothing(h: History, p: (string, string))
    requires p !in h.log
    ensures h.(log := h.log - {p}) == h
  {
    assert h.log - {p} == h.log;
  }

  lemma SuccessAgrees(s: State, h: History, ip: string, domain: string)
    requires StateOk(s) && Agrees(s, h) && s.up && IsDomain(domain)
    ensures Agrees(SuccessSpec(s, ip, domain), h.(log := h.log - {(ip, domain)}))
  {
    var p := (ip, domain);
    DropFromMem(s.mem, h, p);
    DropFromTable(s.db.strikes, h, p);
    if Key(ip, domain) !in s.mem {
      DropNothing(h, p);
    }
  }

  /** The stale rows are those of the logs that have ended. */
  lemma StaleRows(mem: map<string, Strike>, h: History, now: int, p: (string, string))
    requires MemOk(mem) && MemAgrees(mem, h) && IsDomain(p.1)
    ensures p in Pairs(mem, Stale(mem, now)) <==> p in h.log && EndedBefore(h.log[p], now)
  {
    KeyRoundTrip(p.0, p.1);
    PairIn(mem, Stale(mem, now), p);
    if p in h.log {
      assert Key(p.0, p.1) in mem;
    }
  }

  lemma PairIn(mem: map<string, Strike>, keys: set<string>, p: (string, string))
    requires MemOk(mem) && IsDomain(p.1)
    ensures p in Pairs(mem, keys) <==> Key(p.0, p.1) in keys && Key(p.0, p.1) in mem
  {
    KeyRoundTrip(p.0, p.1);
    var key := Key(p.0, p.1);
    if key in mem {
      KeyRoundTrip(mem[key].ip, mem[key].domain);
    }
  }

  ghost predicate EndedRows(rows: set<(string, string)>, h: History, now: int) {
    forall p :: p in rows <==> p in h.log && EndedBefore(h.log[p], now)
  }

  lemma StaleRowsEnded(mem: map<string, Strike>, h: History, now: int)
    requires MemOk(mem) && MemAgrees(mem, h) && forall q :: q in h.log ==> IsDomain(q.1)
    ensures EndedRows(Pairs(mem, Stale(mem, now)), h, now)
  {
    var rows := Pairs(mem, Stale(mem, now));
    forall p ensures p in rows <==> p in h.log && EndedBefore(h.log[p], now) {
      if p in rows || p in h.log {
        StaleRows(mem, h, now, p);
      }
    }
  }

  lemma DropEnded(table: map<(string, string), Strike>, rows: set<(string, string)>, h: History, now: int)
    requires TableAgrees(table, h) && EndedRows(rows, h, now)
    ensures TableAgrees(table - rows, Cleaned(h, now))
  {
  }

  lemma CleanedTable(table: map<(string, string), Strike>, mem: map<string, Strike>, h: History, now: int)
    requires MemOk(mem) && TableAgrees(table, h) && MemAgrees(mem, h)
    ensures TableAgrees(table - Pairs(mem, Stale(mem, now)), Cleaned(h, now))
  {
    StaleRowsEnded(mem, h, now);
    DropEnded(table, Pairs(mem, Stale(mem, now)), h, now);
  }

  lemma CleanedMem(mem: map<string, Strike>, h: History, now: int)
    requires MemOk(mem) && MemAgrees(mem, h) && forall q :: q in h.log ==> IsDomain(q.1)
    ensures MemAgrees(mem - Stale(mem, now), Cleaned(h, now))
  {
    forall key | key in mem ensures key == Key(SplitKey(key).0, SplitKey(key).1) {
      KeyRoundTrip(mem[key].ip, mem[key].domain);
    }
  }

  lemma CleanupAgrees(s: State, h: History, now: int, delOk: set<string>)
    requires StateOk(s) && Agrees(s, h) && s.up
    ensures Agrees(CleanupSpec(s, now, delOk), Cleaned(h, now))
  {
    CleanedTable(s.db.strikes, s.mem, h, now);
    CleanedMem(s.mem, h, now);
    CleanupTouches(s, now, delOk);
  }

  lemma CleanupTouches(s: State, now: int, delOk: set<string>)
    ensures var s', stale := CleanupSpec(s, now, delOk), Stale(s.mem, now);
            s'.mem == s.mem - stale && s'.db.strikes == s.db.strikes - Pairs(s.mem, stale) && s'.up == s.up
  {
  }

  lemma TablePruned(table: map<(string, string), Strike>, h: History, now: int)
    requires TableAgrees(table, h) && h.loadedAt <= now
    ensures TableAgrees(table, Pruned(h, now))
  {
  }

  lemma MemPruned(table: map<(string, string), Strike>, h: History, now: int)
    requires TableOk(table) && TableAgrees(table, h) && h.loadedAt <= now
    ensures MemAgrees(LoadStrikes(table, now), Pruned(h, now))
  {
    LoadedOk(table, now);
    var mem, h' := LoadStrikes(table, now), Pruned(h, now);
    forall p | p in h'.log ensures Key(p.0, p.1) in mem && h'.log[p] != []
      && mem[Key(p.0, p.1)] == Summary(p, h'.log[p]) {
      assert p in table && table[p] == Summary(p, h.log[p]);
    }
    forall key | key in mem ensures SplitKey(key) in h'.log {
      LiveRowInLog(table, h, key, now);
      assert Key(SplitKey(key).0, SplitKey(key).1) in mem;
    }
  }

  lemma RestartAgrees(s: State, h: History, now: int, cfg: Config, init: InitFaults,
                      lines: seq<BlacklistLine>, faults: seq<LineFaults>)
    requires StateOk(s) && Agrees(s, h) && h.loadedAt <= now && |lines| == |faults|
    ensures var s' := RestartSpec(s, now, cfg, init, lines, faults); Agrees(s', if s'.up then Pruned(h, now) else h)
  {
    TablePruned(s.db.strikes, h, now);
    MemPruned(s.db.strikes, h, now);
  }

  lemma StepAgrees(s: State, h: History, e: Event)
    requires StateOk(s) && EventOk(e) && Agrees(s, h)
    requires e.Restart? ==> h.loadedAt <= e.now
    ensures Agrees(Step(s, e), Record(h, s, Step(s, e), e))
  {
    match e
    case Restart(now, cfg, init, lines, faults) => RestartAgrees(s, h, now, cfg, init, lines, faults);
    case Failure(ip, domain, reason, now, blockNow, f) =>
      if s.up {
        FailureAgrees(s, h, ip, domain, reason, now);
        FailureTouches(s, ip, domain, reason, now, blockNow, f);
      }
    case Success(ip, domain) =>
      if s.up {
        SuccessAgrees(s, h, ip, domain);
      }
    case Cleanup(now, delOk) =>
      if s.up {
        CleanupAgrees(s, h, now, delOk);
      }
  }

  // ---------- runs ----------

  /** The latest restart, or t0. */
  function LastLoad(t0: int, events: seq<Event>): int {
    if events == [] then t0
    else if events[|events| - 1].Restart? then events[|events| - 1].now
    else LastLoad(t0, events[..|events| - 1])
  }

  /** No restart reads a clock earlier than the restart before it. The other events may read any time. */
  ghost predicate LoadsInOrder(t0: int, events: seq<Event>) {
    events == [] ||
      var front, last := events[..|events| - 1], events[|events| - 1];
      LoadsInOrder(t0, front) && (last.Restart? ==> LastLoad(t0, front) <= last.now)
  }

  /**
   The tracker replays the failure log: over any run of failures, successes,
   cleanups and restarts, the strike table and the memory of a running daemon
   are exactly the summaries of the failures since each record began.
   */
  lemma {:induction false} TrackerReplaysFailures(s: State, h: History, events: seq<Event>)
    requires StateOk(s) && EventsOk(events) && Agrees(s, h) && LoadsInOrder(h.loadedAt, events)
    ensures Agrees(Run(s, events), RunLog(s, h, events))
    ensures RunLog(s, h, events).loadedAt <= LastLoad(h.loadedAt, events)
    decreases |events|
  {
    if events != [] {
      var n := |events| - 1;
      TrackerReplaysFailures(s, h, events[..n]);
      StepAgrees(Run(s, events[..n]), RunLog(s, h, events[..n]), events[n]);
    }
  }

  /** A state without strikes, as an installation has before its first start. */
  ghost predicate NoStrikes(s: State) {
    StateOk(s) && s.db.strikes == map[] && s.mem == map[]
  }

  /** The failures on record after a run that began without strikes at t0. */
  function LogFrom(s0: State, t0: int, events: seq<Event>): History
    requires StateOk(s0) && EventsOk(events)
  {
    RunLog(s0, History(map[], t0), events)
  }

  lemma RunAgrees(s0: State, t0: int, events: seq<Event>)
    requires NoStrikes(s0) && EventsOk(events) && LoadsInOrder(t0, events)
    ensures Agrees(Run(s0, events), LogFrom(s0, t0, events))
    ensures LogFrom(s0, t0, events).loadedAt <= LastLoad(t0, events)
  {
    assert Agrees(s0, History(map[], t0));
    TrackerReplaysFailures(s0, History(map[], t0), events);
  }

  /**
   Crash recovery: after any run, loading the table at any time from the last
   load on rebuilds exactly the records in memory that have not expired by
   then, field by field.
   */
  lemma CrashRecovery(s0: State, t0: int, events: seq<Event>, now: int)
    requires NoStrikes(s0) && EventsOk(events) && LoadsInOrder(t0, events)
    requires Run(s0, events).up && LastLoad(t0, events) <= now
    ensures var s := Run(s0, events);
            LoadStrikes(s.db.strikes, now) ==
            map key | key in s.mem && (s.mem[key].expiresAt.None? || s.mem[key].expiresAt.value > now) :: s.mem[key]
  {
    var s := Run(s0, events);
    RunAgrees(s0, t0, events);
    LoadRebuilds(s.db.strikes, s.mem, LogFrom(s0, t0, events), now);
  }

  lemma LoadRebuilds(table: map<(string, string), Strike>, mem: map<string, Strike>, h: History, now: int)
    requires TableOk(table) && MemOk(mem) && TableAgrees(table, h) && MemAgrees(mem, h) && h.loadedAt <= now
    ensures LoadStrikes(table, now)
         == map key | key in mem && (mem[key].expiresAt.None? || mem[key].expiresAt.value > now) :: mem[key]
  {
    forall key ensures SameAt(LoadStrikes(table, now), mem, now, key) {
      LoadPoint(table, mem, h, now, key);
    }
    SameEverywhere(LoadStrikes(table, now), mem, now);
  }

  ghost predicate SameAt(loaded: map<string, Strike>, mem: map<string, Strike>, now: int, key: string) {
    && (key in loaded <==> key in mem && StillLive(mem[key].expiresAt, now))
    && (key in loaded ==> loaded[key] == mem[key])
  }

  lemma SameEverywhere(loaded: map<string, Strike>, mem: map<string, Strike>, now: int)
    requires forall key :: SameAt(loaded, mem, now, key)
    ensures loaded == map key | key in mem && (mem[key].expiresAt.None? || mem[key].expiresAt.value > now) :: mem[key]
  {
    var live := map key | key in mem && (mem[key].expiresAt.None? || mem[key].expiresAt.value > now) :: mem[key];
    forall key ensures (key in loaded <==> key in live) && (key in loaded ==> loaded[key] == live[key]) {
      assert SameAt(loaded, mem, now, key);
    }
  }

  lemma LoadPoint(table: map<(string, string), Strike>, mem: map<string, Strike>, h: History, now: int, key: string)
    requires TableOk(table) && MemOk(mem) && TableAgrees(table, h) && MemAgrees(mem, h) && h.loadedAt <= now
    ensures SameAt(LoadStrikes(table, now), mem, now, key)
  {
    if key in LoadStrikes(table, now) {
      LiveRowInMem(table, mem, h, now, key);
    } else if key in mem {
      MemRowInLog(mem, h, key);
      LoadedOk(table, now);
    }
  }

  lemma LiveRowInMem(table: map<(string, string), Strike>, mem: map<string, Strike>, h: History, now: int, key: string)
    requires TableOk(table) && TableAgrees(table, h) && MemAgrees(mem, h) && h.loadedAt <= now
    requires key in LoadStrikes(table, now)
    ensures key in mem && LoadStrikes(table, now)[key] == mem[key] && StillLive(mem[key].expiresAt, now)
  {
    LoadedOk(table, now);
    LiveRowInLog(table, h, key, now);
    var p := SplitKey(key);
    assert Key(p.0, p.1) in mem && p in table;
  }

  lemma MemRowInLog(mem: map<string, Strike>, h: History, key: string)
    requires MemOk(mem) && MemAgrees(mem, h) && key in mem
    ensures SplitKey(key) in h.log && key == Key(SplitKey(key).0, SplitKey(key).1)
  {
    KeyRoundTrip(mem[key].ip, mem[key].domain);
  }

  lemma LiveRowInLog(table: map<(string, string), Strike>, h: History, key: string, now: int)
    requires TableOk(table) && TableAgrees(table, h) && h.loadedAt <= now && key in LoadStrikes(table, now)
    ensures SplitKey(key) in h.log && key == Key(SplitKey(key).0, SplitKey(key).1)
  {
    var q :| q in table && StillLive(table[q].expiresAt, now) && key == Key(q.0, q.1);
    KeyRoundTrip(q.0, q.1);
  }

  lemma AnswerToLog(s: State, h: History, e: Event)
    requires StateOk(s) && Agrees(s, h) && s.up && e.Failure? && EventOk(e)
    ensures var log := LogOf(h, (e.ip, e.domain)) + [FailOf(s.cfg, e.domain, e.reason, e.now)];
            var (_, count, blocked) := FailureSpec(s, e.ip, e.domain, e.reason, e.now, e.blockNow, e.f);
            && count == Charged(log)
            && (blocked <==> |log| >= if HasExcuse(log) then THRESHOLD + 1 else THRESHOLD)
  {
    CountIsCharged(s, h, e.ip, e.domain, e.reason, e.now);
    AnswerIsCount(s, e);
    ThresholdByLength(LogOf(h, (e.ip, e.domain)) + [FailOf(s.cfg, e.domain, e.reason, e.now)]);
  }

  lemma CountIsCharged(s: State, h: History, ip: string, domain: string, reason: string, now: int)
    requires MemAgrees(s.mem, h) && IsDomain(domain)
    ensures CountedSpec(s, ip, domain, reason, now).mem[Key(ip, domain)].count
         == Charged(LogOf(h, (ip, domain)) + [FailOf(s.cfg, domain, reason, now)])
  {
    LookupAgrees(s.mem, h, ip, domain);
    StruckIsSummary((ip, domain), LogOf(h, (ip, domain)), FailOf(s.cfg, domain, reason, now));
  }

  lemma AnswerIsCount(s: State, e: Event)
    requires StateOk(s) && e.Failure?
    ensures var (_, count, blocked) := FailureSpec(s, e.ip, e.domain, e.reason, e.now, e.blockNow, e.f);
            && count == CountedSpec(s, e.ip, e.domain, e.reason, e.now).mem[Key(e.ip, e.domain)].count
            && (blocked <==> count >= THRESHOLD)
  {
  }

  lemma ThresholdByLength(log: seq<Fail>)
    ensures Charged(log) >= THRESHOLD <==> |log| >= if HasExcuse(log) then THRESHOLD + 1 else THRESHOLD
  {
  }

  /** The failures on record for the event's address and domain, that event included. */
  function LogWith(s0: State, t0: int, events: seq<Event>, e: Event): seq<Fail>
    requires StateOk(s0) && EventsOk(events) && e.Failure?
  {
    LogOf(LogFrom(s0, t0, events), (e.ip, e.domain)) + [FailOf(Run(s0, events).cfg, e.domain, e.reason, e.now)]
  }

  /** After any run, the answer to a failure is the number charged for its record, and blocked from the third on. */
  lemma AnswerCountsFailures(s0: State, t0: int, events: seq<Event>, e: Event)
    requires NoStrikes(s0) && EventsOk(events) && LoadsInOrder(t0, events)
    requires Run(s0, events).up && e.Failure? && EventOk(e)
    ensures var log := LogWith(s0, t0, events, e);
            var (_, count, blocked) := FailureSpec(Run(s0, events), e.ip, e.domain, e.reason, e.now, e.blockNow, e.f);
            && count == Charged(log)
            && (blocked <==> |log| >= if HasExcuse(log) then 4 else 3)
  {
    RunAgrees(s0, t0, events);
    AnswerToLog(Run(s0, events), LogFrom(s0, t0, events), e);
  }

  // ---------- the settings as the file gives them ----------

  /** Whether domains.json excuses this domain's first timeout. */
  predicate FileExcuses(raw: Config, domain: string) {
    if domain in raw.domains then raw.domains[domain].excuseFirstTimeout else raw.default.excuseFirstTimeout
  }

  /** The lockout of its records, in minutes. */
  function FileLockout(raw: Config, domain: string): int {
    if domain in raw.domains && raw.domains[domain].lockout != 0 then raw.domains[domain].lockout
      else raw.default.lockout
  }

  /** What one failure puts on record. */
  lemma FailureByFile(raw: Config, domain: string, reason: string, now: int)
    ensures FailOf(Loaded(raw), domain, reason, now)
         == Fail(now, reason == "timeout", FileExcuses(raw, domain), FileLockout(raw, domain))
  {
    LoadedFields(raw);
  }

  /**
   One failure, from the file to the answer and the saved record: a timeout is
   excused when the domain's own entry says so, or the default for a domain that
   has none, and the record has not had its excuse. Every other failure counts
   one, and a positive lockout sets the end of the record anew.
   */
  lemma FailureFollowsFile(s: State, raw: Config, ip: string, domain: string, reason: string, now: int,
                           blockNow: int, f: BlockFaults)
    requires StateOk(s) && s.cfg == Loaded(raw)
    ensures var key := ip + ":" + domain;
            var (s', count, blocked) := FailureSpec(s, ip, domain, reason, now, blockNow, f);
            && key in s'.mem && count == s'.mem[key].count && (blocked <==> count >= 3)
            && ByFile(Lookup(s.mem, key), s'.mem[key], reason == "timeout", FileExcuses(raw, domain),
                      FileLockout(raw, domain), now)
            && s'.mem == s.mem[key := s'.mem[key]]
            && s'.db.strikes == s.db.strikes[(s'.mem[key].ip, s'.mem[key].domain) := s'.mem[key]]
  {
    LoadedFields(raw);
    StruckByFile(Lookup(s.mem, Key(ip, domain)), ip, domain, reason == "timeout", FileExcuses(raw, domain),
                 FileLockout(raw, domain), now);
    FailureTouches(s, ip, domain, reason, now, blockNow, f);
    AnswerIsCount(s, Failure(ip, domain, reason, now, blockNow, f));
    assert CountedSpec(s, ip, domain, reason, now).mem[Key(ip, domain)]
        == Struck(Lookup(s.mem, Key(ip, domain)), ip, domain, reason == "timeout", FileExcuses(raw, domain),
                  FileLockout(raw, domain), now);
  }

  /** From the record before, if there was one, to the record after. */
  predicate ByFile(record: Option<Strike>, r: Strike, timeout: bool, mayExcuse: bool, lockout: int, now: int) {
    var had, was := record.Some? && record.value.excused, if record.Some? then record.value.count else 0;
    var excused := timeout && mayExcuse && !had;
    && r.count == (if excused then was else was + 1)
    && (r.excused <==> had || excused)
    && r.firstFailure == (if record.Some? then record.value.firstFailure else now)
    && r.lastFailure == (if excused && record.Some? then record.value.lastFailure else now)
    && r.expiresAt == (if lockout > 0 then Some(now + lockout * 60 * 1_000_000_000)
                       else if record.Some? then record.value.expiresAt else None)
  }

  lemma StruckByFile(record: Option<Strike>, ip: string, domain: string, timeout: bool, mayExcuse: bool,
                     lockout: int, now: int)
    ensures ByFile(record, Struck(record, ip, domain, timeout, mayExcuse, lockout, now), timeout, mayExcuse, lockout,
                   now)
  {
  }

  // ---------- the documented rule ----------

  /** The design document: only the first failure may be excused, and only when it is a timeout. */
  function Documented(log: seq<Fail>): nat {
    if log != [] && Excusable(log[0]) then |log| - 1 else |log|
  }

  /** An excusable timeout came, and the first failure was none. */
  predicate LateExcuse(log: seq<Fail>) {
    log != [] && !Excusable(log[0]) && HasExcuse(log)
  }

  /**
   Code and document agree on a count exactly when no timeout is excused late,
   and on blocking unless, besides, this is the third failure.
   */
  lemma DocumentedIff(log: seq<Fail>)
    ensures Charged(log) == Documented(log) <==> !LateExcuse(log)
    ensures (Charged(log) >= 3 <==> Documented(log) >= 3) <==> !(LateExcuse(log) && |log| == 3)
  {
    if log != [] && Excusable(log[0]) {
      assert HasExcuse(log);
    }
  }

  /** The same for the tracker: when its answer after any run is the documented one. */
  lemma AnswerDocumentedIff(s0: State, t0: int, events: seq<Event>, e: Event)
    requires NoStrikes(s0) && EventsOk(events) && LoadsInOrder(t0, events)
    requires Run(s0, events).up && e.Failure? && EventOk(e)
    ensures var log := LogWith(s0, t0, events, e);
            var (_, count, blocked) := FailureSpec(Run(s0, events), e.ip, e.domain, e.reason, e.now, e.blockNow, e.f);
            && (count == Documented(log) <==> !LateExcuse(log))
            && ((blocked <==> Documented(log) >= 3) <==> !(LateExcuse(log) && |log| == 3))
  {
    AnswerCountsFailures(s0, t0, events, e);
    DocumentedIff(LogWith(s0, t0, events, e));
  }

  /** The document's third scenario: it counts three strikes and blocks, the code counts two. */
  lemma ThirdScenario(t: int)
    ensures var late, wrong := Fail(t, true, true, 0), Fail(t, false, true, 0);
            var log := [wrong, late, wrong];
            LateExcuse(log) && Documented(log) == 3 && Charged(log) == 2
  {
    var late, wrong := Fail(t, true, true, 0), Fail(t, false, true, 0);
    assert Excusable([wrong, late, wrong][1]);
  }
}
