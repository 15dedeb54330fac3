/**
 The ipset manager: the permanent set, and the growing row of temporary sets
 from which each temporary block takes the current one.
 */
module IpsetManager {
  import opened Prelude
  import opened Text
  import opened Firewall

  const PERMANENT := "ukabu-permanent"
  const WHITELIST := "ukabu-whitelist"
  const SEARCH_ENGINES := "ukabu-search-engines"
  const TEMPORARY_PREFIX := "ukabu-temporary_"
  const MAX_TEMPORARY: nat := 20000
  const MAX_FIXED: nat := 50000

  function TempName(i: nat): string {
    TEMPORARY_PREFIX + Decimal(i)
  }

  /** `temporarySets` and `nextTempSet`. */
  datatype Pool = Pool(temps: seq<string>, next: nat)

  /** The index is valid and the i-th name is the prefix followed by i. */
  ghost predicate PoolOk(p: Pool) {
    p.next < |p.temps| && forall i :: 0 <= i < |p.temps| ==> p.temps[i] == TempName(i)
  }

  /** Names of temporary sets are distinct, and none is a fixed set. */
  lemma NamesDistinct(i: nat, j: nat)
    ensures TempName(i) == TempName(j) <==> i == j
    ensures TempName(i) !in {PERMANENT, WHITELIST, SEARCH_ENGINES}
  {
    assert TempName(i)[|TEMPORARY_PREFIX|..] == Decimal(i) && TempName(j)[|TEMPORARY_PREFIX|..] == Decimal(j);
    if TempName(i) == TempName(j) {
      DecimalInjective(i, j);
    }
    assert TempName(i)[6] == 't' && PERMANENT[6] == 'p' && WHITELIST[6] == 'w' && SEARCH_ENGINES[6] == 's';
  }

  // ---------- start-up ----------

  /** Which of the start-up commands work. */
  datatype InitFaults = InitFaults(permanent: bool, whitelist: bool, searchEngines: bool, temporary: bool,
                                   permanentRule: bool, temporaryRule: bool)

  const ALL_WORK := InitFaults(true, true, true, true, true, true)

  /** `None`: Initialize returned an error, and the daemon exits. */
  function InitializeSpec(k0: Kernel, f: InitFaults): (Kernel, Option<Pool>) {
    var (k1, ok1) := Create(k0, PERMANENT, MAX_FIXED, f.permanent);
    if !ok1 then (k1, None) else
      var (k2, ok2) := Create(k1, WHITELIST, MAX_FIXED, f.whitelist);
      if !ok2 then (k2, None) else
        var (k3, ok3) := Create(k2, SEARCH_ENGINES, MAX_FIXED, f.searchEngines);
        if !ok3 then (k3, None) else
          var (k4, ok4) := Create(k3, TempName(0), MAX_TEMPORARY, f.temporary);
          if !ok4 then (k4, None) else
            var (k5, ok5) := InstallRules(k4, [PERMANENT, TempName(0)], [f.permanentRule, f.temporaryRule]);
            if !ok5 then (k5, None) else (k5, Some(Pool([TempName(0)], 0)))
  }

  // ---------- allocation ----------

  /** Which of the commands of one allocation work: the size query, the creation, the rule. */
  datatype AllocFaults = AllocFaults(size: bool, create: bool, rule: bool)

  function AvailableSpec(k: Kernel, p: Pool, f: AllocFaults): (r: (Kernel, Pool, string))
    requires PoolOk(p)
    ensures PoolOk(r.1) && r.2 == r.1.temps[r.1.next]
  {
    var current := p.temps[p.next];
    var size := Size(k, current, f.size);
    if size == None || size.value < MAX_TEMPORARY then (k, p, current)
    else
      var next := p.next + 1;
      if next < |p.temps| then (k, p.(next := next), p.temps[next])
      else
        var name := TempName(|p.temps|);
        var (k1, created) := Create(k, name, MAX_TEMPORARY, f.create);
        if !created then (k1, p.(next := 0), p.temps[0])
        else (InstallRule(k1, name, f.rule).0, Pool(p.temps + [name], next), name)
  }

  // ---------- the blacklist file ----------

  /** A line of ip_blacklist.conf after JSON decoding; a missing lockout_period decodes to 0. */
  datatype BlacklistLine = Blank | Unparsable | Entry(ip: string, lockout: int)

  datatype LineFaults = LineFaults(alloc: AllocFaults, add: bool)

  function LoadLineSpec(k: Kernel, p: Pool, line: BlacklistLine, f: LineFaults): (r: (Kernel, Pool))
    requires PoolOk(p)
    ensures PoolOk(r.1)
  {
    if !line.Entry? then (k, p)
    else if line.lockout == 0 then (Add(k, PERMANENT, line.ip, f.add).0, p)
    else
      var (k1, p1, name) := AvailableSpec(k, p, f.alloc);
      (Add(k1, name, line.ip, f.add).0, p1)
  }

  function BlacklistSpec(k: Kernel, p: Pool, lines: seq<BlacklistLine>, faults: seq<LineFaults>): (r: (Kernel, Pool))
    requires PoolOk(p) && |lines| == |faults|
    ensures PoolOk(r.1)
    decreases |lines|
  {
    if lines == [] then (k, p) else
      var n := |lines| - 1;
      var (k1, p1) := BlacklistSpec(k, p, lines[..n], faults[..n]);
      LoadLineSpec(k1, p1, lines[n], faults[n])
  }

  // ---------- the manager ----------

  class Manager {
    const fw: FirewallManager
    var temporarySets: seq<string>
    var nextTempSet: nat

    ghost function State(): Pool
      reads this
    {
      Pool(temporarySets, nextTempSet)
    }

    ghost predicate Valid()
      reads this, fw
    {
      PoolOk(State()) && fw.Valid()
    }

    constructor (fw: FirewallManager)
      ensures this.fw == fw && temporarySets == [] && nextTempSet == 0
    {
      this.fw, temporarySets, nextTempSet := fw, [], 0;
    }

    method CreateTemporarySet(index: nat, ok: bool) returns (done: bool)
      requires fw.Valid()
      modifies this`temporarySets, fw`sets
      ensures fw.Valid() && (fw.State(), done) == Create(old(fw.State()), TempName(index), MAX_TEMPORARY, ok)
      ensures temporarySets == if done then old(temporarySets) + [TempName(index)] else old(temporarySets)
    {
      var name := TEMPORARY_PREFIX + Decimal(index);
      done := fw.CreateIPSet(name, MAX_TEMPORARY, ok);
      if done {
        temporarySets := temporarySets + [name];
      }
    }

    method Initialize(f: InitFaults) returns (done: bool)
      requires fw.Valid() && temporarySets == [] && nextTempSet == 0
      modifies this, fw
      ensures fw.Valid()
      ensures (fw.State(), if done then Some(State()) else None) == InitializeSpec(old(fw.State()), f)
    {
      done := fw.CreateIPSet(PERMANENT, MAX_FIXED, f.permanent);
      if !done { return; }
      done := fw.CreateIPSet(WHITELIST, MAX_FIXED, f.whitelist);
      if !done { return; }
      done := fw.CreateIPSet(SEARCH_ENGINES, MAX_FIXED, f.searchEngines);
      if !done { return; }
      done := CreateTemporarySet(0, f.temporary);
      if !done { return; }
      assert temporarySets == [TempName(0)];
      done := fw.InstallFirewallRules([PERMANENT, TempName(0)], [f.permanentRule, f.temporaryRule]);
    }

    /** The returned set is the one `nextTempSet` points at afterwards. */
    method GetAvailableTemporarySet(f: AllocFaults) returns (name: string)
      requires Valid()
      modifies this, fw
      ensures Valid() && (fw.State(), State(), name) == AvailableSpec(old(fw.State()), old(State()), f)
    {
      var currentSet := temporarySets[nextTempSet];
      var size := fw.GetIPSetSize(currentSet, f.size);
      if size == None || size.value < MAX_TEMPORARY {
        return currentSet;
      }
      nextTempSet := nextTempSet + 1;
      if nextTempSet >= |temporarySets| {
        var index := |temporarySets|;
        var created := CreateTemporarySet(index, f.create);
        if !created {
          nextTempSet := 0;
          return temporarySets[0];
        }
        ghost var k := fw.State();
        var installed := fw.InstallFirewallRules([temporarySets[index]], [f.rule]);
        OneRule(k, temporarySets[index], f.rule);
      }
      return temporarySets[nextTempSet];
    }

    method LoadBlacklist(lines: seq<BlacklistLine>, faults: seq<LineFaults>)
      requires Valid() && |lines| == |faults|
      modifies this, fw
      ensures Valid() && (fw.State(), State()) == BlacklistSpec(old(fw.State()), old(State()), lines, faults)
    {
      ghost var k, p := fw.State(), State();
      for i := 0 to |lines|
        invariant Valid() && (fw.State(), State()) == BlacklistSpec(k, p, lines[..i], faults[..i])
      {
        assert lines[..i + 1][..i] == lines[..i] && faults[..i + 1][..i] == faults[..i];
        if !lines[i].Entry? {
          continue;
        }
        var name := PERMANENT;
        if lines[i].lockout != 0 {
          name := GetAvailableTemporarySet(faults[i].alloc);
        }
        var added := fw.AddIPToSet(name, lines[i].ip, faults[i].add);
      }
      assert lines[..|lines|] == lines && faults[..|lines|] == faults;
    }
  }

  lemma OneRule(k: Kernel, name: string, ok: bool)
    ensures InstallRules(k, [name], [ok]) == InstallRule(k, name, ok)
  {
    assert [name][1..] == [] && [ok][1..] == [];
  }

  // ---------- room in the returned set ----------

  predicate HasRoom(k: Kernel, name: string) {
    name in k.sets && |k.sets[name].members| < k.sets[name].maxElem
  }

  /** The pool's sets exist with their capacity, and no further temporary set does. */
  ghost predicate Roomy(k: Kernel, p: Pool) {
    && PoolOk(p) && p.next == |p.temps| - 1
    && (forall i: nat :: i < |p.temps| ==> TempName(i) in k.sets && k.sets[TempName(i)].maxElem == MAX_TEMPORARY)
    && (forall i: nat :: i >= |p.temps| ==> TempName(i) !in k.sets)
  }

  /** From a pool that owns every temporary set, the returned one is the last and has room. */
  lemma RoomyAllocates(k: Kernel, p: Pool, f: AllocFaults)
    requires Roomy(k, p) && f.size && f.create
    ensures var (k', p', name) := AvailableSpec(k, p, f); Roomy(k', p') && HasRoom(k', name)
  {
    forall i: nat, j: nat ensures TempName(i) == TempName(j) <==> i == j {
      NamesDistinct(i, j);
    }
  }

  /** Every set of the pool exists in the kernel, with its capacity. */
  ghost predicate Known(k: Kernel, p: Pool) {
    forall i :: 0 <= i < |p.temps| ==> p.temps[i] in k.sets && k.sets[p.temps[i]].maxElem == MAX_TEMPORARY
  }

  /**
   The set that the next block will get, as one can tell from the state and
   from which commands work. A failing size query takes the current set as it
   is. After a restart the manager knows only the first set and finds later ones
   already in the kernel, so one looks a set ahead; a failing creation, or a
   next set of another capacity, sends the caller back to the first.
   */
  function SetAhead(k: Kernel, p: Pool, f: AllocFaults): string
    requires PoolOk(p)
  {
    var next := p.next + 1;
    if !f.size || HasRoom(k, p.temps[p.next]) then p.temps[p.next]
    else if next < |p.temps| then p.temps[next]
    else if !f.create || (TempName(next) in k.sets && k.sets[TempName(next)].maxElem != MAX_TEMPORARY) then p.temps[0]
    else TempName(next)
  }

  /** It has room, or does not exist yet. */
  predicate RoomAhead(k: Kernel, p: Pool, f: AllocFaults)
    requires PoolOk(p)
  {
    SetAhead(k, p, f) in k.sets ==> HasRoom(k, SetAhead(k, p, f))
  }

  /** Whatever fails, the returned set is the one ahead, and has room exactly when there was room ahead. */
  lemma AllocationRoomIff(k: Kernel, p: Pool, f: AllocFaults)
    requires PoolOk(p) && Known(k, p)
    ensures var (k', p', name) := AvailableSpec(k, p, f);
            && name == SetAhead(k, p, f) && name in k'.sets && Members(k', name) == Members(k, name)
            && (HasRoom(k', name) <==> RoomAhead(k, p, f))
  {
    var n := |p.temps|;
    forall i: nat, j: nat ensures TempName(i) == TempName(j) <==> i == j {
      NamesDistinct(i, j);
    }
    assert p.temps[p.next] == TempName(p.next) && p.temps[0] == TempName(0);
    assert p.temps[p.next] in k.sets && p.temps[0] in k.sets;
    if p.next + 1 < n {
      assert p.temps[p.next + 1] in k.sets;
    }
  }

  /** The i-th address of 10.0.0.0/16, for i below 65536. */
  function Quad(i: nat): string {
    "10.0." + Decimal(i / 256) + "." + Decimal(i % 256)
  }

  lemma QuadIsAddress(i: nat)
    ensures IsAddress(Quad(i)) && |Quad(i)| > 1 && Quad(i)[1] == '0'
  {
    assert forall c :: IsDigit(c) ==> IsAddressChar(c);
  }

  lemma QuadInjective(i: nat, j: nat)
    requires Quad(i) == Quad(j)
    ensures i == j
  {
    QuadParts(i);
    QuadParts(j);
    DecimalInjective(i / 256, j / 256);
    DecimalInjective(i % 256, j % 256);
  }

  lemma QuadParts(i: nat)
    ensures Split(Quad(i)[5..], '.') == [Decimal(i / 256), Decimal(i % 256)]
  {
    var third, fourth := Decimal(i / 256), Decimal(i % 256);
    assert Quad(i)[5..] == third + ['.'] + fourth;
    assert '.' !in third && '.' !in fourth;
    SplitCons(third, '.', fourth);
    SplitAtom(fourth, '.');
  }

  /** The first n addresses. */
  function Numbered(n: nat): (s: set<string>) {
    set i | 0 <= i < n :: Quad(i)
  }

  lemma {:induction false} NumberedCount(n: nat)
    ensures |Numbered(n)| == n
  {
    if n > 0 {
      NumberedCount(n - 1);
      NotYetNumbered(n - 1);
      assert Numbered(n) == Numbered(n - 1) + {Quad(n - 1)};
    }
  }

  lemma NotYetNumbered(n: nat)
    ensures Quad(n) !in Numbered(n)
  {
    if Quad(n) in Numbered(n) {
      var i: nat :| i < n && Quad(i) == Quad(n);
      QuadInjective(i, n);
    }
  }

  lemma NumberedAreAddresses(n: nat)
    ensures forall ip :: ip in Numbered(n) ==> IsAddress(ip) && |ip| > 1 && ip[1] == '0'
  {
    forall ip | ip in Numbered(n) ensures IsAddress(ip) && |ip| > 1 && ip[1] == '0' {
      var i: nat :| i < n && ip == Quad(i);
      QuadIsAddress(i);
    }
  }

  /** Two sets filled before a restart: the pool that starts again hands out the full second one. */
  lemma RestartHandsOutFullSet(full: IPSet, k0: Kernel)
    requires full == IPSet(MAX_TEMPORARY, Numbered(MAX_TEMPORARY))
    requires k0 == Kernel(map[TempName(0) := full, TempName(1) := full], [])
    ensures KernelOk(k0)
    ensures var (k1, p) := InitializeSpec(k0, ALL_WORK);
            && p.Some? && PoolOk(p.value)
            && var (k2, p2, name) := AvailableSpec(k1, p.value, AllocFaults(true, true, true));
               name == TempName(1) && !HasRoom(k2, name)
  {
    NumberedCount(MAX_TEMPORARY);
    NumberedAreAddresses(MAX_TEMPORARY);
    var k1 := InitializeSpec(k0, ALL_WORK).0;
    RestartFinds(k0, full);
    SecondIsFull(k1, Pool([TempName(0)], 0), full);
  }

  lemma RestartFinds(k0: Kernel, full: IPSet)
    requires k0.sets == map[TempName(0) := full, TempName(1) := full] && full.maxElem == MAX_TEMPORARY
    ensures var (k1, p) := InitializeSpec(k0, ALL_WORK);
            && p == Some(Pool([TempName(0)], 0))
            && TempName(0) in k1.sets && TempName(1) in k1.sets
            && k1.sets[TempName(0)] == full == k1.sets[TempName(1)]
  {
    NamesDistinct(0, 1);
    NamesDistinct(1, 0);
    FixedNamesDistinct();
    InitializedFrom(k0);
  }

  lemma SecondIsFull(k: Kernel, p: Pool, full: IPSet)
    requires p == Pool([TempName(0)], 0) && full.maxElem == MAX_TEMPORARY == |full.members|
    requires TempName(0) in k.sets && TempName(1) in k.sets && k.sets[TempName(0)] == full == k.sets[TempName(1)]
    ensures PoolOk(p)
    ensures var (k', p', name) := AvailableSpec(k, p, AllocFaults(true, true, true));
            name == TempName(1) && !HasRoom(k', name)
  {
    AllocationRoomIff(k, p, AllocFaults(true, true, true));
  }

  lemma FixedNamesDistinct()
    ensures PERMANENT != WHITELIST && PERMANENT != SEARCH_ENGINES && WHITELIST != SEARCH_ENGINES
  {
    assert PERMANENT[6] == 'p' && WHITELIST[6] == 'w' && SEARCH_ENGINES[6] == 's';
  }

  function Ensured(k: Kernel, name: string, maxElem: nat): IPSet {
    if name in k.sets then k.sets[name] else IPSet(maxElem, {})
  }

  /** Start-up over a kernel that has none of our sets, or has them with our capacities. */
  lemma InitializedFrom(k: Kernel)
    requires forall name :: name in {PERMANENT, WHITELIST, SEARCH_ENGINES} && name in k.sets ==>
               k.sets[name].maxElem == MAX_FIXED
    requires TempName(0) in k.sets ==> k.sets[TempName(0)].maxElem == MAX_TEMPORARY
    ensures var (k', p) := InitializeSpec(k, ALL_WORK);
            && p == Some(Pool([TempName(0)], 0))
            && k'.sets == k.sets[PERMANENT := Ensured(k, PERMANENT, MAX_FIXED)]
                                [WHITELIST := Ensured(k, WHITELIST, MAX_FIXED)]
                                [SEARCH_ENGINES := Ensured(k, SEARCH_ENGINES, MAX_FIXED)]
                                [TempName(0) := Ensured(k, TempName(0), MAX_TEMPORARY)]
  {
    NamesDistinct(0, 0);
    FixedNamesDistinct();
    CreateEnsures(k, PERMANENT, MAX_FIXED);
    var k1 := Create(k, PERMANENT, MAX_FIXED, true).0;
    CreateEnsures(k1, WHITELIST, MAX_FIXED);
    var k2 := Create(k1, WHITELIST, MAX_FIXED, true).0;
    CreateEnsures(k2, SEARCH_ENGINES, MAX_FIXED);
    var k3 := Create(k2, SEARCH_ENGINES, MAX_FIXED, true).0;
    CreateEnsures(k3, TempName(0), MAX_TEMPORARY);
    var k4 := Create(k3, TempName(0), MAX_TEMPORARY, true).0;
    TwoRules(k4, PERMANENT, TempName(0));
  }

  /** A creation that works: the set is new, or has that capacity already. */
  predicate Creatable(k: Kernel, name: string, maxElem: nat, ok: bool) {
    ok && (name in k.sets ==> k.sets[name].maxElem == maxElem)
  }

  /** Start-up succeeds exactly when its four creations and two rules do; then its sets are there, the pool has one. */
  lemma InitializeWorksIff(k: Kernel, f: InitFaults)
    ensures var (k', p) := InitializeSpec(k, f);
            (p.Some? <==>
              && Creatable(k, "ukabu-permanent", 50000, f.permanent)
              && Creatable(k, "ukabu-whitelist", 50000, f.whitelist)
              && Creatable(k, "ukabu-search-engines", 50000, f.searchEngines)
              && Creatable(k, TempName(0), 20000, f.temporary)
              && ("ukabu-permanent" in k.rules || f.permanentRule) && (TempName(0) in k.rules || f.temporaryRule))
    ensures TempName(0) == "ukabu-temporary_" + "0"
  {
    NamesDistinct(0, 0);
    FixedNamesDistinct();
    var k1 := Create(k, PERMANENT, MAX_FIXED, f.permanent).0;
    var k2 := Create(k1, WHITELIST, MAX_FIXED, f.whitelist).0;
    var k3 := Create(k2, SEARCH_ENGINES, MAX_FIXED, f.searchEngines).0;
    var k4 := Create(k3, TempName(0), MAX_TEMPORARY, f.temporary).0;
    CreateApart(k, PERMANENT, MAX_FIXED, f.permanent);
    CreateApart(k1, WHITELIST, MAX_FIXED, f.whitelist);
    CreateApart(k2, SEARCH_ENGINES, MAX_FIXED, f.searchEngines);
    CreateApart(k3, TempName(0), MAX_TEMPORARY, f.temporary);
    RulesInstallIff(k4, PERMANENT, TempName(0), f.permanentRule, f.temporaryRule);
  }

  /** A creation concerns its own set only. */
  lemma CreateApart(k: Kernel, name: string, maxElem: nat, ok: bool)
    ensures var (k', done) := Create(k, name, maxElem, ok);
            && (done <==> Creatable(k, name, maxElem, ok)) && (done ==> name in k'.sets) && k'.rules == k.rules
            && (forall other :: other != name ==> (other in k'.sets <==> other in k.sets))
            && (forall other :: other != name && other in k.sets ==> k'.sets[other] == k.sets[other])
            && forall other :: other in k.sets ==> other in k'.sets
  {
  }

  lemma RulesInstallIff(k: Kernel, a: string, b: string, okA: bool, okB: bool)
    requires a != b
    ensures InstallRules(k, [a, b], [okA, okB]).1
       <==> (a in k.rules || (okA && a in k.sets)) && (b in k.rules || (okB && b in k.sets))
  {
    assert [a, b][1..] == [b] && [okA, okB][1..] == [okB];
    OneRule(InstallRule(k, a, okA).0, b, okB);
  }

  lemma CreateEnsures(k: Kernel, name: string, maxElem: nat)
    requires name in k.sets ==> k.sets[name].maxElem == maxElem
    ensures Create(k, name, maxElem, true) == (k.(sets := k.sets[name := Ensured(k, name, maxElem)]), true)
  {
    if name in k.sets {
      assert k.sets[name := k.sets[name]] == k.sets;
    }
  }

  lemma TwoRules(k: Kernel, a: string, b: string)
    requires a in k.sets && b in k.sets
    ensures InstallRules(k, [a, b], [true, true]).1
    ensures InstallRules(k, [a, b], [true, true]).0.sets == k.sets
  {
    assert [a, b][1..] == [b] && [true, true][1..] == [true];
    OneRule(InstallRule(k, a, true).0, b, true);
  }
}
