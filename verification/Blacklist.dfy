/** What loading the blacklist file leaves in the kernel, starting from one without our sets. */
module Blacklist {
  import opened Text
  import opened Firewall
  import opened IpsetManager

  ghost predicate NoFaults(faults: seq<LineFaults>) {
    forall i :: 0 <= i < |faults| ==> faults[i] == LineFaults(AllocFaults(true, true, true), true)
  }

  /** A kernel that has none of the manager's sets. */
  ghost predicate Untouched(k: Kernel) {
    && (forall name :: name in {PERMANENT, WHITELIST, SEARCH_ENGINES} ==> name !in k.sets)
    && (forall i: nat :: TempName(i) !in k.sets)
  }

  predicate IsTemporary(line: BlacklistLine) {
    line.Entry? && line.lockout != 0
  }

  function TemporaryCount(lines: seq<BlacklistLine>): nat {
    if lines == [] then 0 else
      TemporaryCount(lines[..|lines| - 1]) + if IsTemporary(lines[|lines| - 1]) then 1 else 0
  }

  /** The addresses listed for good. */
  function PermanentAddresses(lines: seq<BlacklistLine>): set<string> {
    set i | 0 <= i < |lines| && lines[i].Entry? && lines[i].lockout == 0 && IsAddress(lines[i].ip) :: lines[i].ip
  }

  /** The sets before the current one are full, and every temporary entry has gone into one of them. */
  ghost predicate Filled(k: Kernel, p: Pool, lines: seq<BlacklistLine>) {
    && Roomy(k, p)
    && (forall i: nat :: i < p.next ==> |Members(k, TempName(i))| == MAX_TEMPORARY)
    && |Members(k, TempName(p.next))| <= MAX_TEMPORARY
    && (forall j :: 0 <= j < |lines| && IsTemporary(lines[j]) && IsAddress(lines[j].ip) ==>
          InSomeTemporary(k, p, lines[j].ip))
    && TemporaryCount(lines) >= p.next * MAX_TEMPORARY + |Members(k, TempName(p.next))|
    && (p.next > 0 ==> TemporaryCount(lines) > p.next * MAX_TEMPORARY)
  }

  ghost predicate InSomeTemporary(k: Kernel, p: Pool, ip: string) {
    exists i: nat :: i <= p.next && ip in Members(k, TempName(i))
  }

  /** The permanent set has taken what it could. */
  ghost predicate PermanentFilled(k: Kernel, lines: seq<BlacklistLine>) {
    && PERMANENT in k.sets && k.sets[PERMANENT].maxElem == MAX_FIXED
    && Members(k, PERMANENT) <= PermanentAddresses(lines)
    && (Members(k, PERMANENT) == PermanentAddresses(lines) || |Members(k, PERMANENT)| == MAX_FIXED)
    && |Members(k, PERMANENT)| <= MAX_FIXED
  }

  lemma AllNamesDistinct()
    ensures forall i: nat, j: nat :: TempName(i) == TempName(j) ==> i == j
    ensures forall i: nat :: TempName(i) != PERMANENT && TempName(i) != WHITELIST && TempName(i) != SEARCH_ENGINES
  {
    forall i: nat, j: nat ensures TempName(i) == TempName(j) ==> i == j {
      NamesDistinct(i, j);
    }
    forall i: nat ensures TempName(i) != PERMANENT && TempName(i) != WHITELIST && TempName(i) != SEARCH_ENGINES {
      NamesDistinct(i, i);
    }
  }

  lemma StartFilled(k0: Kernel)
    requires Untouched(k0)
    ensures InitializeSpec(k0, ALL_WORK).1.Some?
    ensures Filled(InitializeSpec(k0, ALL_WORK).0, InitializeSpec(k0, ALL_WORK).1.value, [])
    ensures PermanentFilled(InitializeSpec(k0, ALL_WORK).0, [])
  {
    AllNamesDistinct();
    FixedNamesDistinct();
    InitializedFrom(k0);
    var (k, p) := InitializeSpec(k0, ALL_WORK);
    assert p.value.temps[0] == TempName(0);
    assert k.sets[TempName(0)] == IPSet(MAX_TEMPORARY, {});
    assert k.sets[PERMANENT] == IPSet(MAX_FIXED, {});
  }

  /** Taking the current set, or opening the next one, keeps what is already filled. */
  lemma AllocationKeeps(k: Kernel, p: Pool, lines: seq<BlacklistLine>)
    requires Filled(k, p, lines)
    ensures var (k', p', name) := AvailableSpec(k, p, AllocFaults(true, true, true));
            && Roomy(k', p') && name == TempName(p'.next) && HasRoom(k', name)
            && p.next <= p'.next
            && (forall i: nat :: i <= p.next ==> Members(k', TempName(i)) == Members(k, TempName(i)))
            && (forall i: nat :: i < p'.next ==> |Members(k', TempName(i))| == MAX_TEMPORARY)
            && TemporaryCount(lines) >= p'.next * MAX_TEMPORARY + |Members(k', name)|
            && Members(k', PERMANENT) == Members(k, PERMANENT)
            && (PERMANENT in k.sets ==> PERMANENT in k'.sets && k'.sets[PERMANENT] == k.sets[PERMANENT])
  {
    AllNamesDistinct();
    RoomyAllocates(k, p, AllocFaults(true, true, true));
    assert p.temps[p.next] == TempName(p.next);
    assert TempName(p.next) in k.sets;
  }

  lemma AddedTo(k: Kernel, name: string, ip: string)
    requires HasRoom(k, name)
    ensures var k' := Add(k, name, ip, true).0;
            && k'.sets.Keys == k.sets.Keys
            && (forall n :: n in k.sets && n != name ==> k'.sets[n] == k.sets[n])
            && k'.sets[name].maxElem == k.sets[name].maxElem
            && Members(k', name) == (if IsAddress(ip) then Members(k, name) + {ip} else Members(k, name))
            && |Members(k, name)| <= |Members(k', name)| <= |Members(k, name)| + 1
            && |Members(k', name)| <= k.sets[name].maxElem
  {
    if IsAddress(ip) && ip in Members(k, name) {
      assert Members(k, name) + {ip} == Members(k, name);
    }
  }

  lemma TemporaryStep(k: Kernel, p: Pool, lines: seq<BlacklistLine>, line: BlacklistLine)
    requires Filled(k, p, lines) && PermanentFilled(k, lines) && IsTemporary(line)
    ensures var (k', p') := LoadLineSpec(k, p, line, LineFaults(AllocFaults(true, true, true), true));
            Filled(k', p', lines + [line]) && PermanentFilled(k', lines + [line])
  {
    var (k1, p1, name) := AvailableSpec(k, p, AllocFaults(true, true, true));
    var k' := Add(k1, name, line.ip, true).0;
    var more := lines + [line];
    AllNamesDistinct();
    AllocationKeeps(k, p, lines);
    AddedTo(k1, name, line.ip);
    assert more[..|more| - 1] == lines;
    forall i: nat ensures Members(k1, TempName(i)) <= Members(k', TempName(i)) {
    }
    forall j | 0 <= j < |more| && IsTemporary(more[j]) && IsAddress(more[j].ip)
      ensures InSomeTemporary(k', p1, more[j].ip)
    {
      if j < |lines| {
        StaysInSome(k, p, k', p1, lines[j].ip);
      } else {
        assert line.ip in Members(k', TempName(p1.next));
      }
    }
    PermanentUnchanged(k, k', lines, line);
  }

  lemma StaysInSome(k: Kernel, p: Pool, k': Kernel, p': Pool, ip: string)
    requires InSomeTemporary(k, p, ip) && p.next <= p'.next
    requires forall i: nat :: i <= p.next ==> Members(k, TempName(i)) <= Members(k', TempName(i))
    ensures InSomeTemporary(k', p', ip)
  {
    var i: nat :| i <= p.next && ip in Members(k, TempName(i));
    assert ip in Members(k', TempName(i));
  }

  lemma PermanentUnchanged(k: Kernel, k': Kernel, lines: seq<BlacklistLine>, line: BlacklistLine)
    requires PermanentFilled(k, lines) && !(line.Entry? && line.lockout == 0)
    requires PERMANENT in k'.sets && k'.sets[PERMANENT] == k.sets[PERMANENT]
    ensures PermanentFilled(k', lines + [line])
  {
    MorePermanent(lines, line);
  }

  lemma MorePermanent(lines: seq<BlacklistLine>, line: BlacklistLine)
    ensures PermanentAddresses(lines + [line])
         == PermanentAddresses(lines) + if line.Entry? && line.lockout == 0 && IsAddress(line.ip) then {line.ip} else {}
  {
    var more := lines + [line];
    forall ip ensures ip in PermanentAddresses(more) <==>
                      ip in PermanentAddresses(lines)
                        || (line.Entry? && line.lockout == 0 && IsAddress(line.ip) && ip == line.ip)
    {
      if ip in PermanentAddresses(lines) {
        var i :| 0 <= i < |lines| && lines[i].Entry? && lines[i].lockout == 0 && IsAddress(lines[i].ip)
          && lines[i].ip == ip;
        assert more[i] == lines[i];
      }
      if line.Entry? && line.lockout == 0 && IsAddress(line.ip) && ip == line.ip {
        assert more[|lines|] == line;
      }
    }
  }

  /** The temporary sets are untouched by a line that is not a temporary entry. */
  lemma OtherLineKeepsFilled(k: Kernel, k': Kernel, p: Pool, lines: seq<BlacklistLine>, line: BlacklistLine)
    requires Filled(k, p, lines) && !IsTemporary(line)
    requires k'.sets.Keys == k.sets.Keys && forall n :: n in k.sets && n != PERMANENT ==> k'.sets[n] == k.sets[n]
    ensures Filled(k', p, lines + [line])
  {
    var more := lines + [line];
    AllNamesDistinct();
    assert more[..|more| - 1] == lines;
    forall i: nat ensures Members(k', TempName(i)) == Members(k, TempName(i)) {
    }
    forall j | 0 <= j < |more| && IsTemporary(more[j]) && IsAddress(more[j].ip)
      ensures InSomeTemporary(k', p, more[j].ip)
    {
      assert InSomeTemporary(k, p, lines[j].ip);
      var i: nat :| i <= p.next && lines[j].ip in Members(k, TempName(i));
      assert lines[j].ip in Members(k', TempName(i));
    }
  }

  lemma PermanentStep(k: Kernel, p: Pool, lines: seq<BlacklistLine>, line: BlacklistLine)
    requires Filled(k, p, lines) && PermanentFilled(k, lines) && !IsTemporary(line)
    ensures var (k', p') := LoadLineSpec(k, p, line, LineFaults(AllocFaults(true, true, true), true));
            Filled(k', p', lines + [line]) && PermanentFilled(k', lines + [line])
  {
    MorePermanent(lines, line);
    var k' := LoadLineSpec(k, p, line, LineFaults(AllocFaults(true, true, true), true)).0;
    if line.Entry? {
      if HasRoom(k, PERMANENT) {
        AddedTo(k, PERMANENT, line.ip);
      } else {
        assert k' == k;
      }
    }
    OtherLineKeepsFilled(k, k', p, lines, line);
  }

  lemma {:induction false} LoadingFills(k: Kernel, p: Pool, lines: seq<BlacklistLine>, faults: seq<LineFaults>)
    requires |lines| == |faults| && NoFaults(faults)
    requires Filled(k, p, []) && PermanentFilled(k, [])
    ensures var (k', p') := BlacklistSpec(k, p, lines, faults); Filled(k', p', lines) && PermanentFilled(k', lines)
  {
    if lines != [] {
      var n := |lines| - 1;
      LoadingFills(k, p, lines[..n], faults[..n]);
      var (k1, p1) := BlacklistSpec(k, p, lines[..n], faults[..n]);
      assert faults[n] == LineFaults(AllocFaults(true, true, true), true);
      if IsTemporary(lines[n]) {
        TemporaryStep(k1, p1, lines[..n], lines[n]);
      } else {
        PermanentStep(k1, p1, lines[..n], lines[n]);
      }
      assert lines == lines[..n] + [lines[n]];
    } else {
      assert lines == [];
    }
  }

  /** Sets needed for m temporary entries. */
  function SetsFor(m: nat): nat {
    if m <= 20000 then 1 else (m + 19999) / 20000
  }

  /**
   Loading any file on a fresh kernel, with working commands: every temporary
   entry is in some temporary set, the sets fill in index order and none
   overflows, and m entries open at most max(1, ceil(m/20000)) of them.
   */
  lemma TemporaryEntriesLoaded(k0: Kernel, lines: seq<BlacklistLine>, faults: seq<LineFaults>)
    requires Untouched(k0) && |lines| == |faults| && NoFaults(faults)
    ensures var (k1, p0) := InitializeSpec(k0, ALL_WORK);
            && p0.Some? && PoolOk(p0.value)
            && var (k, p) := BlacklistSpec(k1, p0.value, lines, faults);
               && (forall j :: 0 <= j < |lines| && IsTemporary(lines[j]) && IsAddress(lines[j].ip)
                               ==> InSomeTemporary(k, p, lines[j].ip))
               && (forall i: nat :: i < p.next ==> |Members(k, TempName(i))| == 20000)
               && |Members(k, TempName(p.next))| <= 20000
               && p.next == |p.temps| - 1
               && |p.temps| <= SetsFor(TemporaryCount(lines))
  {
    StartFilled(k0);
    var (k1, p0) := InitializeSpec(k0, ALL_WORK);
    LoadingFills(k1, p0.value, lines, faults);
    var m, p := TemporaryCount(lines), BlacklistSpec(k1, p0.value, lines, faults).1;
    if p.next > 0 {
      assert m + MAX_TEMPORARY - 1 >= (p.next + 1) * MAX_TEMPORARY;
    }
  }

  /** Every permanent entry is in the permanent set exactly when they are at most 50000. */
  lemma PermanentEntriesLoadedIff(k0: Kernel, lines: seq<BlacklistLine>, faults: seq<LineFaults>)
    requires Untouched(k0) && |lines| == |faults| && NoFaults(faults)
    ensures var (k1, p0) := InitializeSpec(k0, ALL_WORK);
            && p0.Some? && PoolOk(p0.value)
            && var loaded := Members(BlacklistSpec(k1, p0.value, lines, faults).0, PERMANENT);
               && loaded <= PermanentAddresses(lines)
               && (PermanentAddresses(lines) <= loaded <==> |PermanentAddresses(lines)| <= 50000)
  {
    StartFilled(k0);
    var (k1, p0) := InitializeSpec(k0, ALL_WORK);
    LoadingFills(k1, p0.value, lines, faults);
    WholeIffItFits(BlacklistSpec(k1, p0.value, lines, faults).0, lines);
  }

  lemma WholeIffItFits(k: Kernel, lines: seq<BlacklistLine>)
    requires PermanentFilled(k, lines)
    ensures Members(k, PERMANENT) <= PermanentAddresses(lines)
    ensures PermanentAddresses(lines) <= Members(k, PERMANENT) <==> |PermanentAddresses(lines)| <= 50000
  {
    var loaded := Members(k, PERMANENT);
    SubsetOfSameSize(loaded, PermanentAddresses(lines));
    SmallerSet(loaded, PermanentAddresses(lines));
  }

  function NumberedLines(n: nat): seq<BlacklistLine> {
    seq(n, i requires 0 <= i < n => Entry(Quad(i), 0))
  }

  /** A file of 50001 permanent entries does not fit. */
  lemma TooManyPermanentEntries(k0: Kernel, faults: seq<LineFaults>)
    requires Untouched(k0) && |faults| == 50001 && NoFaults(faults)
    ensures var lines := NumberedLines(50001);
            var (k1, p0) := InitializeSpec(k0, ALL_WORK);
            && p0.Some? && PoolOk(p0.value)
            && !(PermanentAddresses(lines) <= Members(BlacklistSpec(k1, p0.value, lines, faults).0, PERMANENT))
  {
    var n := MAX_FIXED + 1;
    NumberedCount(n);
    NumberedListed(n);
    PermanentEntriesLoadedIff(k0, NumberedLines(n), faults);
  }

  lemma NumberedListed(n: nat)
    ensures PermanentAddresses(NumberedLines(n)) == Numbered(n)
  {
    NumberedAreAddresses(n);
    var lines := NumberedLines(n);
    forall ip ensures ip in PermanentAddresses(lines) <==> ip in Numbered(n) {
      if ip in Numbered(n) {
        var i :| 0 <= i < n && ip == Quad(i);
        assert lines[i] == Entry(ip, 0) && IsAddress(ip);
      }
    }
  }

  lemma {:induction false} SubsetOfSameSize<T>(a: set<T>, b: set<T>)
    requires a <= b
    ensures |a| >= |b| ==> a == b
  {
    if a != {} {
      var x :| x in a;
      SubsetOfSameSize(a - {x}, b - {x});
    }
  }
}
