/**
 The kernel as the daemon sees it through `ipset` and `iptables`: named sets
 of addresses with a capacity, and the list of DROP rules on INPUT. Every
 command takes an `ok` flag; false is a command that fails on its own account.
 */
module Firewall {
  import opened Prelude
  import opened Text

  datatype IPSet = IPSet(maxElem: nat, members: set<string>)

  /** `rules` names the set each DROP rule matches, first rule first. */
  datatype Kernel = Kernel(sets: map<string, IPSet>, rules: seq<string>)

  /** Text that `ipset add` may take for an address or a network: the sets are created for IPv4. */
  predicate IsAddressChar(c: char) {
    IsDigit(c) || c == '.' || c == '/'
  }

  predicate IsAddress(ip: string) {
    ip != "" && forall i :: 0 <= i < |ip| ==> IsAddressChar(ip[i])
  }

  /** The characters of an IPv4 address or network. */
  lemma AddressCharacters(ip: string)
    ensures IsAddress(ip) <==> ip != "" && forall i :: 0 <= i < |ip| ==> ip[i] in "0123456789./"
  {
    forall i | 0 <= i < |ip| ensures IsAddressChar(ip[i]) <==> ip[i] in "0123456789./" {
      DigitIsOneOfTen(ip[i]);
    }
  }

  lemma DigitIsOneOfTen(c: char)
    ensures IsDigit(c) <==> c in "0123456789"
  {
    if IsDigit(c) {
      var d := DigitValue(c);
      assert c == "0123456789"[d];
    }
  }

  // ---------- specification ----------

  /** `ipset create -exist`: an existing set is fine when it was created with the same capacity. */
  function Create(k: Kernel, name: string, maxElem: nat, ok: bool): (Kernel, bool) {
    if !ok then (k, false)
    else if name in k.sets then (k, k.sets[name].maxElem == maxElem)
    else (k.(sets := k.sets[name := IPSet(maxElem, {})]), true)
  }

  /** `ipset add -exist`: a full set refuses a new member. */
  function Add(k: Kernel, name: string, ip: string, ok: bool): (Kernel, bool) {
    if !ok || name !in k.sets || !IsAddress(ip) then (k, false) else
      var s := k.sets[name];
      if ip in s.members then (k, true)
      else if |s.members| >= s.maxElem then (k, false)
      else (k.(sets := k.sets[name := s.(members := s.members + {ip})]), true)
  }

  /** `ipset del -exist`. */
  function Remove(k: Kernel, name: string, ip: string, ok: bool): (Kernel, bool) {
    if !ok || name !in k.sets || !IsAddress(ip) then (k, false) else
      var s := k.sets[name];
      (k.(sets := k.sets[name := s.(members := s.members - {ip})]), true)
  }

  function Size(k: Kernel, name: string, ok: bool): Option<nat> {
    if ok && name in k.sets then Some(|k.sets[name].members|) else None
  }

  /** `iptables -C`, then `-I INPUT 1` when there is no such rule yet. */
  function InstallRule(k: Kernel, name: string, ok: bool): (Kernel, bool) {
    if name in k.rules then (k, true)
    else if !ok || name !in k.sets then (k, false)
    else (k.(rules := [name] + k.rules), true)
  }

  /** Rules for several sets; the first failure ends the work. */
  function InstallRules(k: Kernel, names: seq<string>, oks: seq<bool>): (Kernel, bool)
    requires |names| == |oks|
    decreases names
  {
    if names == [] then (k, true) else
      var (k1, done) := InstallRule(k, names[0], oks[0]);
      if !done then (k1, false) else InstallRules(k1, names[1..], oks[1..])
  }

  function Members(k: Kernel, name: string): set<string> {
    if name in k.sets then k.sets[name].members else {}
  }

  /** Membership holds addresses only, and no set exceeds its capacity. */
  ghost predicate KernelOk(k: Kernel) {
    forall name :: name in k.sets ==>
      |k.sets[name].members| <= k.sets[name].maxElem && forall ip :: ip in k.sets[name].members ==> IsAddress(ip)
  }

  // ---------- the listing ----------

  const MEMBERS := "Members:"

  function TrimGo(s: string): string {
    Trim(s, IsGoSpace)
  }

  function Lines(ls: seq<string>): string {
    if ls == [] then "" else ls[0] + ['\n'] + Lines(ls[1..])
  }

  /** What is collected from the lines, the flag telling whether the member section has begun. */
  function Scan(lines: seq<string>, inMembers: bool): seq<string> {
    if lines == [] then [] else
      var line := TrimGo(lines[0]);
      if line == MEMBERS then Scan(lines[1..], true)
      else if inMembers && line != "" && !("Size" <= line) then [line] + Scan(lines[1..], inMembers)
      else Scan(lines[1..], inMembers)
  }

  lemma ScanNext(lines: seq<string>, i: nat, inMembers: bool)
    requires i < |lines|
    ensures var line := TrimGo(lines[i]);
            Scan(lines[i..], inMembers) ==
            if line == MEMBERS then Scan(lines[i + 1..], true)
            else (if inMembers && line != "" && !("Size" <= line) then [line] else []) + Scan(lines[i + 1..], inMembers)
  {
    assert lines[i..][1..] == lines[i + 1..];
  }

  /** The parsing loop of `ListIPSet`. */
  method ParseListing(output: string) returns (ips: seq<string>)
    ensures ips == Scan(Split(output, '\n'), false)
  {
    ips := [];
    var lines := Split(output, '\n');
    var inMembers := false;
    for i := 0 to |lines|
      invariant ips + Scan(lines[i..], inMembers) == Scan(lines, false)
    {
      ScanNext(lines, i, inMembers);
      var line := TrimGo(lines[i]);
      if line == MEMBERS {
        inMembers := true;
        continue;
      }
      if inMembers && line != "" && !("Size" <= line) {
        ips := ips + [line];
      }
    }
  }

  /**
   After the member heading, every trimmed line counts but an empty one, a heading and one that
   starts with "Size".
   */
  lemma {:induction false} ScanCollects(lines: seq<string>, l: string)
    ensures l in Scan(lines, true)
       <==> l != "" && l != "Members:" && !("Size" <= l) && exists i :: 0 <= i < |lines| && TrimGo(lines[i]) == l
  {
    if lines != [] {
      ScanCollects(lines[1..], l);
      if i :| 0 <= i < |lines| && TrimGo(lines[i]) == l {
        assert i > 0 ==> TrimGo(lines[1..][i - 1]) == l;
      }
      if i :| 0 <= i < |lines[1..]| && TrimGo(lines[1..][i]) == l {
        assert TrimGo(lines[i + 1]) == l;
      }
    }
  }

  lemma {:induction false} SplitLines(ls: seq<string>)
    requires forall l :: l in ls ==> '\n' !in l
    ensures Split(Lines(ls), '\n') == ls + [""]
  {
    if ls != [] {
      assert ls[0] in ls;
      SplitCons(ls[0], '\n', Lines(ls[1..]));
      SplitLines(ls[1..]);
      assert ls + [""] == [ls[0]] + (ls[1..] + [""]);
    }
  }

  /** An address line is a member line. */
  lemma AddressLine(ip: string)
    requires IsAddress(ip)
    ensures '\n' !in ip && TrimGo(ip) == ip && ip != MEMBERS && !("Size" <= ip)
  {
    assert forall c :: IsAddressChar(c) ==> !IsGoSpace(c) && c != '\n';
    TrimKeeps(ip, IsGoSpace);
    assert IsAddressChar(ip[0]) && MEMBERS[0] == 'M' && "Size"[0] == 'S';
  }

  lemma {:induction false} ScanMembers(members: seq<string>)
    requires forall ip :: ip in members ==> IsAddress(ip)
    ensures Scan(members + [""], true) == members
  {
    if members == [] {
      assert members + [""] == [""] && [""][1..] == [] && TrimGo("") == "";
    } else {
      assert members[0] in members;
      AddressLine(members[0]);
      ScanMembers(members[1..]);
      assert (members + [""])[1..] == members[1..] + [""];
    }
  }

  lemma MembersTrims()
    ensures TrimGo(MEMBERS) == MEMBERS
  {
    assert MEMBERS[0] == 'M' && MEMBERS[7] == ':';
    TrimKeeps(MEMBERS, IsGoSpace);
  }

  lemma ScanBegins(rest: seq<string>)
    ensures Scan([MEMBERS] + rest, false) == Scan(rest, true)
  {
    assert ([MEMBERS] + rest)[1..] == rest;
    MembersTrims();
  }

  lemma ScanSkips(line: string, rest: seq<string>)
    requires TrimGo(line) != MEMBERS
    ensures Scan([line] + rest, false) == Scan(rest, false)
  {
    assert ([line] + rest)[1..] == rest;
  }

  lemma {:induction false} ScanHeader(header: seq<string>, rest: seq<string>)
    requires forall l :: l in header ==> TrimGo(l) != MEMBERS
    ensures Scan(header + ([MEMBERS] + rest), false) == Scan(rest, true)
  {
    if header == [] {
      assert header + ([MEMBERS] + rest) == [MEMBERS] + rest;
      ScanBegins(rest);
    } else {
      assert header[0] in header && forall l :: l in header[1..] ==> l in header;
      ScanHeader(header[1..], rest);
      ScanSkips(header[0], header[1..] + ([MEMBERS] + rest));
      HeadOfAppend(header, [MEMBERS] + rest);
    }
  }

  /** The listing round trip: the parse returns the members, in the order printed. */
  lemma ListingReadsBack(header: seq<string>, members: seq<string>)
    requires forall l :: l in header ==> '\n' !in l && TrimGo(l) != MEMBERS
    requires forall ip :: ip in members ==> IsAddress(ip)
    ensures Scan(Split(Lines(header + [MEMBERS] + members), '\n'), false) == members
  {
    var lines := header + [MEMBERS] + members;
    forall l | l in lines ensures '\n' !in l {
      if l in members {
        AddressLine(l);
      }
    }
    SplitLines(lines);
    assert lines + [""] == header + ([MEMBERS] + (members + [""]));
    ScanHeader(header, members + [""]);
    ScanMembers(members);
  }

  // ---------- the manager and the kernel behind it ----------

  class FirewallManager {
    var sets: map<string, IPSet>
    var rules: seq<string>
    const header: seq<string>

    ghost function State(): Kernel
      reads this
    {
      Kernel(sets, rules)
    }

    /** The kernel is consistent, and the listing header is no member section. */
    ghost predicate Valid()
      reads this
    {
      && KernelOk(State())
      && forall l :: l in header ==> '\n' !in l && TrimGo(l) != MEMBERS
    }

    constructor (k: Kernel, header: seq<string>)
      requires KernelOk(k) && forall l :: l in header ==> '\n' !in l && TrimGo(l) != MEMBERS
      ensures Valid() && State() == k
    {
      sets, rules := k.sets, k.rules;
      this.header := header;
    }

    method CreateIPSet(name: string, maxElem: nat, ok: bool) returns (done: bool)
      requires Valid()
      modifies this`sets
      ensures Valid() && (State(), done) == Create(old(State()), name, maxElem, ok)
    {
      if !ok {
        return false;
      }
      if name in sets {
        return sets[name].maxElem == maxElem;
      }
      sets := sets[name := IPSet(maxElem, {})];
      return true;
    }

    method AddIPToSet(name: string, ip: string, ok: bool) returns (done: bool)
      requires Valid()
      modifies this`sets
      ensures Valid() && (State(), done) == Add(old(State()), name, ip, ok)
    {
      if !ok || name !in sets || !IsAddress(ip) {
        return false;
      }
      var s := sets[name];
      if ip !in s.members {
        if |s.members| >= s.maxElem {
          return false;
        }
        sets := sets[name := s.(members := s.members + {ip})];
      }
      return true;
    }

    method RemoveIPFromSet(name: string, ip: string, ok: bool) returns (done: bool)
      requires Valid()
      modifies this`sets
      ensures Valid() && (State(), done) == Remove(old(State()), name, ip, ok)
    {
      if !ok || name !in sets || !IsAddress(ip) {
        return false;
      }
      var s := sets[name];
      SmallerSet(s.members - {ip}, s.members);
      sets := sets[name := s.(members := s.members - {ip})];
      return true;
    }

    /** The text of `ipset list`, members in the kernel's own order. */
    method Listing(name: string) returns (output: string, ghost order: seq<string>)
      requires Valid() && name in sets
      ensures output == Lines(header + [MEMBERS] + order)
      ensures |order| == |sets[name].members| && forall ip :: ip in order <==> ip in sets[name].members
    {
      var lines: seq<string>, todo := [], sets[name].members;
      while todo != {}
        invariant todo <= sets[name].members
        invariant |lines| + |todo| == |sets[name].members|
        invariant forall ip :: ip in lines <==> ip in sets[name].members && ip !in todo
        decreases todo
      {
        var ip :| ip in todo;
        lines, todo := lines + [ip], todo - {ip};
      }
      order := lines;
      output := Lines(header + [MEMBERS] + lines);
    }

    method ListIPSet(name: string, ok: bool) returns (ips: Option<seq<string>>)
      requires Valid()
      ensures ips.Some? <==> ok && name in sets
      ensures ips.Some? ==> && |ips.value| == |sets[name].members|
                            && forall ip :: ip in ips.value <==> ip in sets[name].members
    {
      if !ok || name !in sets {
        return None;
      }
      var output; ghost var order;
      output, order := Listing(name);
      ListingReadsBack(header, order);
      var found := ParseListing(output);
      return Some(found);
    }

    method GetIPSetSize(name: string, ok: bool) returns (size: Option<nat>)
      requires Valid()
      ensures size == Size(State(), name, ok)
    {
      var ips := ListIPSet(name, ok);
      return if ips.None? then None else Some(|ips.value|);
    }

    method InstallFirewallRules(names: seq<string>, oks: seq<bool>) returns (done: bool)
      requires Valid() && |names| == |oks|
      modifies this`rules
      ensures Valid() && (State(), done) == InstallRules(old(State()), names, oks)
    {
      ghost var k := State();
      for i := 0 to |names|
        invariant Valid() && sets == old(sets)
        invariant InstallRules(k, names, oks) == InstallRules(State(), names[i..], oks[i..])
      {
        assert names[i..][1..] == names[i + 1..] && oks[i..][1..] == oks[i + 1..];
        if names[i] !in rules {
          if !oks[i] || names[i] !in sets {
            return false;
          }
          rules := [names[i]] + rules;
        }
      }
      return true;
    }
  }

  lemma {:induction false} SmallerSet<T>(a: set<T>, b: set<T>)
    requires a <= b
    ensures |a| <= |b|
  {
    if a != {} {
      var x :| x in a;
      SmallerSet(a - {x}, b - {x});
    }
  }

  // ---------- rules ----------

  /** How many DROP rules match the set. */
  function RuleCount(k: Kernel, name: string): nat {
    multiset(k.rules)[name]
  }

  /** Installing never makes a second rule, and a success leaves exactly one where there was at most one. */
  lemma InstallRuleCounts(k: Kernel, name: string, ok: bool, other: string)
    ensures var (k', done) := InstallRule(k, name, ok);
            && (other != name ==> RuleCount(k', other) == RuleCount(k, other))
            && (RuleCount(k, name) >= 1 ==> RuleCount(k', name) == RuleCount(k, name))
            && (RuleCount(k, name) == 0 ==> RuleCount(k', name) == if done then 1 else 0)
  {
    assert multiset([name] + k.rules) == multiset{name} + multiset(k.rules);
    assert name in k.rules <==> name in multiset(k.rules);
  }
}
