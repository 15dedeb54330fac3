/**
 The manager's HMAC secrets: one current and at most one previous file per
 domain, with a rotation time in domains.json and a 12-hour grace period.
 */
module DomainSecrets {
  import opened Prelude
  import opened Text

  datatype Kind = Current | Previous

  /** 12 hours, in microseconds. */
  const GRACE := 12 * 3600 * 1_000_000

  function KindName(k: Kind): string {
    if k == Current then ".current.key" else ".previous.key"
  }

  function SecretPath(domain: string, k: Kind): string {
    domain + KindName(k)
  }

  /** A secret of a domain, as the key of the store below. */
  type Slot = (string, Kind)

  /** The secret a path in the secrets directory belongs to. */
  function SlotOf(path: string): Slot {
    var n := |path|;
    if n >= 12 && path[n - 12..] == ".current.key" then (path[..n - 12], Current)
    else if n >= 13 then (path[..n - 13], Previous)
    else ("", Previous)
  }

  /** The path determines the secret: no two secrets share a file, whatever the domains are called. */
  lemma PathRoundTrip(d: string, k: Kind)
    ensures SlotOf(SecretPath(d, k)) == (d, k)
  {
    var p := SecretPath(d, k);
    if k == Previous {
      assert p[|p| - 5] == ".previous.key"[8] == 's';
      assert |p| >= 12 ==> p[|p| - 12..][7] == 's';
      assert ".current.key"[7] == 't';
    }
  }

  lemma PathInjective(d: string, k: Kind, d': string, k': Kind)
    ensures SecretPath(d, k) == SecretPath(d', k') <==> d == d' && k == k'
  {
    PathRoundTrip(d, k);
    PathRoundTrip(d', k');
  }

  /** The secrets directory, by path, of a store kept by slot. */
  function Directory(files: map<Slot, string>): map<string, string> {
    map p | p in (set x: Slot | x in files :: SecretPath(x.0, x.1)) :: (
      assert SlotOf(p) in files by {
        var x :| x in files && p == SecretPath(x.0, x.1);
        PathRoundTrip(x.0, x.1);
      }
      files[SlotOf(p)])
  }

  lemma InDirectory(files: map<Slot, string>, p: string)
    ensures p in Directory(files) <==> SlotOf(p) in files && p == SecretPath(SlotOf(p).0, SlotOf(p).1)
  {
    if p in Directory(files) {
      var x: Slot :| x in files && p == SecretPath(x.0, x.1);
      PathRoundTrip(x.0, x.1);
    }
  }

  /** Reading and writing by slot is reading and writing the file at the path. */
  lemma WriteFollows(files: map<Slot, string>, d: string, k: Kind, secret: string)
    ensures Directory(files[(d, k) := secret]) == Directory(files)[SecretPath(d, k) := secret]
  {
    PathRoundTrip(d, k);
    var a, b := Directory(files[(d, k) := secret]), Directory(files)[SecretPath(d, k) := secret];
    forall p ensures p in a <==> p in b {
      InDirectory(files, p);
      InDirectory(files[(d, k) := secret], p);
    }
    forall p | p in a ensures a[p] == b[p] {
      InDirectory(files, p);
      InDirectory(files[(d, k) := secret], p);
    }
  }

  /** Removing by slot is removing the file at the path. */
  lemma RemoveFollows(files: map<Slot, string>, d: string, k: Kind)
    ensures Directory(files - {(d, k)}) == Directory(files) - {SecretPath(d, k)}
  {
    PathRoundTrip(d, k);
    var a, b := Directory(files - {(d, k)}), Directory(files) - {SecretPath(d, k)};
    forall p ensures p in a <==> p in b {
      InDirectory(files, p);
      InDirectory(files - {(d, k)}, p);
    }
    forall p | p in a ensures a[p] == b[p] {
      InDirectory(files, p);
      InDirectory(files - {(d, k)}, p);
    }
  }

  function Strip(s: string): string {
    Trim(s, IsPySpace)
  }

  /** domains.json, as the rotation time of each domain, and the secret files. */
  datatype Store = Store(config: map<string, Option<int>>, files: map<Slot, string>)

  datatype Outcome = Done | Unchanged | Invalid | UnknownDomain | NoCurrentSecret

  // ---------- specification ----------

  function LoadSecret(s: Store, domain: string, k: Kind): Option<string> {
    if (domain, k) in s.files then Some(Strip(s.files[(domain, k)])) else None
  }

  function AddSpec(s: Store, domain: string, secret: string): (Store, Outcome) {
    if domain in s.config then (s, Unchanged)
    else (Store(s.config[domain := None], s.files[(domain, Current) := secret]), Done)
  }

  function RotateSpec(s: Store, domain: string, newSecret: string, now: int): (Store, Outcome) {
    if domain !in s.config then (s, UnknownDomain) else
      match LoadSecret(s, domain, Current)
      case None => (s, NoCurrentSecret)
      case Some(current) =>
        (Store(s.config[domain := Some(now)],
               s.files[(domain, Previous) := current][(domain, Current) := newSecret]), Done)
  }

  function RemoveSpec(s: Store, domain: string): (Store, Outcome) {
    if domain !in s.config then (s, Unchanged)
    else (Store(s.config - {domain}, s.files - {(domain, Current), (domain, Previous)}), Done)
  }

  predicate IsExpired(rotated: Option<int>, now: int) {
    rotated.Some? && now - rotated.value > GRACE
  }

  function ExpiredDomains(s: Store, now: int): set<string> {
    set d | d in s.config && IsExpired(s.config[d], now)
  }

  /** The expired domains that still have a previous file. */
  function Removable(s: Store, now: int): set<string> {
    set d | d in ExpiredDomains(s, now) && (d, Previous) in s.files
  }

  function Without(files: map<Slot, string>, gone: set<string>): map<Slot, string> {
    files - (set d | d in gone :: (d, Previous))
  }

  lemma OneLess(files: map<Slot, string>, gone: set<string>, domain: string)
    requires domain !in gone && (domain, Previous) in files
    ensures Without(files, gone + {domain}) == Without(files, gone) - {(domain, Previous)}
    ensures (domain, Previous) in Without(files, gone) && |gone + {domain}| == |gone| + 1
  {
  }

  /** The edited configuration is written back only when some file went away. */
  function CleanupSpec(s: Store, now: int): (Store, nat) {
    var gone := Removable(s, now);
    (Store(if gone == {} then s.config
           else map d | d in s.config :: if IsExpired(s.config[d], now) then None else s.config[d],
           Without(s.files, gone)),
     |gone|)
  }

  // ---------- the manager ----------

  class DomainManager {
    const dryRun: bool
    var config: map<string, Option<int>>
    var files: map<Slot, string>

    constructor (dryRun: bool, config: map<string, Option<int>>, files: map<Slot, string>)
      ensures this.dryRun == dryRun && this.config == config && this.files == files
    {
      this.dryRun, this.config, this.files := dryRun, config, files;
    }

    ghost function State(): Store
      reads this
    {
      Store(config, files)
    }

    method SaveSecret(domain: string, secret: string, k: Kind)
      modifies this`files
      ensures files == if dryRun then old(files) else old(files)[(domain, k) := secret]
    {
      if dryRun {
        return;
      }
      files := files[(domain, k) := secret];
    }

    method SaveConfig(edited: map<string, Option<int>>)
      modifies this`config
      ensures config == if dryRun then old(config) else edited
    {
      if !dryRun {
        config := edited;
      }
    }

    method AddDomain(domain: string, valid: bool, secret: string) returns (r: Outcome)
      modifies this
      ensures !valid ==> r == Invalid && State() == old(State())
      ensures valid ==> r == AddSpec(old(State()), domain, secret).1
      ensures valid ==> State() == if dryRun then old(State()) else AddSpec(old(State()), domain, secret).0
    {
      if !valid {
        return Invalid;
      }
      if domain in config {
        return Unchanged;
      }
      SaveSecret(domain, secret, Current);
      SaveConfig(config[domain := None]);
      return Done;
    }

    method RotateSecret(domain: string, newSecret: string, now: int) returns (r: Outcome)
      modifies this
      ensures r == RotateSpec(old(State()), domain, newSecret, now).1
      ensures State() == if dryRun then old(State()) else RotateSpec(old(State()), domain, newSecret, now).0
    {
      if domain !in config {
        return UnknownDomain;
      }
      if (domain, Current) !in files {
        return NoCurrentSecret;
      }
      var currentSecret := Strip(files[(domain, Current)]);
      SaveSecret(domain, currentSecret, Previous);
      SaveSecret(domain, newSecret, Current);
      SaveConfig(config[domain := Some(now)]);
      return Done;
    }

    method RemoveDomain(domain: string) returns (r: Outcome)
      modifies this
      ensures r == RemoveSpec(old(State()), domain).1
      ensures State() == if dryRun then old(State()) else RemoveSpec(old(State()), domain).0
    {
      if domain !in config {
        return Unchanged;
      }
      SaveConfig(config - {domain});
      if !dryRun {
        files := files - {(domain, Current)};
        files := files - {(domain, Previous)};
        assert files == RemoveSpec(old(State()), domain).0.files;
      }
      return Done;
    }

    /** `cleanup_expired_secrets`, the domains taken in any order. */
    method CleanupExpiredSecrets(now: int) returns (removed: nat)
      modifies this
      ensures removed == if dryRun then 0 else CleanupSpec(old(State()), now).1
      ensures State() == if dryRun then old(State()) else CleanupSpec(old(State()), now).0
    {
      var edited := config;
      removed := 0;
      var todo := config.Keys;
      ghost var s, gone := State(), {};
      while todo != {}
        invariant todo <= s.config.Keys == edited.Keys
        invariant config == s.config
        invariant forall d :: d in edited ==>
                    edited[d] == if d !in todo && IsExpired(s.config[d], now) then None else s.config[d]
        invariant gone == if dryRun then {} else set d | d in Removable(s, now) && d !in todo
        invariant files == Without(s.files, gone)
        invariant removed == |gone|
        decreases todo
      {
        var domain :| domain in todo;
        todo := todo - {domain};
        if edited[domain].Some? && IsExpired(edited[domain], now) {
          var path := (domain, Previous);
          if path in files && !dryRun {
            OneLess(s.files, gone, domain);
            files := files - {path};
            removed := removed + 1;
            gone := gone + {domain};
          }
          edited := edited[domain := None];
        }
      }
      if removed > 0 && !dryRun {
        SaveConfig(edited);
      }
      assert !dryRun ==> gone == Removable(s, now);
    }
  }

  // ---------- what the store stands for ----------

  /** A domain's current secret, and the one it replaced with the time of that rotation. */
  datatype Held = Held(current: string, replaced: Option<Replaced>)
  datatype Replaced = Replaced(secret: string, at: int)

  datatype Op =
    | Add(domain: string, secret: string)
    | Rotate(domain: string, newSecret: string, now: int)
    | Remove(domain: string)
    | Cleanup(now: int)

  function Step(s: Store, op: Op): Store {
    match op
    case Add(d, secret) => AddSpec(s, d, secret).0
    case Rotate(d, secret, now) => RotateSpec(s, d, secret, now).0
    case Remove(d) => RemoveSpec(s, d).0
    case Cleanup(now) => CleanupSpec(s, now).0
  }

  function Run(s: Store, ops: seq<Op>): Store {
    if ops == [] then s else Step(Run(s, ops[..|ops| - 1]), ops[|ops| - 1])
  }

  function LapseAt(h: Held, now: int): Held {
    if h.replaced.Some? && now - h.replaced.value.at > GRACE then Held(h.current, None) else h
  }

  /** The plain ledger: no paths, no counters, nothing to keep in step. */
  function LedgerStep(l: map<string, Held>, op: Op): map<string, Held> {
    match op
    case Add(d, secret) => if d in l then l else l[d := Held(secret, None)]
    case Rotate(d, secret, now) => if d in l then l[d := Held(secret, Some(Replaced(Strip(l[d].current), now)))] else l
    case Remove(d) => l - {d}
    case Cleanup(now) => map d | d in l :: LapseAt(l[d], now)
  }

  function Ledger(l: map<string, Held>, ops: seq<Op>): map<string, Held> {
    if ops == [] then l else LedgerStep(Ledger(l, ops[..|ops| - 1]), ops[|ops| - 1])
  }

  function RotatedAt(h: Held): Option<int> {
    if h.replaced.None? then None else Some(h.replaced.value.at)
  }

  /** The store holds exactly the ledger: the same domains and times, and no other file. */
  ghost predicate Holds(s: Store, l: map<string, Held>) {
    && s.config.Keys == l.Keys
    && (forall d :: d in l ==> s.config[d] == RotatedAt(l[d]))
    && (forall d :: d in l ==> (d, Current) in s.files && s.files[(d, Current)] == l[d].current)
    && (forall d :: d in l ==> ((d, Previous) in s.files <==> l[d].replaced.Some?))
    && (forall d :: d in l && l[d].replaced.Some? ==> s.files[(d, Previous)] == l[d].replaced.value.secret)
    && (forall x: Slot :: x in s.files ==> x.0 in l)
  }

  /** The domains whose secret was replaced more than 12 hours ago. */
  function Overdue(l: map<string, Held>, now: int): set<string> {
    set d | d in l && l[d].replaced.Some? && now - l[d].replaced.value.at > 12 * 3600 * 1_000_000
  }

  /** What the operations report, on a store that holds a ledger; a refused one changes nothing. */
  lemma OutcomeIff(s: Store, l: map<string, Held>, domain: string, secret: string, now: int)
    requires Holds(s, l)
    ensures AddSpec(s, domain, secret).1 == if domain in l then Unchanged else Done
    ensures RotateSpec(s, domain, secret, now).1 == if domain in l then Done else UnknownDomain
    ensures RemoveSpec(s, domain).1 == if domain in l then Done else Unchanged
    ensures domain in l ==> AddSpec(s, domain, secret).0 == s
    ensures domain !in l ==> RotateSpec(s, domain, secret, now).0 == s && RemoveSpec(s, domain).0 == s
  {
  }

  /** Without its current file a domain is not rotated. */
  lemma NoFileNoRotation(s: Store, domain: string, secret: string, now: int)
    requires domain in s.config && (domain, Current) !in s.files
    ensures RotateSpec(s, domain, secret, now) == (s, NoCurrentSecret)
  {
  }

  /** Stripping takes Python's white space, and only that, from the two ends. */
  lemma StripTakesBlanks(s: string)
    ensures exists before, after :: s == before + Strip(s) + after && Blank(before) && Blank(after)
    ensures Strip(s) != "" ==> !PyBlank(Strip(s)[0] as int) && !PyBlank(Strip(s)[|Strip(s)| - 1] as int)
  {
    TrimTakesSpaces(s, IsPySpace);
    var before, after :| Wraps(before, Trim(s, IsPySpace), after, s, IsPySpace);
    assert forall c :: c in before || c in after ==> IsPySpace(c);
    BlanksByCode(before);
    BlanksByCode(after);
    if Strip(s) != "" {
      SpacesByCode(Strip(s)[0]);
      SpacesByCode(Strip(s)[|Strip(s)| - 1]);
    }
  }

  lemma BlanksByCode(s: string)
    requires forall c :: c in s ==> IsPySpace(c)
    ensures Blank(s)
  {
    forall i | 0 <= i < |s| ensures PyBlank(s[i] as int) {
      assert s[i] in s;
      SpacesByCode(s[i]);
    }
  }

  ghost predicate Blank(s: string) {
    forall i :: 0 <= i < |s| ==> PyBlank(s[i] as int)
  }

  /** Cleanup on a store that holds a ledger deletes exactly the lapsed secrets and counts them. */
  lemma CleanupExact(s: Store, l: map<string, Held>, now: int)
    requires Holds(s, l)
    ensures Removable(s, now) == Overdue(l, now) && CleanupSpec(s, now).1 == |Overdue(l, now)|
    ensures Holds(CleanupSpec(s, now).0, LedgerStep(l, Cleanup(now)))
  {
    var lapsed := Overdue(l, now);
    assert Removable(s, now) == lapsed == ExpiredDomains(s, now);
    CleanupHolds(s, l, now, lapsed);
  }

  lemma CleanupHolds(s: Store, l: map<string, Held>, now: int, lapsed: set<string>)
    requires Holds(s, l) && Removable(s, now) == lapsed == ExpiredDomains(s, now)
    requires forall d :: d in lapsed <==> d in l && LapseAt(l[d], now) != l[d]
    ensures Holds(CleanupSpec(s, now).0, LedgerStep(l, Cleanup(now)))
  {
    var s', l' := CleanupSpec(s, now).0, LedgerStep(l, Cleanup(now));
    var slots := set d | d in lapsed :: (d, Previous);
    assert s'.files == s.files - slots;
    forall x: Slot ensures x in s'.files <==> x in s.files && !(x.1 == Previous && x.0 in lapsed) {
      assert x in slots <==> x.1 == Previous && x.0 in lapsed;
    }
    forall d | d in l ensures s'.config[d] == RotatedAt(l'[d]) {
      assert d in lapsed <==> IsExpired(s.config[d], now);
    }
  }

  lemma RotateHolds(s: Store, l: map<string, Held>, d: string, secret: string, now: int)
    requires Holds(s, l)
    ensures Holds(RotateSpec(s, d, secret, now).0, LedgerStep(l, Rotate(d, secret, now)))
  {
    if d in l {
      RotatedHolds(s, l, d, secret, Strip(l[d].current), now);
    }
  }

  lemma RotatedHolds(s: Store, l: map<string, Held>, d: string, secret: string, replaced: string, now: int)
    requires Holds(s, l) && d in l
    ensures Holds(Store(s.config[d := Some(now)], s.files[(d, Previous) := replaced][(d, Current) := secret]),
                  l[d := Held(secret, Some(Replaced(replaced, now)))])
  {
    RotatedFiles(s.files, d, secret, replaced);
  }

  lemma RotatedFiles(files: map<Slot, string>, d: string, secret: string, replaced: string)
    ensures var files' := files[(d, Previous) := replaced][(d, Current) := secret];
            && files'[(d, Previous)] == replaced && files'[(d, Current)] == secret
            && forall x: Slot :: x.0 != d ==> (x in files' <==> x in files) && (x in files ==> files'[x] == files[x])
  {
  }

  lemma RemoveHolds(s: Store, l: map<string, Held>, d: string)
    requires Holds(s, l)
    ensures Holds(RemoveSpec(s, d).0, LedgerStep(l, Remove(d)))
  {
    var s', l' := RemoveSpec(s, d).0, l - {d};
    if d !in l {
      assert l' == l;
    } else {
      assert forall x: Slot :: x in s'.files <==> x in s.files && x.0 != d by {
        forall x: Slot ensures x in s'.files <==> x in s.files && x.0 != d {
          assert x.1 == Current || x.1 == Previous;
        }
      }
    }
  }

  lemma AddHolds(s: Store, l: map<string, Held>, d: string, secret: string)
    requires Holds(s, l)
    ensures Holds(AddSpec(s, d, secret).0, LedgerStep(l, Add(d, secret)))
  {
    if d !in l {
      assert (d, Previous) !in s.files;
    }
  }

  lemma StepHolds(s: Store, l: map<string, Held>, op: Op)
    requires Holds(s, l)
    ensures Holds(Step(s, op), LedgerStep(l, op))
  {
    match op
    case Add(d, secret) => AddHolds(s, l, d, secret);
    case Rotate(d, secret, now) => RotateHolds(s, l, d, secret, now);
    case Remove(d) => RemoveHolds(s, l, d);
    case Cleanup(now) => CleanupExact(s, l, now);
  }

  /** Over any run the store is the ledger. */
  lemma {:induction false} StoreIsLedger(s: Store, l: map<string, Held>, ops: seq<Op>)
    requires Holds(s, l)
    ensures Holds(Run(s, ops), Ledger(l, ops))
  {
    if ops != [] {
      StoreIsLedger(s, l, ops[..|ops| - 1]);
      StepHolds(Run(s, ops[..|ops| - 1]), Ledger(l, ops[..|ops| - 1]), ops[|ops| - 1]);
    }
  }

  /** Operations that leave a domain's rotation alone: other domains, and cleanups within the grace period. */
  ghost predicate Undisturbed(domain: string, at: int, ops: seq<Op>) {
    forall i :: 0 <= i < |ops| ==>
      match ops[i]
      case Cleanup(now) => now - at <= GRACE
      case Add(_, _) => true
      case Rotate(d, _, _) => d != domain
      case Remove(d) => d != domain
  }

  lemma {:induction false} ReplacedStays(l: map<string, Held>, domain: string, ops: seq<Op>)
    requires domain in l && l[domain].replaced.Some? && Undisturbed(domain, l[domain].replaced.value.at, ops)
    ensures domain in Ledger(l, ops) && Ledger(l, ops)[domain] == l[domain]
  {
    if ops != [] {
      ReplacedStays(l, domain, ops[..|ops| - 1]);
    }
  }

  lemma {:induction false} LedgerAppend(l: map<string, Held>, ops: seq<Op>, more: seq<Op>)
    ensures Ledger(l, ops + more) == Ledger(Ledger(l, ops), more)
  {
    if more == [] {
      assert ops + more == ops;
    } else {
      var n := |more| - 1;
      assert (ops + more)[..|ops + more| - 1] == ops + more[..n];
      LedgerAppend(l, ops, more[..n]);
    }
  }

  lemma RotationInLedger(l: map<string, Held>, before: seq<Op>, domain: string, newSecret: string, now: int,
                         after: seq<Op>)
    requires domain in Ledger(l, before) && Undisturbed(domain, now, after)
    ensures var held := Ledger(l, before + [Rotate(domain, newSecret, now)] + after);
            domain in held
            && held[domain] == Held(newSecret, Some(Replaced(Strip(Ledger(l, before)[domain].current), now)))
  {
    var rotation := [Rotate(domain, newSecret, now)];
    assert (before + rotation)[..|before|] == before;
    var rotated := Ledger(l, before + rotation);
    assert rotated == LedgerStep(Ledger(l, before), rotation[0]);
    ReplacedStays(rotated, domain, after);
    LedgerAppend(l, before + rotation, after);
  }

  /**
   A previous secret is the one that was current just before the last
   rotation, as loading reads it, until its grace period is cleaned up.
   */
  lemma PreviousIsTheReplacedOne(s: Store, l: map<string, Held>, before: seq<Op>,
                                 domain: string, newSecret: string, now: int, after: seq<Op>)
    requires Holds(s, l) && domain in Run(s, before).config
    requires Undisturbed(domain, now, after)
    ensures LoadSecret(Run(s, before), domain, Current).Some?
    ensures var s' := Run(s, before + [Rotate(domain, newSecret, now)] + after);
            && LoadSecret(s', domain, Previous) == LoadSecret(Run(s, before), domain, Current)
            && LoadSecret(s', domain, Current) == Some(Strip(newSecret))
  {
    var ops := before + [Rotate(domain, newSecret, now)] + after;
    StoreIsLedger(s, l, before);
    StoreIsLedger(s, l, ops);
    RotationInLedger(l, before, domain, newSecret, now, after);
    FilesOf(Run(s, before), Ledger(l, before), domain);
    FilesOf(Run(s, ops), Ledger(l, ops), domain);
    TrimIdempotent(Ledger(l, before)[domain].current, IsPySpace);
  }

  lemma FilesOf(s: Store, l: map<string, Held>, domain: string)
    requires Holds(s, l) && domain in l
    ensures LoadSecret(s, domain, Current) == Some(Strip(l[domain].current))
    ensures l[domain].replaced.Some? ==> LoadSecret(s, domain, Previous) == Some(Strip(l[domain].replaced.value.secret))
  {
  }

  /** Cleaning up again at once finds nothing, and no cleanup touches a current secret. */
  lemma SecondCleanupIsEmpty(s: Store, l: map<string, Held>, now: int)
    requires Holds(s, l)
    ensures CleanupSpec(CleanupSpec(s, now).0, now).1 == 0
    ensures forall d :: LoadSecret(CleanupSpec(s, now).0, d, Current) == LoadSecret(s, d, Current)
  {
    CleanupExact(s, l, now);
    CleanupExact(CleanupSpec(s, now).0, LedgerStep(l, Cleanup(now)), now);
  }

  /** A fresh installation, and any other with no rotation under way, holds a ledger. */
  lemma StartHolds(secrets: map<string, string>)
    ensures Holds(Store(map d | d in secrets :: None,
                        map x | x in (set d | d in secrets :: (d, Current)) :: secrets[x.0]),
                  map d | d in secrets :: Held(secrets[d], None))
  {
  }
}
