/** The 24-hour cache in front of the two DNS lookups that verify a Bing bot. */
module BingCache {

  import opened Prelude

  /** What the resolver answers at one moment; `None` is a lookup that fails. */
  datatype Dns = Dns(reverse: string -> Option<string>, forward: string -> Option<string>)

  /** A cached verdict and the time it was stored, in microseconds. */
  datatype Entry = Entry(verified: bool, time: int)

  const BING_SUFFIX := ".search.msn.com"
  const DAY := 24 * 3600 * 1_000_000

  predicate EndsWith(s: string, suffix: string) {
    |suffix| <= |s| && s[|s| - |suffix|..] == suffix
  }

  /** Reverse lookup, host name suffix, forward lookup back to the address. */
  predicate Verdict(dns: Dns, ip: string) {
    match dns.reverse(ip)
    case None => false
    case Some(hostname) => EndsWith(hostname, BING_SUFFIX) && dns.forward(hostname) == Some(ip)
  }

  predicate Fresh(cache: map<string, Entry>, ip: string, now: int) {
    ip in cache && now - cache[ip].time < DAY
  }

  class SearchEngineDetector {
    var cache: map<string, Entry>
    var saved: map<string, Entry>

    constructor (file: map<string, Entry>)
      ensures cache == file == saved
    {
      cache, saved := file, file;
    }

    /** `_is_bing`, with its two clock readings taken as one instant. */
    method IsBing(ip: string, now: int, dns: Dns) returns (answer: bool)
      modifies this
      ensures answer == Answer(old(cache), ip, now, dns)
      ensures cache == After(old(cache), Ask(ip, now), dns)
      ensures saved == if Fresh(old(cache), ip, now) then old(saved) else cache
    {
      if ip in cache {
        var cached := cache[ip];
        if now - cached.time < DAY {
          return cached.verified;
        }
      }
      var verified := false;
      var hostname := dns.reverse(ip);
      if hostname.Some? && EndsWith(hostname.value, BING_SUFFIX) {
        var forwardIp := dns.forward(hostname.value);
        if forwardIp == Some(ip) {
          verified := true;
        }
      }
      cache := cache[ip := Entry(verified, now)];
      saved := cache;
      return verified;
    }

    method ClearBingCache(dryRun: bool)
      modifies this
      ensures cache == if dryRun then old(cache) else map[]
      ensures saved == if dryRun then old(saved) else map[]
    {
      if dryRun {
        return;
      }
      cache := map[];
      saved := cache;
    }
  }

  // ---------- runs ----------

  datatype Op = Ask(ip: string, now: int) | Clear

  function Answer(cache: map<string, Entry>, ip: string, now: int, dns: Dns): bool {
    if Fresh(cache, ip, now) then cache[ip].verified else Verdict(dns, ip)
  }

  function After(cache: map<string, Entry>, op: Op, dns: Dns): map<string, Entry> {
    match op
    case Ask(ip, now) => if Fresh(cache, ip, now) then cache else cache[ip := Entry(Verdict(dns, ip), now)]
    case Clear => map[]
  }

  /** The cache after the first i operations, while DNS changes as it likes. */
  function CacheAt(start: map<string, Entry>, ops: seq<Op>, i: nat, dnsAt: int -> Dns): map<string, Entry>
    requires i <= |ops|
  {
    if i == 0 then start else
      var before := CacheAt(start, ops, i - 1, dnsAt);
      After(before, ops[i - 1], if ops[i - 1].Ask? then dnsAt(ops[i - 1].now) else dnsAt(0))
  }

  /** The i-th operation goes out to DNS. */
  predicate LooksUp(start: map<string, Entry>, ops: seq<Op>, i: nat, dnsAt: int -> Dns)
    requires i < |ops|
  {
    ops[i].Ask? && !Fresh(CacheAt(start, ops, i, dnsAt), ops[i].ip, ops[i].now)
  }

  /** The clock never runs backwards, and the run starts at `from`. */
  ghost predicate Timely(from: int, ops: seq<Op>) {
    && (forall i :: 0 <= i < |ops| && ops[i].Ask? ==> from <= ops[i].now)
    && (forall i, j :: 0 <= i < j < |ops| && ops[i].Ask? && ops[j].Ask? ==> ops[i].now <= ops[j].now)
  }

  /** Every entry is what DNS said when it was stored, no later than t. */
  ghost predicate Consistent(cache: map<string, Entry>, dnsAt: int -> Dns, t: int) {
    forall ip :: ip in cache ==> cache[ip].time <= t && cache[ip].verified == Verdict(dnsAt(cache[ip].time), ip)
  }

  lemma {:induction false} StaysConsistent(start: map<string, Entry>, ops: seq<Op>, i: nat,
                                           dnsAt: int -> Dns, from: int, t: int)
    requires i <= |ops| && Timely(from, ops) && Consistent(start, dnsAt, from)
    requires from <= t && forall k :: 0 <= k < i && ops[k].Ask? ==> ops[k].now <= t
    ensures Consistent(CacheAt(start, ops, i, dnsAt), dnsAt, t)
  {
    if i > 0 {
      StaysConsistent(start, ops, i - 1, dnsAt, from, t);
    }
  }

  /** Every answer is what DNS said at some moment less than a day before the call. */
  lemma AnswersAreRecent(start: map<string, Entry>, ops: seq<Op>, i: nat, dnsAt: int -> Dns, from: int)
    requires i < |ops| && ops[i].Ask? && Timely(from, ops) && Consistent(start, dnsAt, from)
    ensures exists t :: ops[i].now - DAY < t <= ops[i].now
                        && Answer(CacheAt(start, ops, i, dnsAt), ops[i].ip, ops[i].now, dnsAt(ops[i].now))
                           == Verdict(dnsAt(t), ops[i].ip)
  {
    var cache, ip, now := CacheAt(start, ops, i, dnsAt), ops[i].ip, ops[i].now;
    StaysConsistent(start, ops, i, dnsAt, from, now);
    var t := if Fresh(cache, ip, now) then cache[ip].time else now;
    assert Answer(cache, ip, now, dnsAt(now)) == Verdict(dnsAt(t), ip);
  }

  /** The documented check at one moment: the host name of the address, its suffix, and its address again. */
  ghost predicate IsBingHost(dns: Dns, ip: string) {
    exists name :: dns.reverse(ip) == Some(name + ".search.msn.com")
      && dns.forward(name + ".search.msn.com") == Some(ip)
  }

  lemma VerdictIs(dns: Dns, ip: string)
    ensures Verdict(dns, ip) <==> IsBingHost(dns, ip)
  {
    var n := |".search.msn.com"|;
    if Verdict(dns, ip) {
      var h := dns.reverse(ip).value;
      var name := h[..|h| - n];
      assert h == name + ".search.msn.com";
    }
    if name :| dns.reverse(ip) == Some(name + ".search.msn.com") && dns.forward(name + ".search.msn.com") == Some(ip) {
      var h := name + ".search.msn.com";
      assert h[|h| - n..] == ".search.msn.com";
    }
  }

  /** Every answer is the outcome of all three steps at some moment less than 24 hours before the call. */
  lemma AnswersVerifyBothWays(start: map<string, Entry>, ops: seq<Op>, i: nat, dnsAt: int -> Dns, from: int)
    requires i < |ops| && ops[i].Ask? && Timely(from, ops) && Consistent(start, dnsAt, from)
    ensures exists t :: ops[i].now - 24 * 3600 * 1_000_000 < t <= ops[i].now
                        && (Answer(CacheAt(start, ops, i, dnsAt), ops[i].ip, ops[i].now, dnsAt(ops[i].now))
                            <==> IsBingHost(dnsAt(t), ops[i].ip))
  {
    AnswersAreRecent(start, ops, i, dnsAt, from);
    var t :| ops[i].now - DAY < t <= ops[i].now
             && Answer(CacheAt(start, ops, i, dnsAt), ops[i].ip, ops[i].now, dnsAt(ops[i].now))
                == Verdict(dnsAt(t), ops[i].ip);
    VerdictIs(dnsAt(t), ops[i].ip);
  }

  /** After a lookup, the entry is at least that young until the next clear. */
  lemma {:induction false} EntrySurvives(start: map<string, Entry>, ops: seq<Op>, i: nat, j: nat, dnsAt: int -> Dns,
                                         from: int)
    requires i < j <= |ops| && Timely(from, ops) && LooksUp(start, ops, i, dnsAt)
    requires forall k :: i < k < j ==> ops[k].Ask?
    ensures var cache := CacheAt(start, ops, j, dnsAt);
            ops[i].ip in cache && ops[i].now <= cache[ops[i].ip].time
  {
    if i + 1 < j {
      EntrySurvives(start, ops, i, j - 1, dnsAt, from);
      assert ops[j - 1].Ask?;
    }
  }

  /** Two lookups of one address with no clear between them are at least a day apart. */
  lemma LookupsAreADayApart(start: map<string, Entry>, ops: seq<Op>, i: nat, j: nat, dnsAt: int -> Dns, from: int)
    requires i < j < |ops| && Timely(from, ops)
    requires LooksUp(start, ops, i, dnsAt) && LooksUp(start, ops, j, dnsAt) && ops[i].ip == ops[j].ip
    requires forall k :: i < k < j ==> ops[k].Ask?
    ensures ops[j].now - ops[i].now >= 24 * 3600 * 1_000_000
  {
    EntrySurvives(start, ops, i, j, dnsAt, from);
  }
}
