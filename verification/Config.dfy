/** domains.json as the daemon reads it: per-domain settings over defaults. */
module Config {
  import opened Prelude

  /** A lockout of 0 minutes means a permanent block. */
  datatype DomainConfig = DomainConfig(difficulty: int, cookieDuration: int, lockout: int, excuseFirstTimeout: bool)

  datatype Config = Config(default: DomainConfig, domains: map<string, DomainConfig>)

  function OrDefault(v: int, default: int): int {
    if v == 0 then default else v
  }

  function WithDefaults(d: DomainConfig, default: DomainConfig): DomainConfig {
    d.(difficulty := OrDefault(d.difficulty, default.difficulty),
       cookieDuration := OrDefault(d.cookieDuration, default.cookieDuration),
       lockout := OrDefault(d.lockout, default.lockout))
  }

  function Loaded(raw: Config): Config {
    raw.(domains := map d | d in raw.domains :: WithDefaults(raw.domains[d], raw.default))
  }

  /** `Load` after decoding: the loop over the domain map, in any order, writing entries back. */
  method Load(raw: Config) returns (cfg: Config)
    ensures cfg == Loaded(raw)
  {
    cfg := raw;
    var todo := raw.domains.Keys;
    while todo != {}
      invariant todo <= raw.domains.Keys == cfg.domains.Keys && cfg.default == raw.default
      invariant forall d :: d in cfg.domains ==>
                  cfg.domains[d] == if d in todo then raw.domains[d] else WithDefaults(raw.domains[d], raw.default)
      decreases todo
    {
      var domain :| domain in todo;
      todo := todo - {domain};
      var d := cfg.domains[domain];
      if d.difficulty == 0 {
        d := d.(difficulty := cfg.default.difficulty);
      }
      if d.cookieDuration == 0 {
        d := d.(cookieDuration := cfg.default.cookieDuration);
      }
      if d.lockout == 0 {
        d := d.(lockout := cfg.default.lockout);
      }
      cfg := cfg.(domains := cfg.domains[domain := d]);
    }
  }

  /** The number a file means: 0 in a domain's entry stands for the default's. */
  predicate Means(loaded: int, written: int, default: int) {
    (written != 0 ==> loaded == written) && (written == 0 ==> loaded == default)
  }

  /** After loading, the domains and the default are those of the file, each 0 is filled and the excuse is kept. */
  lemma LoadedFields(raw: Config)
    ensures Loaded(raw).default == raw.default && Loaded(raw).domains.Keys == raw.domains.Keys
    ensures forall d :: d in raw.domains ==>
              var loaded, written := Loaded(raw).domains[d], raw.domains[d];
              && Means(loaded.difficulty, written.difficulty, raw.default.difficulty)
              && Means(loaded.cookieDuration, written.cookieDuration, raw.default.cookieDuration)
              && Means(loaded.lockout, written.lockout, raw.default.lockout)
              && loaded.excuseFirstTimeout == written.excuseFirstTimeout
  {
  }

  function GetDomainConfig(c: Config, domain: string): Option<DomainConfig> {
    if domain in c.domains then Some(c.domains[domain]) else None
  }

  /** The lockout that RecordFailure uses: the domain's, or else the default. */
  function StrikeLockout(c: Config, domain: string): int {
    if domain in c.domains then c.domains[domain].lockout else c.default.lockout
  }

  function StrikeExcuse(c: Config, domain: string): bool {
    if domain in c.domains then c.domains[domain].excuseFirstTimeout else c.default.excuseFirstTimeout
  }

  /** The lockout that blockIP uses: an unconfigured domain has the zero value, with no default. */
  function BlockLockout(c: Config, domain: string): int {
    if domain in c.domains then c.domains[domain].lockout else 0
  }

  /**
   Which domains block for good: those missing from the file, and those with
   lockout 0 while the default is 0 too. A 0 over a non-zero default does not.
   */
  lemma BlocksForGoodIff(raw: Config, domain: string)
    ensures BlockLockout(Loaded(raw), domain) == 0
       <==> domain !in raw.domains || (raw.domains[domain].lockout == 0 && raw.default.lockout == 0)
  {
  }

  ghost predicate NonNegative(c: Config) {
    c.default.lockout >= 0 && forall d :: d in c.domains ==> c.domains[d].lockout >= 0
  }
}
