/** Start-up of the daemon: sets and rules, then the blacklist, then the strikes. */
module Daemon {
  import opened Firewall
  import opened IpsetManager
  import opened Config
  import opened Strikes

  /** `main` up to the running tracker; null when Initialize fails and the process ends. */
  method Start(fw: FirewallManager, db: Database, now: int, cfg: Config, init: InitFaults,
               lines: seq<BlacklistLine>, faults: seq<LineFaults>, ghost s: State) returns (tracker: Tracker?)
    requires fw.Valid() && TableOk(db.strikes) && |lines| == |faults|
    requires s.kernel == fw.State() && s.db == db.State()
    modifies fw
    ensures tracker != null <==> RestartSpec(s, now, cfg, init, lines, faults).up
    ensures tracker != null ==> tracker.Valid() && tracker.Machine() == RestartSpec(s, now, cfg, init, lines, faults)
    ensures tracker == null ==> fw.State() == RestartSpec(s, now, cfg, init, lines, faults).kernel
  {
    var ipsetMgr := new Manager(fw);
    var done := ipsetMgr.Initialize(init);
    if !done {
      return null;
    }
    assert PoolOk(ipsetMgr.State());
    ipsetMgr.LoadBlacklist(lines, faults);
    tracker := new Tracker(db, cfg, ipsetMgr, now);
  }
}
