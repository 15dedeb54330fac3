# UKABU WAF: a verified model

A Dafny model of the parts of UKABU in which several pieces of state, or two ends of a protocol, have to agree, with proofs
that they do. `dafny verify dfyconfig.toml` checks everything.

**The daemon** (`Firewall`, `IpsetManager`, `Blacklist`, `Config`, `Strikes`, `FailureLog`, `Blocks`, `Release`, `Server`,
`Daemon`, `Shortfalls`). The whole machine is one state: kernel sets and DROP rules, the two SQLite tables, the pool of temporary sets, and
the strikes in memory. Every operation is a function on that state, and the classes `FirewallManager`, `Manager`, `Tracker` and
`Connection` carry out the same operations step by step on their fields. Runs are arbitrary sequences of failures, successes,
cleanups and restarts, in which any `ipset` or `iptables` command may fail. The main results:

* The strike table and memory are always the summaries of a plain list of failures per address and domain
  (`FailureLog.TrackerReplaysFailures`). Crash recovery, the answers of the tracker and the counts 1, 2, 3, ... follow from it.
* A blocked address keeps a row, its place in the set the row names and that set's single DROP rule until a cleanup after the
  end of its latest row (`Blocks.BlockHolds`); nothing ever leaves the permanent set (`Blocks.RunKeepsBlocks`).
* A release also drops the threshold record of the domain that the row names (`Release.CleanRelease`).
* Loading a blacklist fills the sets in order within an exact number of sets (`Blacklist.TemporaryEntriesLoaded`).
* Any interleaving of connections is one history, answered line by line (`Server.ConnectionsAgree`), and the responses for one
  address and domain count 1, 2, 3, ... whichever connections they go to (`Server.ResponsesCountUp`).

**The proof of work** (`Difficulty`, `WorkRatio`, `SecretFile`, `PowProtocol`, `Rotation`, `Solver`). The difficulty check is a
numeric bound; a solved challenge is accepted and its cookie is valid for its lifetime, through decimal printing and parsing,
splitting, and the cookie header (`PowProtocol.PowEndToEnd`); a token survives rotations exactly as long as promised
(`Rotation.TokenAcceptedIff`). SHA-256 and HMAC are parameters that return hexadecimal text.

**The rest**: the access log as printer and parser (`AccessLog`), the 24-hour Bing cache (`BingCache`), and the manager's
secret files with their 12-hour grace period (`DomainSecrets`).

## Where a promise fails

Each case names the lemma with the exact condition, and a lemma with an input where the condition alone does not give one. The
inputs in `Shortfalls` are short histories of a new installation.

* The design document excuses a timeout only when it is the first failure (docs/DECISIONS-UPDATED.md:200-204); the code excuses
  the first timeout whenever it comes. The counts agree exactly when no timeout is excused late, and the blocking fails to agree
  only at the third failure: `FailureLog.DocumentedIff`, for the tracker's answers `FailureLog.AnswerDocumentedIff`; input:
  `FailureLog.ThirdScenario`.
* A domain that is missing from domains.json is blocked for good, although its strikes use the default lockout; lockout 0 over a
  non-zero default is not permanent: `Config.BlocksForGoodIff`, `Release.PermanentRowIff`; input:
  `Shortfalls.UnconfiguredBlockedForGood`.
* The answer "blocked" is given whether or not the address could be added: `Release.BlockTakesIff`, `Release.BlockedAnswerIff`.
  After a restart the pool knows only the first temporary set and can hand out a full second one:
  `IpsetManager.AllocationRoomIff`; inputs: `IpsetManager.RestartHandsOutFullSet`, `Shortfalls.AnsweredButNotBlocked`.
  A failing size query or creation hands out a full set as well: `Shortfalls.AnsweredThoughCommandFails`. An IPv6
  address never is added, since the sets are created for IPv4: `Release.Ipv6NeverBlocked`.
* A block whose AddIP fails breaks the clean release: `Release.ReleaseIsCleanIff` says for every run when a record survives;
  input: `Shortfalls.FailedAddOutlastsRow`.
* A block taken over by another domain into another set leaves the address in the old set after the release:
  `Release.StillDroppedIff`, and until what, `Blocks.MemberStaysIff`, `Release.TakeoverLeavesOldSet`; input:
  `Shortfalls.ReleasedButStillDropped`.
* A release whose deletion fails drops the row all the same, and the address stays blocked: `Release.StillDroppedIff`,
  `Blocks.MemberStaysIff`; input: `Shortfalls.DeletionFails`.
* A re-block by a domain with a shorter lockout ends the first domain's block early: `Release.LockoutServedIff`,
  `Release.CutBefore`; input: `Shortfalls.ReblockedShorter`.
* A rotation refuses the solved challenges in flight, although it spares the tokens: `Rotation.ChallengeAcceptedIff`.
* A temporary set whose rule could not be inserted holds addresses without dropping them: `Blocks.RunRulesIff`,
  `Blocks.BlockHolds`; input: `Shortfalls.BlockedButNotDropped`.
* More than 50000 permanent blacklist entries do not all fit: `Blacklist.PermanentEntriesLoadedIff`; input:
  `Blacklist.TooManyPermanentEntries`.
* A difficulty just above the digest's own bits still passes the zero digest: `Difficulty.CheckIsBound`; input:
  `Difficulty.PastTheLastDigit`.
* A cookie whose name ends in `pow_token` hides the real one behind it: `PowProtocol.TokenReadIff`; input:
  `PowProtocol.SuffixNameHidesToken`.
* A request with two upstream times prints a line that the extractor cannot match: `AccessLog.LogRoundTrip`; input:
  `AccessLog.RetriedRequestIsSkipped`.
* Domains that contain ':' share strike records, and no others do: `Strikes.ColonDomainsCollide`, input included.

## Assumptions

Domains contain no ':'. No restart reads an earlier time than the restart before it, and blockIP no earlier time than its
RecordFailure where `Release` says so. SQL statements take effect, and a tracker operation is not cut short half-way. The
kernel keeps sets and rules across a daemon restart, nobody else changes them, and `iptables -C` reports truly. `ipset
create -exist` refuses an existing set of another capacity. The backend is iptables. Times stay in the integer range of
their types. Lockout periods are non-negative where `Release` says so. HMAC collisions are excluded only where `Rotation`
claims rejection.

## Model

| member | source | states |
|---|---|---|
| Text.ParseIntRoundTrip | etc/ukabu/njs/pow-challenge.js:178-182 | The integer parser reads back every number that printing a clock value or a nonce produces |
| Text.ParseIntReads | etc/ukabu/njs/pow-challenge.js:178-182 | Behind white space and a sign the leading digits are the number, whatever follows them |
| Text.ParseIntRefuses | etc/ukabu/njs/pow-challenge.js:178-182 | Text that begins with neither white space, sign nor digit is not a number |
| Text.SpacesByCode | etc/ukabu/njs/pow-challenge.js:38-38 | Which code points are white space for trimming in JavaScript, Python and Go |
| Text.TrimTakesSpaces | etc/ukabu/njs/pow-challenge.js:38-38 | Trimming removes white space, and only that, from both ends |
| Text.SplitSound | etc/ukabu/njs/pow-challenge.js:269-272 | Splitting at a character loses nothing and leaves no separator in a part |
| Difficulty.CheckIsBound | etc/ukabu/njs/pow-challenge.js:236-253 | For every digest length n and difficulty d, the prefix-and-mask check passes exactly when the digest as a number times 2^d is below 2^(4n), and never from 4n+4 on |
| Difficulty.CheckIsThreshold | etc/ukabu/pages/challenge.html:478-494 | Up to 4n bits, passing d means that the digest is below 2^(4n-d) |
| Difficulty.MaskIsBound | etc/ukabu/njs/pow-challenge.js:244-250 | The 32-bit mask step on one hexadecimal digit is the bound 16/2^bits, for each of the three masks |
| Difficulty.NibbleIsPosition | etc/ukabu/njs/pow-challenge.js:247-247 | A hexadecimal digit stands for its place in 0123456789abcdef |
| Difficulty.EasierKeepsSolutions | etc/ukabu/njs/pow-challenge.js:236-253 | A digest that passes a difficulty passes every smaller one, so lowering the setting keeps solutions in flight |
| Difficulty.PastTheLastDigit | etc/ukabu/njs/pow-challenge.js:236-253 | Beyond the digest's bits the zero digest passes for three more bits, through the NaN of an empty charAt, and then fails |
| WorkRatio.PassingCount | etc/ukabu/pages/challenge.html:478-494 | Exactly 2^(4n-d) digests of n digits pass |
| WorkRatio.ExpectedAttemptsIsRatio | etc/ukabu/pages/challenge.html:533-537 | The attempts figure 2^d is the exact ratio of all digests to accepted ones |
| WorkRatio.PassingPastTheLastDigit | etc/ukabu/pages/challenge.html:478-494 | Past 4n bits one digest passes for three more bits, then none |
| SecretFile.LoadHmacSecret | etc/ukabu/njs/pow-challenge.js:18-62 | The scanning loop returns, for each of the three prefixes on its own, the value on the last line that carries it; nothing without a secret |
| SecretFile.SecretFound | etc/ukabu/njs/pow-challenge.js:47-60 | There is an answer exactly when the file has a line for the secret and it is not empty; the secret is its value |
| SecretFile.LaterLineWins | etc/ukabu/njs/pow-challenge.js:37-46 | A later line with the same prefix replaces an earlier one, and a line without it changes nothing |
| SecretFile.PrefixesExclusive | etc/ukabu/njs/pow-challenge.js:37-46 | No line counts for two prefixes; hmac_secret= never catches hmac_secret_old= |
| SecretFile.FileRoundTrip | etc/ukabu/njs/pow-challenge.js:30-57 | The three written lines are read back exactly when no value has a line break or trailing white space |
| PowProtocol.Request.GenerateChallenge | etc/ukabu/njs/pow-challenge.js:65-110 | The answer is the signed timestamped challenge, or a 500 that leaves the headers alone |
| PowProtocol.Request.ValidateSolution | etc/ukabu/njs/pow-challenge.js:113-233 | Status, payload and headers for every body; a cookie goes out exactly with an accepted solution |
| PowProtocol.AcceptedIff | etc/ukabu/njs/pow-challenge.js:117-198 | A submission is accepted exactly when it is complete, its MAC is right, it is at most 300000 ms old, and its digest is under the bound |
| PowProtocol.ConfiguredReads | etc/ukabu/njs/pow-challenge.js:71-71 | A positive setting is taken as written; 0, or text that is no number, gives the default |
| PowProtocol.RefusedIff | etc/ukabu/njs/pow-challenge.js:117-198 | Each refusal, by its status and message, is given exactly when its check is the first to fail |
| PowProtocol.CookieAsSent | etc/ukabu/njs/pow-challenge.js:200-213 | The Set-Cookie text: the MAC of time and address, the time, the attributes and the configured lifetime |
| PowProtocol.TokenReadIff | etc/ukabu/njs/pow-challenge.js:264-268 | The match never begins behind the token's own cookie, and begins there exactly when no text in front matches by itself |
| PowProtocol.MatchStartFinds | etc/ukabu/njs/pow-challenge.js:264-268 | The text the expression captures is the one at its leftmost match |
| PowProtocol.CookieIsFound | etc/ukabu/njs/pow-challenge.js:258-268 | The token is found anywhere in the header when no earlier text matches the cookie expression |
| PowProtocol.SuffixNameHidesToken | etc/ukabu/njs/pow-challenge.js:264-268 | A cookie in front whose name merely ends in pow_token is read in place of the token, whatever its value |
| PowProtocol.TokenParts | etc/ukabu/njs/pow-challenge.js:200-208 | An issued cookie value splits at ':' into its MAC and the decimal of its issue time, which parses back |
| PowProtocol.HeaderJudged | etc/ukabu/njs/pow-challenge.js:256-322 | A header with an issued cookie is valid exactly when it is young enough and its MAC matches the current or, in grace, the old secret |
| PowProtocol.ValidTokenIff | etc/ukabu/njs/pow-challenge.js:256-322 | Any header is valid exactly when its first match is mac:text with no other ':', the time in text is young enough, and mac signs that time and this address |
| PowProtocol.SessionDataInjective | etc/ukabu/njs/pow-challenge.js:201-203 | The text that a token signs determines its time and its address |
| PowProtocol.TokenSignsTime | etc/ukabu/njs/pow-challenge.js:292-314 | Without HMAC collisions a MAC issued for a time and an address matches for no other time or address, and only under its own secret |
| PowProtocol.AlteredTimeRefused | etc/ukabu/njs/pow-challenge.js:256-322 | A cookie whose time was rewritten is refused at every moment, under every secret file |
| PowProtocol.ChallengeTimestamp | etc/ukabu/njs/pow-challenge.js:79-86 | The timestamp that validation reads from a generated challenge is the time of generation |
| PowProtocol.BrowserKeepsPair | etc/ukabu/njs/pow-challenge.js:210-213 | The pair a browser keeps from Set-Cookie is the token name and value |
| PowProtocol.SubmissionJudged | etc/ukabu/njs/pow-challenge.js:149-198 | A complete submission with a timestamp is judged by its MAC under the current secret, its age and its digest alone |
| PowProtocol.PowEndToEnd | etc/ukabu/njs/pow-challenge.js:65-322 | A challenge solved and submitted within five minutes is accepted, also at a difficulty lowered meanwhile, and its cookie is valid for that address during its whole lifetime |
| Rotation.FileReadsBack | etc/ukabu/njs/pow-challenge.js:30-57 | After any number of rotations a request learns the current secret, the replaced one and its grace end |
| Rotation.MatchesIff | etc/ukabu/njs/pow-challenge.js:289-314 | After j rotations a token of the i-th secret matches exactly for the same address with j = i, or j = i+1 in grace |
| Rotation.NoGap | etc/ukabu/njs/pow-challenge.js:256-322 | For any hash: within its lifetime a token is accepted under its own secret, and after the next rotation until the end of the grace period |
| Rotation.TokenAcceptedIff | etc/ukabu/njs/pow-challenge.js:256-322 | Without HMAC collisions it is accepted exactly then, and never afterwards or from another address |
| Rotation.ChallengeAcceptedIff | etc/ukabu/njs/pow-challenge.js:149-198 | Without HMAC collisions a challenge in flight is accepted exactly when no rotation came between its generation and its submission, it is at most five minutes old and its digest passes |
| Solver.Page.TryNonce | etc/ukabu/pages/challenge.html:544-577 | The attempt loop ends at the least passing nonce, bounded by the distance to a known one |
| Solver.Page.SolveChallenge | etc/ukabu/pages/challenge.html:533-580 | The page finds the least passing nonce, 0 included, and shows 2^d expected attempts |
| Solver.EasierIsFoundSooner | etc/ukabu/pages/challenge.html:533-580 | A lower difficulty never needs a larger nonce |
| Solver.ServerAcceptsFound | etc/ukabu/njs/pow-challenge.js:180-198 | The server hashes the same challenge:nonce text and accepts what the page found |
| Solver.PageAndServerAgree | etc/ukabu/njs/pow-challenge.js:180-198 | A nonce is accepted exactly when it solves the challenge at the difficulty the page was given |
| Solver.Visit | etc/ukabu/pages/challenge.html:584-607 | Fetching, solving and submitting a challenge ends with status 200 and a cookie |
| AccessLog.ParseIsTheMatch | lib/ukabu/ml_extract.py:27-35 | The pattern is unambiguous: one greedy pass finds exactly the matches that backtracking could, so a line has at most one |
| AccessLog.GroupsAccept | lib/ukabu/ml_extract.py:27-35 | What each group takes, by its characters: quoted text without a quote, also empty; bare text without blanks; decimal digits; a time without a bracket |
| AccessLog.LogRoundTrip | etc/ukabu/includes/config.conf:335-341 | A printed line, whatever follows it, is read back as its 18 fields exactly when every field fits its group |
| AccessLog.PrintingIsInjective | etc/ukabu/includes/config.conf:335-341 | No two well-formed records print alike, even as the start of a longer line |
| AccessLog.RetriedRequestIsSkipped | lib/ukabu/ml_extract.py:27-35 | A line with two comma-separated upstream times matches nothing |
| AccessLog.Extract | lib/ukabu/ml_extract.py:102-119 | The reading loop returns the kept records in order and accounts for every line as unmatched, filtered or recorded |
| AccessLog.ExtractedLineByLine | lib/ukabu/ml_extract.py:102-119 | Every line is judged on its own, whatever the lines before it were |
| AccessLog.OneLine | lib/ukabu/ml_extract.py:102-119 | A line that matches and that the filters keep gives its record; any other gives nothing |
| AccessLog.LogExtractedWhole | lib/ukabu/ml_extract.py:102-119 | A log of well-formed records is extracted whole, in order, with nothing unmatched |
| BingCache.SearchEngineDetector.IsBing | lib/ukabu/search_engines.py:115-173 | The answer, the cache and the saved file after a check |
| BingCache.SearchEngineDetector.ClearBingCache | lib/ukabu/search_engines.py:249-270 | Clearing empties cache and file; a dry run touches neither |
| BingCache.AnswersAreRecent | lib/ukabu/search_engines.py:115-173 | Every answer is the DNS verdict of a moment less than 24 hours before the call |
| BingCache.VerdictIs | lib/ukabu/search_engines.py:143-158 | The verdict is true exactly for a host name that ends in .search.msn.com and resolves back to the address |
| BingCache.AnswersVerifyBothWays | lib/ukabu/search_engines.py:115-173 | Over any run an answer is the outcome of both lookups and the suffix at some moment less than 24 hours before the call |
| BingCache.LookupsAreADayApart | lib/ukabu/search_engines.py:127-136 | Two lookups of one address with no clear between them are at least 24 hours apart |
| DomainSecrets.PathRoundTrip | lib/ukabu/domain.py:50-52 | The file name determines domain and type |
| DomainSecrets.PathInjective | lib/ukabu/domain.py:50-52 | Two secrets share a file name exactly when domain and type agree |
| DomainSecrets.WriteFollows | lib/ukabu/domain.py:67-83 | Saving a secret changes one file of the directory and no other |
| DomainSecrets.RemoveFollows | lib/ukabu/domain.py:206-209 | Removing a secret removes one file and no other |
| DomainSecrets.DomainManager.AddDomain | lib/ukabu/domain.py:121-182 | A new domain gets its secret and no rotation time; an existing one is unchanged |
| DomainSecrets.DomainManager.RotateSecret | lib/ukabu/domain.py:268-306 | The stripped current secret becomes the previous one; both error cases and the dry run change nothing |
| DomainSecrets.DomainManager.RemoveDomain | lib/ukabu/domain.py:184-212 | The domain and both its files are gone |
| DomainSecrets.DomainManager.CleanupExpiredSecrets | lib/ukabu/domain.py:308-336 | The loop, in any order, deletes and counts the expired previous files; the edited configuration is saved only when one was deleted |
| DomainSecrets.CleanupExact | lib/ukabu/domain.py:308-336 | On every reachable store cleanup deletes exactly the secrets replaced more than 12 hours ago and returns their number |
| DomainSecrets.OutcomeIff | lib/ukabu/domain.py:121-306 | Adding, rotating and removing succeed exactly for a new or a known domain; a refusal changes nothing |
| DomainSecrets.NoFileNoRotation | lib/ukabu/domain.py:283-287 | Without its current file a domain is not rotated |
| DomainSecrets.StripTakesBlanks | lib/ukabu/domain.py:54-65 | Loading takes white space, and only that, off both ends of a secret |
| DomainSecrets.StartHolds | lib/ukabu/domain.py:121-182 | A store of current secrets without a rotation is a ledger without replaced secrets, from which a run starts |
| DomainSecrets.StoreIsLedger | lib/ukabu/domain.py:121-336 | Over any run files and rotation times are those of a plain ledger of current and replaced secrets |
| DomainSecrets.PreviousIsTheReplacedOne | lib/ukabu/domain.py:268-306 | Until its cleanup the previous secret is the one that was current just before the last rotation |
| DomainSecrets.SecondCleanupIsEmpty | lib/ukabu/domain.py:308-336 | An immediate second cleanup returns 0, and no cleanup changes a current secret |
| Firewall.FirewallManager.CreateIPSet | go-daemon/pkg/ipset/firewall.go:68-80 | The kernel after a creation, and when it fails |
| Firewall.FirewallManager.AddIPToSet | go-daemon/pkg/ipset/firewall.go:83-96 | The kernel after an addition; a full set refuses a new member |
| Firewall.AddressCharacters | go-daemon/pkg/ipset/firewall.go:68-96 | What the IPv4 sets take is made of digits, dots and slashes |
| Firewall.FirewallManager.RemoveIPFromSet | go-daemon/pkg/ipset/firewall.go:99-112 | The kernel after a deletion |
| Firewall.ParseListing | go-daemon/pkg/ipset/firewall.go:122-137 | The inMembers loop collects the trimmed member lines |
| Firewall.ScanCollects | go-daemon/pkg/ipset/firewall.go:122-137 | After the member heading every trimmed line counts, but an empty one, a heading, and one that starts with Size |
| Firewall.ListingReadsBack | go-daemon/pkg/ipset/firewall.go:115-138 | Parsing a printed listing returns its members, in order |
| Firewall.FirewallManager.ListIPSet | go-daemon/pkg/ipset/firewall.go:115-138 | The list holds each member of the set once |
| Firewall.FirewallManager.GetIPSetSize | go-daemon/pkg/ipset/firewall.go:141-147 | The size obtained through the text is the cardinality of the set |
| Firewall.FirewallManager.InstallFirewallRules | go-daemon/pkg/ipset/firewall.go:157-179 | The rule list after the loop, which stops at the first failure |
| Firewall.InstallRuleCounts | go-daemon/pkg/ipset/firewall.go:157-179 | Installing never doubles a rule and touches no other set's rule |
| IpsetManager.NamesDistinct | go-daemon/pkg/ipset/manager.go:30-36 | Temporary sets have distinct names, different from the fixed ones |
| IpsetManager.Manager.Initialize | go-daemon/pkg/ipset/manager.go:48-83 | Sets, rules and pool after start-up, or the error at the first failing command |
| IpsetManager.InitializeWorksIff | go-daemon/pkg/ipset/manager.go:48-83 | Start-up succeeds exactly when its four creations and two rules do, with these names and capacities |
| IpsetManager.Manager.CreateTemporarySet | go-daemon/pkg/ipset/manager.go:85-97 | The name is appended exactly when the set was created |
| IpsetManager.AvailableSpec | go-daemon/pkg/ipset/manager.go:100-130 | Whatever fails, the index stays valid, the i-th name stays the prefix followed by i, and the returned set is the one at the index |
| IpsetManager.Manager.GetAvailableTemporarySet | go-daemon/pkg/ipset/manager.go:100-130 | The method moves the index, appends and installs as its specification says |
| IpsetManager.Manager.LoadBlacklist | go-daemon/pkg/ipset/manager.go:143-196 | The loop over the lines, with parse errors and failing commands |
| IpsetManager.RoomyAllocates | go-daemon/pkg/ipset/manager.go:100-130 | A pool that owns every temporary set returns the last one, with fewer than 20000 members |
| IpsetManager.AllocationRoomIff | go-daemon/pkg/ipset/manager.go:100-130 | In any state, restarts included, and whichever command fails, the returned set is the one a look ahead tells, and has room exactly when that one had or was still to be created |
| IpsetManager.RestartHandsOutFullSet | go-daemon/pkg/ipset/manager.go:100-130 | After a restart over two full sets the returned set is the full second one |
| Blacklist.TemporaryEntriesLoaded | go-daemon/pkg/ipset/manager.go:143-196 | From a fresh kernel every temporary entry is in some set, the sets fill in index order, none overflows, and m entries open at most max(1, ceil(m/20000)) |
| Blacklist.PermanentEntriesLoadedIff | go-daemon/pkg/ipset/manager.go:171-184 | All permanent entries are in the permanent set exactly when they are at most 50000 |
| Blacklist.TooManyPermanentEntries | go-daemon/pkg/ipset/manager.go:171-184 | A file of 50001 permanent addresses does not load whole |
| Release.EveryLineTried | go-daemon/pkg/ipset/manager.go:143-196 | Whatever fails on other lines, an entry that meets room in its set is there when the file is loaded |
| Release.StartLoadsFile | go-daemon/main.go:114-138 | A first start leaves the daemon under its settings with the whole file loaded |
| Config.Load | go-daemon/pkg/config/config.go:59-75 | The loop over the domains, in any order, fills each zero with the default |
| Config.LoadedFields | go-daemon/pkg/config/config.go:59-75 | After loading each number is the one written, or the default where 0 is written; the excuse setting is kept |
| Config.BlocksForGoodIff | go-daemon/pkg/config/config.go:68-81 | blockIP sees lockout 0 exactly for a missing domain, or for 0 over a default of 0 |
| Strikes.KeyRoundTrip | go-daemon/pkg/strikes/tracker.go:127-128 | The ip:domain key determines both parts when the domain has no ':' |
| Strikes.ColonDomainsCollide | go-daemon/pkg/strikes/tracker.go:143-143 | A pair shares its key with another, well-formed pair exactly when its domain has a ':' |
| Strikes.LoadRows | go-daemon/pkg/strikes/tracker.go:100-137 | Loading, rows in any order, yields exactly the rows that have not expired, each under its key |
| Strikes.Tracker.constructor | go-daemon/pkg/strikes/tracker.go:41-69 | A new tracker holds the unexpired rows |
| Strikes.Tracker.CountFailure | go-daemon/pkg/strikes/tracker.go:143-189 | Memory and table after the update of a record, excuse and expiry included |
| Strikes.Tracker.RecordFailure | go-daemon/pkg/strikes/tracker.go:139-208 | The whole state and both results after a failure |
| Strikes.Tracker.RecordSuccess | go-daemon/pkg/strikes/tracker.go:210-227 | Record and row of the pair are gone, if it was in memory |
| Strikes.Tracker.BlockIP | go-daemon/pkg/strikes/tracker.go:229-283 | Pool, kernel and row after a block, with no row when AddIP fails |
| Strikes.Tracker.SaveStrike | go-daemon/pkg/strikes/tracker.go:285-303 | The row of the pair is replaced |
| Strikes.Tracker.CleanStrikes | go-daemon/pkg/strikes/tracker.go:309-318 | The first loop, in any order, drops exactly the records ended before now, with their rows |
| Strikes.Tracker.ReleaseRow | go-daemon/pkg/strikes/tracker.go:330-332 | One row goes, and the address leaves its set if the deletion works |
| Strikes.Tracker.ReleaseBlocked | go-daemon/pkg/strikes/tracker.go:320-341 | The second loop, in any order, releases exactly the rows ended before now |
| Strikes.Tracker.CleanupExpired | go-daemon/pkg/strikes/tracker.go:305-348 | The whole state after a pass |
| Strikes.Tracker.GetStrikeCount | go-daemon/pkg/strikes/tracker.go:356-365 | The count on record, or 0 |
| Strikes.StepOk | go-daemon/pkg/strikes/tracker.go:139-348 | Every event keeps records under their own keys, rows under theirs, and the pool index valid |
| FailureLog.StruckIsSummary | go-daemon/pkg/strikes/tracker.go:155-187 | Updating a record for one more failure is summarising the longer list of failures |
| FailureLog.FailureByFile | go-daemon/pkg/strikes/tracker.go:147-153 | What goes on record of a failure, from the file: the own setting of a domain that has an entry, else the default |
| FailureLog.FailureFollowsFile | go-daemon/pkg/strikes/tracker.go:139-208 | From the record before to the record after, in memory and table, and the answer, in terms of the file: excuse, count, times and expiry |
| FailureLog.TrackerReplaysFailures | go-daemon/pkg/strikes/tracker.go:100-348 | Over any run, restarts included, table and memory are exactly the summaries of the failures since each record began: count plus the excuse is their number |
| FailureLog.CrashRecovery | go-daemon/pkg/strikes/tracker.go:100-137 | After any run, loading at any time from the last load on rebuilds exactly the unexpired records in memory, with equal counts, flags and times |
| FailureLog.AnswerCountsFailures | go-daemon/pkg/strikes/tracker.go:155-207 | After any run the answer is the number of failures on record less the excuse, and blocked from the third, or with an excuse the fourth, on |
| FailureLog.DocumentedIff | docs/DECISIONS-UPDATED.md:187-205 | The code's count is the documented one exactly when no timeout is excused late; the blocking differs exactly when, besides, it is the third failure |
| FailureLog.AnswerDocumentedIff | go-daemon/pkg/strikes/tracker.go:166-207 | The same of the tracker's answer after any run |
| FailureLog.ThirdScenario | docs/DECISIONS-UPDATED.md:200-204 | The document's third scenario blocks by the document and counts two in the code |
| Blocks.AvailableExtends | go-daemon/pkg/ipset/manager.go:100-130 | Allocation takes nothing out of a set, keeps every rule, and leaves the pool behind rules when the insertion works |
| Blocks.InitializeExtends | go-daemon/pkg/ipset/manager.go:48-83 | Start-up keeps members and rules, and a successful one leaves both its sets behind one rule each |
| Blocks.BlacklistExtends | go-daemon/pkg/ipset/manager.go:143-196 | Loading a blacklist only adds |
| Blocks.BlockKeeps | go-daemon/pkg/strikes/tracker.go:229-283 | A new block, a re-block by another domain, or a failing one keeps every other block |
| Blocks.ReleaseKeeps | go-daemon/pkg/strikes/tracker.go:320-341 | A release removes no address whose row stays, and nobody from the permanent set |
| Blocks.StartKeeps | go-daemon/pkg/strikes/tracker.go:41-69 | Before the first start, with no rows, both invariants hold |
| Blocks.StepKeepsBlocks | go-daemon/pkg/strikes/tracker.go:100-348 | Every event keeps row, membership and rule together |
| Blocks.RunKeepsBlocks | go-daemon/pkg/strikes/tracker.go:234-341 | Over any run a row is endless exactly in the permanent set, and that set never shrinks |
| Blocks.RunRulesIff | go-daemon/pkg/ipset/firewall.go:157-179 | Over any run a set has its rule exactly when it had one or an insertion for it was attempted and worked, and none ever gets two |
| Blocks.BlockHolds | go-daemon/pkg/strikes/tracker.go:229-348 | A blocked address stays in the set of its latest row until a cleanup strictly after that row's end; that set has exactly one DROP rule exactly when it had one or an insertion worked |
| Blocks.MemberStaysIff | go-daemon/pkg/strikes/tracker.go:320-341 | An address leaves a set exactly when a cleanup releases its row, that row names the set, and the deletion works |
| Release.PermanentRowIff | go-daemon/pkg/strikes/tracker.go:229-267 | The row of a block: its domain and time, an end that many minutes later, and no end exactly when the domain is missing from the file or both lockouts are 0 |
| Release.BlockTakesIff | go-daemon/pkg/strikes/tracker.go:229-253 | In every reachable state and whichever command fails, a block, permanent or temporary, takes effect exactly when AddIP works, the address is one, and the set it goes to has room or already holds it |
| Release.BlockedAnswerIff | go-daemon/pkg/strikes/tracker.go:201-267 | The answer "blocked" depends on the charged failures alone; under the condition above the address is in the set of its new row, otherwise rows and the address's sets are as before |
| Release.Ipv6NeverBlocked | go-daemon/pkg/ipset/firewall.go:68-96 | The sets are of type hash:net for IPv4, so blocking an IPv6 address changes no row and no membership |
| Release.FreshDaemonBlocks | go-daemon/pkg/ipset/manager.go:85-130 | From a fresh kernel without restart the index is the last one and every temporary block of an address takes effect |
| Release.NewSetGuardedIff | go-daemon/pkg/ipset/manager.go:112-127 | A newly opened set has its rule exactly when that insertion worked |
| Release.RunKnown | go-daemon/pkg/ipset/manager.go:85-130 | In every state a daemon reaches, whatever failed, the sets of its pool exist with their capacity |
| Release.CleanRelease | go-daemon/pkg/strikes/tracker.go:305-341 | The pass that releases an address leaves no record at the threshold for it and the domain of its row |
| Release.ReleaseIsCleanIff | go-daemon/pkg/strikes/tracker.go:305-341 | With no assumption, a pass leaves a record at the threshold exactly when its failures charge three and its last expiry is not before the pass |
| Shortfalls.FailedAddOutlastsRow | go-daemon/pkg/strikes/tracker.go:247-253 | Three failures, a fourth whose AddIP fails, and the release: the record stays at four strikes |
| Shortfalls.AnsweredButNotBlocked | go-daemon/pkg/ipset/manager.go:100-130 | A restart over two full sets, then three failures: answered blocked, in no set |
| Shortfalls.AnsweredThoughCommandFails | go-daemon/pkg/ipset/manager.go:105-122 | A full first set, and a size query or a creation that fails: answered blocked, in no set |
| Shortfalls.DeletionFails | go-daemon/pkg/strikes/tracker.go:330-332 | A failing deletion: the row goes, the address stays in its set behind the rule |
| Shortfalls.ReblockedShorter | go-daemon/pkg/strikes/tracker.go:263-341 | A second domain with a lockout of one minute ends a block of ten minutes at minute 2 |
| Shortfalls.BlockedButNotDropped | go-daemon/pkg/ipset/manager.go:112-127 | A full first set and a failing rule insertion: the address is in the new set, which has no rule |
| Shortfalls.ReleasedButStillDropped | go-daemon/pkg/strikes/tracker.go:263-341 | Two domains block an address into two sets; after the release it is still in the first |
| Shortfalls.UnconfiguredBlockedForGood | go-daemon/pkg/strikes/tracker.go:229-239 | A domain the file lacks: the row has no end, the record ends after the default lockout |
| Release.StillDroppedIff | go-daemon/pkg/strikes/tracker.go:320-341 | After its release an address has no row, and is in exactly the other sets it was in, and in its own when the deletion failed |
| Release.TakeoverLeavesOldSet | go-daemon/pkg/strikes/tracker.go:263-341 | After a re-block into another set and its release the address is still in the old set, and stays until a later row naming that set is released |
| Release.RowOrigin | go-daemon/pkg/strikes/tracker.go:263-267 | Over any run a row is the one of the beginning or was written by a failure on the way |
| Release.LockoutServedIff | go-daemon/pkg/strikes/tracker.go:229-341 | Up to the end of its lockout an address stays in its set all the way exactly when no pass releases it by the row of a later re-block into the same set |
| Release.CutBefore | go-daemon/pkg/strikes/tracker.go:241-243 | Such a re-block has a lockout of its own that ends before that pass |
| Server.Connection.HandleMessage | go-daemon/pkg/socket/server.go:141-163 | One message changes the tracker once and appends one response |
| Server.Connection.HandleConnection | go-daemon/pkg/socket/server.go:110-139 | The loop answers each non-blank line once, in order |
| Server.LineByKind | go-daemon/pkg/socket/server.go:116-163 | Which operation a line calls and what it is answered, by its kind |
| Server.LoneLineByKind | go-daemon/pkg/socket/server.go:141-163 | What a line does to the tracker of a lone connection, by its kind |
| Server.ServeDoesAll | go-daemon/pkg/socket/server.go:110-139 | A lone loop does every operation of its lines in order and answers every non-blank one |
| Server.ConnectionsAgree | go-daemon/pkg/socket/server.go:110-163 | Under any interleaving a drained connection has one response for each non-blank line, in order, all taken from one shared history in which no operation answers two lines and every operation but the cleanups answers one |
| Server.StreakCountsUp | go-daemon/pkg/strikes/tracker.go:139-227 | Between resets the answers to failures that are not excused count 1, 2, 3, ... without gap or repeat, over any run |
| Server.ResponsesCountUp | go-daemon/pkg/socket/server.go:110-163 | Under any interleaving, after any earlier lives of the daemon, each response to a failure carries the next number of its streak, or the last one again when excused, and blocked from 3 on |
| Server.StreakIsResponses | go-daemon/pkg/socket/server.go:110-163 | A streak grows only by the count of a response to a failure of its address and domain, so the responses have no gap |
| Server.SuccessResets | go-daemon/pkg/socket/server.go:150-155 | Under any interleaving, after a success line its address and domain have no record in memory, no failures on record and an empty streak; it is answered 0 and not blocked |
| Daemon.Start | go-daemon/main.go:114-138 | Start-up yields the restarted state, or no tracker when Initialize fails |

## Left out

- Server.HandleConnection: the loop on a tracker object runs without interference; interleavings are proved on values, so true sharing of one object between goroutines is not captured.
- Server.ConnectionsAgree: covers one life of the daemon; a restart cuts its connections off.
- Strikes.Tracker: strike records are values in the map, not shared pointers; no pointer leaves the tracker in the source.
- Strikes.LoadRows: a query or scan error, after which the daemon goes on with fewer records, is not modelled.
- Solver.Page.TryNonce: needs a passing nonce to exist; without one the page searches for ever. A negative difficulty, for which it stops with an error, is outside it.
- AccessLog: non-ASCII decimal digits, which `\d` also accepts, and the decoding of the log file.
- AccessLog.Extract: the filters are one predicate; date and number parsing, the output record with its renamed fields, and the JSON and CSV writers are left out.
- Firewall: `ipset` normalises addresses and expands ranges; here a member is the text itself, made of digits, '.' and '/', as the sets are created for IPv4. The nftables branch is left out.
- PowProtocol: JSON parsing of the body and fields of other JSON types; numbers beyond 2^53.
- DomainSecrets: validation of domain names is a flag; the floating-point division in the age test is exact arithmetic here; settings and path lists are left out.
- BingCache: the two clock readings of one call are one instant; reading and writing the cache file cannot fail; the Google ranges are left out.
- Durations are unbounded integers, so a lockout of more than 292 years does not wrap around.
- Lines longer than the 64 KB scanner limit, logging, metrics, sockets, HTTP, installer and shell scripts.
- The raw secret files of the manager and the three-line file of the njs module have different formats, so the two rotation models stay apart.
