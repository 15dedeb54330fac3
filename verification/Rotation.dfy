/**
 Tokens across rotations of the secret file: each rotation writes the new
 secret, the one it replaces, and the end of the grace period.
 */
module Rotation {
  import opened Prelude
  import opened Text
  import opened SecretFile
  import opened Difficulty
  import opened PowProtocol

  datatype Rotation = Rotation(at: int, secret: string, expires: string)

  /** The i-th secret: the first one, or the one the i-th rotation brought in. */
  function SecretAt(first: string, rots: seq<Rotation>, i: nat): string
    requires i <= |rots|
  {
    if i == 0 then first else rots[i - 1].secret
  }

  /** The text of the file after the first i rotations. */
  function FileAfter(first: string, rots: seq<Rotation>, i: nat): string
    requires i <= |rots|
  {
    if i == 0 then Render(first, "", "")
    else Render(SecretAt(first, rots, i), SecretAt(first, rots, i - 1), rots[i - 1].expires)
  }

  /** How many rotations have happened by time t. */
  function Done(rots: seq<Rotation>, t: int): (i: nat)
    ensures i <= |rots|
    ensures forall k :: 0 <= k < i ==> rots[k].at <= t
    ensures i < |rots| ==> rots[i].at > t
  {
    if rots == [] || rots[0].at > t then 0 else 1 + Done(rots[1..], t)
  }

  ghost predicate Ordered(rots: seq<Rotation>) {
    forall i, j :: 0 <= i < j < |rots| ==> rots[i].at <= rots[j].at
  }

  ghost predicate Writable(first: string, rots: seq<Rotation>) {
    && Clean(first) && first != ""
    && forall i :: 0 <= i < |rots| ==> Clean(rots[i].secret) && rots[i].secret != "" && Clean(rots[i].expires)
  }

  /** No secret is used twice. */
  ghost predicate FreshSecrets(first: string, rots: seq<Rotation>) {
    forall i, j :: 0 <= i < j <= |rots| ==> SecretAt(first, rots, i) != SecretAt(first, rots, j)
  }

  lemma DoneMonotone(rots: seq<Rotation>, t1: int, t2: int)
    requires Ordered(rots) && t1 <= t2
    ensures Done(rots, t1) <= Done(rots, t2)
  {
    var i, j := Done(rots, t1), Done(rots, t2);
    assert j < |rots| ==> rots[j].at > t2;
  }

  /** What a request should learn after the first i rotations. */
  function InForce(first: string, rots: seq<Rotation>, i: nat, parseDate: string -> Option<int>): SecretData
    requires i <= |rots|
  {
    if i == 0 then SecretData(first, None, None) else
      SecretData(
        SecretAt(first, rots, i),
        Some(SecretAt(first, rots, i - 1)),
        if rots[i - 1].expires == "" then None else Some(parseDate(rots[i - 1].expires)))
  }

  lemma FileReadsBack(first: string, rots: seq<Rotation>, i: nat, parseDate: string -> Option<int>)
    requires i <= |rots| && Writable(first, rots)
    ensures Secrets(Some(FileAfter(first, rots, i)), parseDate) == Some(InForce(first, rots, i, parseDate))
  {
    if i == 0 {
      FileRoundTrip(first, "", "");
    } else {
      FileRoundTrip(SecretAt(first, rots, i), SecretAt(first, rots, i - 1), rots[i - 1].expires);
    }
  }

  /** The grace period that the k-th rotation wrote is still running at time t. */
  predicate InGrace(rots: seq<Rotation>, k: nat, parseDate: string -> Option<int>, t: int)
    requires k < |rots|
  {
    && rots[k].expires != ""
    && parseDate(rots[k].expires).Some?
    && t < parseDate(rots[k].expires).value
  }

  lemma SameSession(c: Crypto, secret: string, other: string, t: nat, addr: string, addr': string)
    requires c.CollisionFree()
    ensures c.hmac(secret, SessionData(Some(t), addr)) == c.hmac(other, SessionData(Some(t), addr'))
       <==> secret == other && addr == addr'
  {
    var head := IntToString(t) + ":";
    assert SessionData(Some(t), addr) == head + addr && SessionData(Some(t), addr') == head + addr';
    assert (head + addr)[|head|..] == addr && (head + addr')[|head|..] == addr';
  }

  /** Which secrets of the file a token issued under the i-th secret matches, after j rotations. */
  lemma MatchesIff(c: Crypto, first: string, rots: seq<Rotation>, parseDate: string -> Option<int>,
                   i: nat, j: nat, t1: nat, issuedTo: string, t2: int, remoteAddr: string)
    requires c.CollisionFree() && FreshSecrets(first, rots)
    requires i <= j <= |rots|
    ensures TokenMatches(c, InForce(first, rots, j, parseDate),
                         c.hmac(SecretAt(first, rots, i), SessionData(Some(t1), issuedTo)), Some(t1), remoteAddr, t2)
       <==> remoteAddr == issuedTo && (j == i || (j == i + 1 && InGrace(rots, i, parseDate, t2)))
  {
    var secret := SecretAt(first, rots, i);
    SameSession(c, secret, SecretAt(first, rots, j), t1, issuedTo, remoteAddr);
    assert secret == SecretAt(first, rots, j) <==> i == j;
    if j > 0 {
      SameSession(c, secret, SecretAt(first, rots, j - 1), t1, issuedTo, remoteAddr);
      assert secret == SecretAt(first, rots, j - 1) <==> i == j - 1;
    }
  }

  lemma StillMatches(c: Crypto, first: string, rots: seq<Rotation>, parseDate: string -> Option<int>,
                     i: nat, j: nat, t1: nat, addr: string, t2: int)
    requires i <= j <= |rots| && (j == i || (j == i + 1 && InGrace(rots, i, parseDate, t2)))
    ensures TokenMatches(c, InForce(first, rots, j, parseDate),
                         c.hmac(SecretAt(first, rots, i), SessionData(Some(t1), addr)), Some(t1), addr, t2)
  {
  }

  /**
   Rotation without a gap, for any hash: until its lifetime or the grace period
   of the next rotation ends, or a second rotation comes, the token is accepted.
   */
  lemma NoGap(c: Crypto, first: string, rots: seq<Rotation>, parseDate: string -> Option<int>, durationVar: string,
              i: nat, t1: nat, addr: string, j: nat, t2: int, pre: string, post: string)
    requires c.HexDigests() && Writable(first, rots)
    requires i == Done(rots, t1) && j == Done(rots, t2)
    requires t2 - t1 <= Configured(durationVar, 604800) * 1000
    requires j == i || (j == i + 1 && InGrace(rots, i, parseDate, t2))
    requires !Shadowed(pre) && (post != "" ==> post[0] == ';')
    ensures ValidateToken(c, Secrets(Some(FileAfter(first, rots, j)), parseDate), durationVar, addr,
                          pre + (TOKEN_NAME + TokenValue(c, SecretAt(first, rots, i), t1, addr) + post), t2)
  {
    FileReadsBack(first, rots, j, parseDate);
    StillMatches(c, first, rots, parseDate, i, j, t1, addr, t2);
    HeaderJudged(c, SecretAt(first, rots, i), t1, addr, pre, post,
                 Secrets(Some(FileAfter(first, rots, j)), parseDate), durationVar, addr, t2);
  }

  /**
   And no longer, when HMACs do not collide. A token issued at t1, after i rotations, is
   accepted at a later t2, after j rotations, exactly when it comes from the
   same address, is within its lifetime, and its secret is still the current
   one or was replaced by the latest rotation, whose grace period is running.
   So it dies at the earliest of its lifetime, the grace end of the next
   rotation, and the rotation after that.
   */
  lemma TokenAcceptedIff(c: Crypto, first: string, rots: seq<Rotation>, parseDate: string -> Option<int>,
                         durationVar: string, i: nat, t1: nat, issuedTo: string, j: nat, t2: int,
                         remoteAddr: string, pre: string, post: string)
    requires c.HexDigests() && c.CollisionFree()
    requires Ordered(rots) && Writable(first, rots) && FreshSecrets(first, rots)
    requires t1 <= t2 && i == Done(rots, t1) && j == Done(rots, t2)
    requires !Shadowed(pre) && (post != "" ==> post[0] == ';')
    ensures i <= j
    ensures ValidateToken(c, Secrets(Some(FileAfter(first, rots, j)), parseDate), durationVar, remoteAddr,
                          pre + (TOKEN_NAME + TokenValue(c, SecretAt(first, rots, i), t1, issuedTo) + post), t2)
       <==> && remoteAddr == issuedTo
            && t2 - t1 <= Configured(durationVar, 604800) * 1000
            && (j == i || (j == i + 1 && InGrace(rots, i, parseDate, t2)))
  {
    DoneMonotone(rots, t1, t2);
    FileReadsBack(first, rots, j, parseDate);
    MatchesIff(c, first, rots, parseDate, i, j, t1, issuedTo, t2, remoteAddr);
    HeaderJudged(c, SecretAt(first, rots, i), t1, issuedTo, pre, post,
                 Secrets(Some(FileAfter(first, rots, j)), parseDate), durationVar, remoteAddr, t2);
  }

  /**
   A challenge in flight has no grace: signed after i rotations and submitted
   after j, it is accepted exactly when no rotation came in between, it is at
   most five minutes old, and its digest passes.
   */
  lemma ChallengeAcceptedIff(c: Crypto, first: string, rots: seq<Rotation>, parseDate: string -> Option<int>,
                             generatedVar: string, difficultyVar: string, durationVar: string, remoteAddr: string,
                             i: nat, t0: nat, seed: string, nonce: int, j: nat, t1: nat)
    requires c.HexDigests() && c.CollisionFree() && Writable(first, rots) && FreshSecrets(first, rots)
    requires i == Done(rots, t0) && j == Done(rots, t1)
    ensures var ch := SignedChallenge(c, SecretAt(first, rots, i), generatedVar, t0, seed);
            var v := ValidateSolutionSpec(c, Secrets(Some(FileAfter(first, rots, j)), parseDate), difficultyVar,
                                          durationVar, remoteAddr, Body(ch.challenge, Number(nonce), ch.hmac), t1);
            v.Accepted? <==>
            && j == i && t1 - t0 <= 300000
            && CheckDifficulty(c.sha256(SolutionText(ch.challenge, Number(nonce))),
                               Configured(difficultyVar, 18)) == Some(true)
  {
    var ch := SignedChallenge(c, SecretAt(first, rots, i), generatedVar, t0, seed);
    FileReadsBack(first, rots, j, parseDate);
    ChallengeTimestamp(c, t0, seed);
    SameSecretIff(c, first, rots, i, j, ch.challenge);
    var secrets := Secrets(Some(FileAfter(first, rots, j)), parseDate);
    assert secrets.Some? && secrets.value.secret == SecretAt(first, rots, j);
    SubmissionJudged(c, secrets.value, difficultyVar, durationVar, remoteAddr, ch.challenge, ch.hmac, t0, nonce, t1);
  }

  lemma SameSecretIff(c: Crypto, first: string, rots: seq<Rotation>, i: nat, j: nat, text: string)
    requires c.CollisionFree() && FreshSecrets(first, rots) && i <= |rots| && j <= |rots|
    ensures c.hmac(SecretAt(first, rots, i), text) == c.hmac(SecretAt(first, rots, j), text) <==> i == j
  {
    assert SecretAt(first, rots, i) == SecretAt(first, rots, j) <==> i == j;
  }
}
