/**
 The challenge page: the search for a nonce, and its progress figures.
 */
module Solver {
  import opened Prelude
  import opened Text
  import opened Difficulty
  import opened WorkRatio
  import opened SecretFile
  import opened PowProtocol

  /** The nonce solves the challenge. */
  predicate Solves(c: Crypto, challenge: string, diff: int, nonce: nat) {
    CheckDifficulty(c.sha256(challenge + ":" + Decimal(nonce)), diff) == Some(true)
  }

  ghost predicate LeastSolution(c: Crypto, challenge: string, diff: int, nonce: nat) {
    Solves(c, challenge, diff, nonce) && forall k: nat :: k < nonce ==> !Solves(c, challenge, diff, k)
  }

  /** The shared variables of the page's script. */
  class Page {
    var difficulty: int
    var expectedAttempts: nat
    var currentNonce: nat

    constructor ()
      ensures difficulty == 0 && expectedAttempts == 0 && currentNonce == 0
    {
      difficulty, expectedAttempts, currentNonce := 0, 0, 0;
    }

    /**
     One attempt, and the next when it fails. The distance to a known
     solution bounds the search; the pause every 100 attempts changes nothing.
     */
    method TryNonce(c: Crypto, challenge: string, diff: nat, nonce: nat, ghost known: nat) returns (found: nat)
      requires c.HexDigests()
      requires Solves(c, challenge, diff, known) && nonce <= known
      requires forall k: nat :: k < nonce ==> !Solves(c, challenge, diff, k)
      modifies this`currentNonce
      ensures LeastSolution(c, challenge, diff, found)
      ensures currentNonce == found <= known
      decreases known - nonce
    {
      currentNonce := nonce;
      var hash := c.sha256(challenge + ":" + Decimal(nonce));
      CheckIsBound(hash, diff);
      if CheckDifficulty(hash, diff).value {
        return nonce;
      }
      found := TryNonce(c, challenge, diff, nonce + 1, known);
    }

    method SolveChallenge(c: Crypto, challenge: string, diff: nat, ghost known: nat) returns (found: nat)
      requires c.HexDigests() && Solves(c, challenge, diff, known)
      modifies this
      ensures LeastSolution(c, challenge, diff, found)
      ensures currentNonce == found <= known
      ensures difficulty == diff && expectedAttempts == ExpectedAttempts(diff)
    {
      difficulty := diff;
      expectedAttempts := ExpectedAttempts(diff);
      found := TryNonce(c, challenge, diff, 0, known);
    }
  }

  /** A lower difficulty is never solved later. */
  lemma EasierIsFoundSooner(c: Crypto, challenge: string, d: nat, e: nat, m: nat, n: nat)
    requires c.HexDigests() && e <= d
    requires LeastSolution(c, challenge, d, m) && LeastSolution(c, challenge, e, n)
    ensures n <= m
  {
    EasierKeepsSolutions(c.sha256(challenge + ":" + Decimal(m)), d, e);
    assert Solves(c, challenge, e, m);
  }

  /** What the page finds, the server rebuilds and accepts: both hash the same text. */
  lemma ServerAcceptsFound(c: Crypto, s: SecretData, difficultyVar: string, durationVar: string,
                           remoteAddr: string, t0: nat, seed: string, found: nat, t1: nat)
    requires c.HexDigests() && t1 - t0 <= 300000
    requires var ch := SignedChallenge(c, s.secret, difficultyVar, t0, seed);
             LeastSolution(c, ch.challenge, ch.difficulty, found)
    ensures var ch := SignedChallenge(c, s.secret, difficultyVar, t0, seed);
            ValidateSolutionSpec(c, Some(s), difficultyVar, durationVar, remoteAddr,
                                 Body(ch.challenge, Number(found), ch.hmac), t1).Accepted?
  {
    PowEndToEnd(c, s, difficultyVar, difficultyVar, durationVar, remoteAddr, t0, seed, found, t1);
  }

  /** The page searches for exactly what the server will accept: same text, same digest, same difficulty. */
  lemma PageAndServerAgree(c: Crypto, s: SecretData, difficultyVar: string, durationVar: string,
                           remoteAddr: string, t0: nat, seed: string, nonce: nat, t1: nat)
    requires c.HexDigests() && t1 - t0 <= 300000
    ensures var ch := SignedChallenge(c, s.secret, difficultyVar, t0, seed);
            var v := ValidateSolutionSpec(c, Some(s), difficultyVar, durationVar, remoteAddr,
                                          Body(ch.challenge, Number(nonce), ch.hmac), t1);
            v.Accepted? <==> Solves(c, ch.challenge, ch.difficulty, nonce)
  {
    var ch := SignedChallenge(c, s.secret, difficultyVar, t0, seed);
    ChallengeTimestamp(c, t0, seed);
    SubmissionJudged(c, s, difficultyVar, durationVar, remoteAddr, ch.challenge, ch.hmac, t0, nonce, t1);
  }

  /** A whole visit: the server's answer to the page's own submission is a 200 with the cookie. */
  method Visit(c: Crypto, file: Option<string>, parseDate: string -> Option<int>, difficultyVar: string,
               durationVar: string, remoteAddr: string, t0: nat, seed: string, ghost s: SecretData,
               ghost known: nat, t1: nat)
    returns (answer: Request)
    requires c.HexDigests() && Secrets(file, parseDate) == Some(s) && t1 - t0 <= MAX_CHALLENGE_AGE
    requires var ch := SignedChallenge(c, s.secret, difficultyVar, t0, seed);
             ch.difficulty >= 0 && Solves(c, ch.challenge, ch.difficulty, known)
    ensures answer.status == 200 && "Set-Cookie" in answer.headersOut
  {
    var ask := new Request(file, difficultyVar, durationVar, remoteAddr, Malformed, "");
    ask.GenerateChallenge(c, parseDate, t0, seed);
    var data := ask.payload.data;
    var page := new Page();
    var nonce := page.SolveChallenge(c, data.challenge, data.difficulty, known);
    answer := new Request(file, difficultyVar, durationVar, remoteAddr, Body(data.challenge, Number(nonce), data.hmac),
                          "");
    ServerAcceptsFound(c, s, difficultyVar, durationVar, remoteAddr, t0, seed, nonce, t1);
    ghost var v := answer.ValidateSolution(c, parseDate, t1);
  }
}
