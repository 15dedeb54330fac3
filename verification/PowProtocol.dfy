/**
 The challenge, solution and token functions of the njs module. The hash
 functions are parameters; the clock and the random seed are arguments.
 */
module PowProtocol {
  import opened Prelude
  import opened Text
  import opened Difficulty
  import opened SecretFile

  /** SHA-256 and HMAC-SHA-256 as functions to hexadecimal text; hmac takes the key first. */
  datatype Crypto = Crypto(sha256: string -> string, hmac: (string, string) -> string) {
    ghost predicate HexDigests() {
      && (forall m :: IsHex(sha256(m)))
      && (forall k, m :: IsHex(hmac(k, m)) && hmac(k, m) != "")
    }

    /** No two (key, message) pairs share a MAC; assumed only where a rejection is claimed. */
    ghost predicate CollisionFree() {
      forall k, m, k', m' :: hmac(k, m) == hmac(k', m') ==> k == k' && m == m'
    }
  }

  const DEFAULT_DIFFICULTY := 18
  const DEFAULT_DURATION := 604800
  const MAX_CHALLENGE_AGE := 300000
  const TOKEN_NAME := "pow_token="
  const ATTRIBUTES := "; " + "Path=/; HttpOnly; Secure; SameSite=Lax; Max-Age="

  /** `parseInt(v) || fallback`: NaN and 0 are both false. */
  function Configured(v: string, fallback: int): int {
    match ParseInt(v)
    case None => fallback
    case Some(n) => if n == 0 then fallback else n
  }

  /** A positive number is taken as written; 0 and text that is no number give the fallback. */
  lemma ConfiguredReads(n: nat, v: string, fallback: int)
    ensures n > 0 ==> Configured(Decimal(n), fallback) == n
    ensures Configured("0", fallback) == fallback
    ensures v == "" || !(JsBlank(v[0] as int) || v[0] in "+-0123456789") ==> Configured(v, fallback) == fallback
  {
    ParseIntRoundTrip(n);
    ParseIntRoundTrip(0);
    assert Decimal(0) == "0";
    if v == "" || !(JsBlank(v[0] as int) || v[0] in "+-0123456789") {
      ParseIntRefuses(v);
    }
  }

  // ---------- challenges ----------

  datatype Challenge = Challenge(challenge: string, hmac: string, difficulty: int)

  function ChallengeText(c: Crypto, now: nat, seed: string): string {
    var random := c.sha256(seed);
    Decimal(now) + ":" + (if |random| <= 16 then random else random[..16])
  }

  function SignedChallenge(c: Crypto, secret: string, difficultyVar: string, now: nat, seed: string): Challenge {
    var text := ChallengeText(c, now, seed);
    Challenge(text, c.hmac(secret, text), Configured(difficultyVar, DEFAULT_DIFFICULTY))
  }

  /** `None` is the 500 answer without a secret. */
  function MakeChallenge(c: Crypto, secrets: Option<SecretData>, difficultyVar: string, now: nat, seed: string)
    : Option<Challenge>
  {
    if secrets.None? then None else Some(SignedChallenge(c, secrets.value.secret, difficultyVar, now, seed))
  }

  // ---------- solutions ----------

  datatype Nonce = Undefined | Number(n: int) | Textual(s: string)

  /** The request body: not JSON, or an object whose absent text fields are "". */
  datatype Body = Malformed | Body(challenge: string, nonce: Nonce, hmac: string)

  datatype Verdict =
    | Accepted(cookieValue: string, maxAge: int)
    | Refused(status: nat, error: string)

  function NonceText(n: Nonce): string {
    match n
    case Undefined => "undefined"
    case Number(i) => IntToString(i)
    case Textual(s) => s
  }

  function SolutionText(challenge: string, nonce: Nonce): string {
    challenge + ":" + NonceText(nonce)
  }

  /** NaN compares false with everything, so a challenge without a number in front is never too old. */
  predicate OlderThan(timestamp: Option<int>, now: int, maxAge: int) {
    timestamp.Some? && now - timestamp.value > maxAge
  }

  function SessionData(timestamp: Option<int>, remoteAddr: string): string {
    NumberToString(timestamp) + ":" + remoteAddr
  }

  function TokenValue(c: Crypto, secret: string, now: nat, remoteAddr: string): string {
    c.hmac(secret, SessionData(Some(now), remoteAddr)) + ":" + Decimal(now)
  }

  function ValidateSolutionSpec(c: Crypto, secrets: Option<SecretData>, difficultyVar: string, durationVar: string,
                                remoteAddr: string, body: Body, now: nat): Verdict {
    if body.Malformed? then Refused(400, "Invalid JSON")
    else if body.challenge == "" || body.nonce == Undefined || body.hmac == ""
      then Refused(400, "Missing required fields")
    else if secrets == None then Refused(500, "Server configuration error")
    else if body.hmac != c.hmac(secrets.value.secret, body.challenge) then Refused(403, "Invalid challenge signature")
    else if OlderThan(ParseInt(Split(body.challenge, ':')[0]), now, MAX_CHALLENGE_AGE)
      then Refused(403, "Challenge expired")
    else
      match CheckDifficulty(c.sha256(SolutionText(body.challenge, body.nonce)),
                            Configured(difficultyVar, DEFAULT_DIFFICULTY))
      case None => Refused(500, "Validation failed")
      case Some(false) => Refused(403, "Invalid proof of work")
      case Some(true) =>
        Accepted(TokenValue(c, secrets.value.secret, now, remoteAddr), Configured(durationVar, DEFAULT_DURATION))
  }

  function SetCookieHeader(v: Verdict): string
    requires v.Accepted?
  {
    TOKEN_NAME + v.cookieValue + ATTRIBUTES + IntToString(v.maxAge)
  }

  /** Which submissions are accepted, with the proof of work read as arithmetic. */
  lemma AcceptedIff(c: Crypto, secrets: Option<SecretData>, difficultyVar: string, durationVar: string,
                    remoteAddr: string, body: Body, now: nat)
    requires c.HexDigests()
    ensures var d := Configured(difficultyVar, 18);
            ValidateSolutionSpec(c, secrets, difficultyVar, durationVar, remoteAddr, body, now).Accepted? <==>
            && body.Body? && body.challenge != "" && body.nonce != Undefined && body.hmac != ""
            && secrets.Some? && body.hmac == c.hmac(secrets.value.secret, body.challenge)
            && !OlderThan(ParseInt(Split(body.challenge, ':')[0]), now, 300000)
            && var digest := c.sha256(SolutionText(body.challenge, body.nonce));
               0 <= d < 4 * |digest| + 4 && Value(digest) * Pow2(d) < Pow2(4 * |digest|)
  {
    var d := Configured(difficultyVar, DEFAULT_DIFFICULTY);
    if body.Body? && d >= 0 {
      CheckIsBound(c.sha256(SolutionText(body.challenge, body.nonce)), d);
    }
  }

  /** The body has all three fields. */
  predicate Complete(body: Body) {
    body.Body? && body.challenge != "" && body.nonce != Undefined && body.hmac != ""
  }

  /** Its MAC is that of the challenge under the current secret. */
  predicate Signed(c: Crypto, secrets: Option<SecretData>, body: Body) {
    Complete(body) && secrets.Some? && body.hmac == c.hmac(secrets.value.secret, body.challenge)
  }

  /** And the number in front of its first ':' is no time more than five minutes ago. */
  predicate InTime(c: Crypto, secrets: Option<SecretData>, body: Body, now: nat) {
    && Signed(c, secrets, body)
    && var issued := ParseInt(Split(body.challenge, ':')[0]);
       (issued.Some? ==> now <= issued.value + 300000)
  }

  /** Each refusal, with its status and message, names the first check that fails. */
  lemma RefusedIff(c: Crypto, secrets: Option<SecretData>, difficultyVar: string, durationVar: string,
                   remoteAddr: string, body: Body, now: nat)
    requires c.HexDigests()
    ensures var v := ValidateSolutionSpec(c, secrets, difficultyVar, durationVar, remoteAddr, body, now);
            var d := Configured(difficultyVar, 18);
            && (v == Refused(400, "Invalid JSON") <==> body.Malformed?)
            && (v == Refused(400, "Missing required fields") <==> body.Body? && !Complete(body))
            && (v == Refused(500, "Server configuration error") <==> Complete(body) && secrets.None?)
            && (v == Refused(403, "Invalid challenge signature")
                <==> Complete(body) && secrets.Some? && !Signed(c, secrets, body))
            && (v == Refused(403, "Challenge expired") <==> Signed(c, secrets, body) && !InTime(c, secrets, body, now))
            && (v == Refused(500, "Validation failed") <==> InTime(c, secrets, body, now) && d < 0)
            && (v == Refused(403, "Invalid proof of work") <==> InTime(c, secrets, body, now) && d >= 0 && !v.Accepted?)
  {
    var d := Configured(difficultyVar, DEFAULT_DIFFICULTY);
    if body.Body? && d >= 0 {
      CheckIsBound(c.sha256(SolutionText(body.challenge, body.nonce)), d);
    }
    DistinctRefusals();
  }

  lemma DistinctRefusals()
    ensures "Invalid JSON" != "Missing required fields"
    ensures "Server configuration error" != "Validation failed"
    ensures "Invalid challenge signature" != "Challenge expired"
    ensures "Invalid proof of work" != "Challenge expired" && "Invalid proof of work" != "Invalid challenge signature"
  {
    assert "Invalid JSON"[0] == 'I' && "Missing required fields"[0] == 'M';
    assert "Server configuration error"[0] == 'S' && "Validation failed"[0] == 'V';
    assert "Challenge expired"[0] == 'C';
    assert "Invalid challenge signature"[8] == 'c' && "Invalid proof of work"[8] == 'p';
  }

  /** The cookie as it is sent: it signs the time and the address, and its lifetime is the configured one. */
  lemma CookieAsSent(c: Crypto, s: SecretData, difficultyVar: string, durationVar: string,
                     remoteAddr: string, body: Body, now: nat)
    requires ValidateSolutionSpec(c, Some(s), difficultyVar, durationVar, remoteAddr, body, now).Accepted?
    ensures SetCookieHeader(ValidateSolutionSpec(c, Some(s), difficultyVar, durationVar, remoteAddr, body, now))
         == "pow_token=" + (c.hmac(s.secret, Decimal(now) + ":" + remoteAddr) + ":" + Decimal(now))
            + ("; " + "Path=/; HttpOnly; Secure; SameSite=Lax; Max-Age=") + IntToString(Configured(durationVar, 604800))
  {
    var v := ValidateSolutionSpec(c, Some(s), difficultyVar, durationVar, remoteAddr, body, now);
    AcceptedValue(c, s, difficultyVar, durationVar, remoteAddr, body, now);
    HeaderText(v);
  }

  lemma AcceptedValue(c: Crypto, s: SecretData, difficultyVar: string, durationVar: string,
                      remoteAddr: string, body: Body, now: nat)
    requires ValidateSolutionSpec(c, Some(s), difficultyVar, durationVar, remoteAddr, body, now).Accepted?
    ensures ValidateSolutionSpec(c, Some(s), difficultyVar, durationVar, remoteAddr, body, now)
         == Accepted(c.hmac(s.secret, Decimal(now) + ":" + remoteAddr) + ":" + Decimal(now),
                     Configured(durationVar, 604800))
  {
  }

  lemma HeaderText(v: Verdict)
    requires v.Accepted?
    ensures SetCookieHeader(v)
         == "pow_token=" + v.cookieValue + ("; " + "Path=/; HttpOnly; Secure; SameSite=Lax; Max-Age=")
           + IntToString(v.maxAge)
  {
  }

  // ---------- tokens ----------

  function UpTo(s: string, stop: char): (r: string)
    ensures r <= s && stop !in r
    ensures |r| < |s| ==> s[|r|] == stop
  {
    if s == "" || s[0] == stop then "" else [s[0]] + UpTo(s[1..], stop)
  }

  /** The expression `pow_token=([^;]+)` at the start of s. */
  function MatchHere(s: string): Option<string> {
    if TOKEN_NAME <= s && |s| > |TOKEN_NAME| && s[|TOKEN_NAME|] != ';'
    then Some(UpTo(s[|TOKEN_NAME|..], ';')) else None
  }

  /** The leftmost match in the cookie header. A header without "pow_token=" has none. */
  function FindToken(s: string): Option<string> {
    if MatchHere(s).Some? || s == "" then MatchHere(s) else FindToken(s[1..])
  }

  predicate TokenMatches(c: Crypto, secrets: SecretData, token: string, timestamp: Option<int>, remoteAddr: string,
                         now: int) {
    || token == c.hmac(secrets.secret, SessionData(timestamp, remoteAddr))
    || (&& secrets.secretOld.Some?
        && secrets.rotationExpires.Some?
        && secrets.rotationExpires.value.Some?
        && now < secrets.rotationExpires.value.value
        && token == c.hmac(secrets.secretOld.value, SessionData(timestamp, remoteAddr)))
  }

  /** `validateToken`: true is "1". The header is "" when the request carries no cookie. */
  predicate ValidateToken(c: Crypto, secrets: Option<SecretData>, durationVar: string, remoteAddr: string,
                          cookie: string, now: int)
  {
    match FindToken(cookie)
    case None => false
    case Some(value) =>
      var parts := Split(value, ':');
      && |parts| == 2
      && var timestamp := ParseInt(parts[1]);
         && !OlderThan(timestamp, now, Configured(durationVar, DEFAULT_DURATION) * 1000)
         && secrets.Some?
         && TokenMatches(c, secrets.value, parts[0], timestamp, remoteAddr, now)
  }

  // ---------- the request object ----------

  datatype Payload = Nothing | ChallengeJson(data: Challenge) | Success(redirect: string) | Error(message: string)

  /** The `r` of one request: what nginx supplies, and what the handlers write. */
  class Request {
    const secretFile: Option<string>
    const difficultyVar: string
    const durationVar: string
    const remoteAddr: string
    const body: Body
    const redirectArg: string

    var headersOut: map<string, string>
    var status: nat
    var payload: Payload

    constructor (secretFile: Option<string>, difficultyVar: string, durationVar: string,
                 remoteAddr: string, body: Body, redirectArg: string)
      ensures this.secretFile == secretFile && this.difficultyVar == difficultyVar && this.durationVar == durationVar
      ensures this.remoteAddr == remoteAddr && this.body == body && this.redirectArg == redirectArg
      ensures headersOut == map[] && status == 0 && payload == Nothing
    {
      this.secretFile, this.difficultyVar, this.durationVar := secretFile, difficultyVar, durationVar;
      this.remoteAddr, this.body, this.redirectArg := remoteAddr, body, redirectArg;
      headersOut, status, payload := map[], 0, Nothing;
    }

    method Return(code: nat, p: Payload)
      modifies this`status, this`payload
      ensures status == code && payload == p
    {
      status, payload := code, p;
    }

    method GenerateChallenge(c: Crypto, parseDate: string -> Option<int>, now: nat, seed: string)
      modifies this
      ensures match MakeChallenge(c, Secrets(secretFile, parseDate), difficultyVar, now, seed)
              case None => status == 500 && payload == Error("Server configuration error")
                && headersOut == old(headersOut)
              case Some(ch) => status == 200 && payload == ChallengeJson(ch)
                               && headersOut == old(headersOut)["Content-Type" := "application/json"]
    {
      var difficulty := Configured(difficultyVar, DEFAULT_DIFFICULTY);
      var secretData := LoadHmacSecret(secretFile, parseDate);
      if secretData == None {
        Return(500, Error("Server configuration error"));
        return;
      }
      var challenge := ChallengeText(c, now, seed);
      var hmac := c.hmac(secretData.value.secret, challenge);
      headersOut := headersOut["Content-Type" := "application/json"];
      Return(200, ChallengeJson(Challenge(challenge, hmac, difficulty)));
    }

    /** The cookie goes out exactly with a 200 answer; every refusal leaves the headers alone. */
    method ValidateSolution(c: Crypto, parseDate: string -> Option<int>, now: nat) returns (ghost v: Verdict)
      modifies this
      ensures v == ValidateSolutionSpec(c, Secrets(secretFile, parseDate), difficultyVar, durationVar, remoteAddr,
                                        body, now)
      ensures v.Refused? ==> status == v.status && payload == Error(v.error) && headersOut == old(headersOut)
      ensures v.Accepted? ==>
                && status == 200
                && payload == Success(if redirectArg == "" then "/" else redirectArg)
                && headersOut == old(headersOut)["Set-Cookie" := SetCookieHeader(v)]
                                                ["Content-Type" := "application/json"]
    {
      v := ValidateSolutionSpec(c, Secrets(secretFile, parseDate), difficultyVar, durationVar, remoteAddr, body, now);
      if body.Malformed? {
        Return(400, Error("Invalid JSON"));
        return;
      }
      if body.challenge == "" || body.nonce == Undefined || body.hmac == "" {
        Return(400, Error("Missing required fields"));
        return;
      }
      var secretData := LoadHmacSecret(secretFile, parseDate);
      if secretData == None {
        Return(500, Error("Server configuration error"));
        return;
      }
      var secret := secretData.value.secret;
      if body.hmac != c.hmac(secret, body.challenge) {
        Return(403, Error("Invalid challenge signature"));
        return;
      }
      var timestamp := ParseInt(Split(body.challenge, ':')[0]);
      if OlderThan(timestamp, now, MAX_CHALLENGE_AGE) {
        Return(403, Error("Challenge expired"));
        return;
      }
      var hash := c.sha256(body.challenge + ":" + NonceText(body.nonce));
      var passed := CheckDifficulty(hash, Configured(difficultyVar, DEFAULT_DIFFICULTY));
      if passed == None {
        Return(500, Error("Validation failed"));
        return;
      }
      if !passed.value {
        Return(403, Error("Invalid proof of work"));
        return;
      }
      var sessionToken := c.hmac(secret, Decimal(now) + ":" + remoteAddr);
      var cookieValue := sessionToken + ":" + Decimal(now);
      var duration := Configured(durationVar, DEFAULT_DURATION);
      headersOut := headersOut["Set-Cookie" :=
        TOKEN_NAME + cookieValue + ATTRIBUTES + IntToString(duration)];
      var redirect := if redirectArg == "" then "/" else redirectArg;
      headersOut := headersOut["Content-Type" := "application/json"];
      Return(200, Success(redirect));
    }
  }

  // ---------- a token survives its trip through the browser ----------

  /** "pow_token=" followed by something other than ';' starts inside the text before the cookie. */
  ghost predicate Shadowed(pre: string) {
    exists i :: 0 <= i && i + |TOKEN_NAME| <= |pre| && ShadowAt(pre, i)
  }

  ghost predicate ShadowAt(pre: string, i: nat)
    requires i + |TOKEN_NAME| <= |pre|
  {
    && pre[i..i + |TOKEN_NAME|] == TOKEN_NAME
    && (i + |TOKEN_NAME| < |pre| ==> pre[i + |TOKEN_NAME|] != ';')
  }

  lemma NameDoesNotOverlap(pre: string, rest: string)
    requires 0 < |pre| < |TOKEN_NAME| && TOKEN_NAME <= rest
    ensures !(TOKEN_NAME <= pre + rest)
  {
    assert (pre + rest)[9] == TOKEN_NAME[9 - |pre|];
    assert TOKEN_NAME[9] == '=' && forall j :: 0 <= j < 9 ==> TOKEN_NAME[j] != '=';
  }

  /** "pow_token=" does not overlap itself, so no match straddles the start of the cookie. */
  lemma NoMatchAtStart(pre: string, rest: string)
    requires pre != "" && TOKEN_NAME <= rest && !(|TOKEN_NAME| <= |pre| && ShadowAt(pre, 0))
    ensures MatchHere(pre + rest) == None
  {
    var s := pre + rest;
    if |pre| < |TOKEN_NAME| {
      NameDoesNotOverlap(pre, rest);
    } else if TOKEN_NAME <= s {
      assert pre[0..0 + |TOKEN_NAME|] == TOKEN_NAME;
    }
  }

  lemma ShadowedIff(pre: string)
    requires pre != ""
    ensures Shadowed(pre) <==> Shadowed(pre[1..]) || (|TOKEN_NAME| <= |pre| && ShadowAt(pre, 0))
  {
    var n := |TOKEN_NAME|;
    if Shadowed(pre) {
      var i :| 0 <= i && i + n <= |pre| && ShadowAt(pre, i);
      if i > 0 {
        assert pre[1..][i - 1..i - 1 + n] == pre[i..i + n];
        assert ShadowAt(pre[1..], i - 1);
      }
    }
    if Shadowed(pre[1..]) {
      var i :| 0 <= i && i + n <= |pre[1..]| && ShadowAt(pre[1..], i);
      assert pre[1..][i..i + n] == pre[i + 1..i + 1 + n];
      assert ShadowAt(pre, i + 1);
    }
  }

  lemma {:induction false} UpToStop(v: string, post: string)
    requires ';' !in v && (post != "" ==> post[0] == ';')
    ensures UpTo(v + post, ';') == v
  {
    if v == "" {
      assert v + post == post;
    } else {
      UpToStop(v[1..], post);
      HeadOfAppend(v, post);
      assert v[0] in v && v == [v[0]] + v[1..];
    }
  }

  lemma MatchAtCookie(value: string, post: string)
    requires value != "" && ';' !in value && (post != "" ==> post[0] == ';')
    ensures MatchHere(TOKEN_NAME + value + post) == Some(value)
  {
    var rest := TOKEN_NAME + value + post;
    assert rest[|TOKEN_NAME|..] == value + post;
    assert rest[|TOKEN_NAME|] == value[0] && value[0] in value;
    UpToStop(value, post);
  }

  /** Where the match that `FindToken` returns begins. */
  function MatchStart(s: string): Option<nat> {
    if MatchHere(s).Some? then Some(0)
    else if s == "" then None
    else
      var start := MatchStart(s[1..]);
      if start.None? then None else Some(start.value + 1)
  }

  lemma {:induction false} MatchStartFinds(s: string)
    ensures var start := MatchStart(s);
            && (start.None? ==> FindToken(s) == None)
            && (start.Some? ==> start.value <= |s| && FindToken(s).Some? && FindToken(s) == MatchHere(s[start.value..]))
  {
    if MatchHere(s).Some? {
      assert s[0..] == s;
    } else if s != "" {
      MatchStartFinds(s[1..]);
      var start := MatchStart(s[1..]);
      if start.Some? {
        assert s[1..][start.value..] == s[start.value + 1..];
      }
    }
  }

  /** A match within `pre` at its first position survives whatever follows. */
  lemma ShadowMatches(pre: string, rest: string)
    requires |TOKEN_NAME| <= |pre| && ShadowAt(pre, 0) && rest != "" && rest[0] != ';'
    ensures MatchHere(pre + rest).Some?
  {
    var s := pre + rest;
    assert s[..|TOKEN_NAME|] == pre[0..0 + |TOKEN_NAME|];
  }

  /**
   Which cookie is read: the match never begins after the token's own cookie,
   and begins there exactly when no text in front matches by itself.
   */
  lemma {:induction false} TokenReadIff(pre: string, value: string, post: string)
    requires value != "" && ';' !in value && (post != "" ==> post[0] == ';')
    ensures var start := MatchStart(pre + (TOKEN_NAME + value + post));
            && start.Some? && start.value <= |pre|
            && (start.value == |pre| <==> !Shadowed(pre))
  {
    var rest := TOKEN_NAME + value + post;
    if pre == "" {
      assert pre + rest == rest;
      MatchAtCookie(value, post);
    } else {
      HeadOfAppend(pre, rest);
      TokenReadIff(pre[1..], value, post);
      ShadowedIff(pre);
      if |TOKEN_NAME| <= |pre| && ShadowAt(pre, 0) {
        assert rest[0] == TOKEN_NAME[0] == 'p';
        ShadowMatches(pre, rest);
      } else {
        NoMatchAtStart(pre, rest);
      }
    }
  }

  /** So the token is found wherever it stands, behind text that does not match itself. */
  lemma CookieIsFound(pre: string, value: string, post: string)
    requires value != "" && ';' !in value && (post != "" ==> post[0] == ';')
    requires !Shadowed(pre)
    ensures FindToken(pre + (TOKEN_NAME + value + post)) == Some(value)
  {
    var s := pre + (TOKEN_NAME + value + post);
    TokenReadIff(pre, value, post);
    MatchStartFinds(s);
    assert s[|pre|..] == TOKEN_NAME + value + post;
    MatchAtCookie(value, post);
  }

  /** A cookie whose name merely ends in pow_token hides the real one behind it, whatever that is. */
  lemma SuffixNameHidesToken(front: string, other: string, value: string)
    requires !Shadowed(front) && other != "" && ';' !in other
    ensures FindToken(front + (TOKEN_NAME + other + ("; " + TOKEN_NAME + value))) == Some(other)
    ensures !Shadowed("my_")
  {
    var post := "; " + TOKEN_NAME + value;
    assert post[0] == ';';
    CookieIsFound(front, other, post);
  }

  lemma HexHasNoPunctuation(s: string)
    requires IsHex(s) || AllDigits(s)
    ensures ':' !in s && ';' !in s
  {
  }

  /** What `validateToken` reads back from an issued cookie value. */
  lemma TokenParts(c: Crypto, secret: string, now: nat, remoteAddr: string)
    requires c.HexDigests()
    ensures var value := TokenValue(c, secret, now, remoteAddr);
            && value != "" && ';' !in value
            && Split(value, ':') == [c.hmac(secret, SessionData(Some(now), remoteAddr)), Decimal(now)]
            && ParseInt(Decimal(now)) == Some(now)
  {
    var mac := c.hmac(secret, SessionData(Some(now), remoteAddr));
    HexHasNoPunctuation(mac);
    HexHasNoPunctuation(Decimal(now));
    SplitCons(mac, ':', Decimal(now));
    SplitAtom(Decimal(now), ':');
    assert mac + ":" + Decimal(now) == mac + [':'] + Decimal(now);
    ParseIntRoundTrip(now);
  }

  /** A header that carries an issued cookie is judged by age and MAC alone. */
  lemma HeaderJudged(c: Crypto, secret: string, issued: nat, issuedTo: string, pre: string, post: string,
                     secrets: Option<SecretData>, durationVar: string, remoteAddr: string, now: int)
    requires c.HexDigests()
    requires !Shadowed(pre) && (post != "" ==> post[0] == ';')
    ensures ValidateToken(c, secrets, durationVar, remoteAddr,
                          pre + (TOKEN_NAME + TokenValue(c, secret, issued, issuedTo) + post), now)
       <==> && now - issued <= Configured(durationVar, 604800) * 1000
            && secrets.Some?
            && TokenMatches(c, secrets.value, c.hmac(secret, SessionData(Some(issued), issuedTo)), Some(issued),
                            remoteAddr, now)
  {
    TokenParts(c, secret, issued, issuedTo);
    CookieIsFound(pre, TokenValue(c, secret, issued, issuedTo), post);
  }

  /**
   Any header at all: it is accepted exactly when the first match has the form
   mac:text with no other ':', text is no older than the duration allows, and
   mac is the MAC of that time and this address.
   */
  lemma ValidTokenIff(c: Crypto, secrets: Option<SecretData>, durationVar: string, remoteAddr: string, cookie: string,
                      now: int)
    ensures ValidateToken(c, secrets, durationVar, remoteAddr, cookie, now)
       <==> exists mac: string, text: string ::
              && FindToken(cookie) == Some(mac + [':'] + text) && ':' !in mac && ':' !in text
              && !OlderThan(ParseInt(text), now, Configured(durationVar, 604800) * 1000)
              && secrets.Some? && TokenMatches(c, secrets.value, mac, ParseInt(text), remoteAddr, now)
  {
    var found := FindToken(cookie);
    if ValidateToken(c, secrets, durationVar, remoteAddr, cookie, now) {
      SplitSound(found.value, ':');
      var parts := Split(found.value, ':');
      assert parts[1..] == [parts[1]];
      assert found == Some(parts[0] + [':'] + parts[1]);
    }
    if mac: string, text: string :|
      && found == Some(mac + [':'] + text) && ':' !in mac && ':' !in text
      && !OlderThan(ParseInt(text), now, Configured(durationVar, DEFAULT_DURATION) * 1000)
      && secrets.Some? && TokenMatches(c, secrets.value, mac, ParseInt(text), remoteAddr, now)
    {
      SplitCons(mac, ':', text);
      SplitAtom(text, ':');
    }
  }

  // ---------- the time in a token ----------

  lemma {:induction false} NumberHasNoColon(x: Option<int>)
    ensures ':' !in NumberToString(x)
  {
    if x.Some? {
      HexHasNoPunctuation(Decimal(if x.value < 0 then -x.value else x.value));
    }
  }

  lemma NumberTextInjective(x: Option<int>, y: Option<int>)
    requires NumberToString(x) == NumberToString(y)
    ensures x == y
  {
    assert forall n: nat :: '0' <= Decimal(n)[0] <= '9';
    assert "NaN"[0] == 'N' && "-"[0] == '-';
    if x.Some? && y.Some? {
      var a, b := if x.value < 0 then -x.value else x.value, if y.value < 0 then -y.value else y.value;
      assert x.value < 0 ==> NumberToString(x)[1..] == Decimal(a);
      assert y.value < 0 ==> NumberToString(y)[1..] == Decimal(b);
      DecimalInjective(a, b);
    }
  }

  /** The signed text determines time and address. */
  lemma SessionDataInjective(x: Option<int>, addr: string, y: Option<int>, addr': string)
    requires SessionData(x, addr) == SessionData(y, addr')
    ensures x == y && addr == addr'
  {
    var a, b := NumberToString(x), NumberToString(y);
    NumberHasNoColon(x);
    NumberHasNoColon(y);
    SplitCons(a, ':', addr);
    SplitCons(b, ':', addr');
    assert SessionData(x, addr) == a + [':'] + addr && SessionData(y, addr') == b + [':'] + addr';
    assert ([a] + Split(addr, ':'))[0] == a && ([b] + Split(addr', ':'))[0] == b;
    NumberTextInjective(x, y);
    assert (a + [':'] + addr)[|a| + 1..] == addr && (b + [':'] + addr')[|b| + 1..] == addr';
  }

  /** Without collisions a MAC made for a time and an address passes for no other time and no other address. */
  lemma TokenSignsTime(c: Crypto, secret: string, issued: nat, issuedTo: string,
                       secrets: SecretData, timestamp: Option<int>, remoteAddr: string, now: int)
    requires c.CollisionFree()
    requires TokenMatches(c, secrets, c.hmac(secret, Decimal(issued) + ":" + issuedTo), timestamp, remoteAddr, now)
    ensures timestamp == Some(issued) && remoteAddr == issuedTo
    ensures secret == secrets.secret || Some(secret) == secrets.secretOld
  {
    assert Decimal(issued) + ":" + issuedTo == SessionData(Some(issued), issuedTo);
    SessionDataInjective(timestamp, remoteAddr, Some(issued), issuedTo);
  }

  /** So a cookie whose time has been rewritten is refused, at every moment and under every file. */
  lemma AlteredTimeRefused(c: Crypto, secret: string, issued: nat, issuedTo: string, text: string,
                           pre: string, post: string, secrets: Option<SecretData>, durationVar: string,
                           remoteAddr: string, now: int)
    requires c.HexDigests() && c.CollisionFree()
    requires ':' !in text && ';' !in text && ParseInt(text) != Some(issued)
    requires !Shadowed(pre) && (post != "" ==> post[0] == ';')
    ensures var mac := c.hmac(secret, Decimal(issued) + ":" + issuedTo);
            !ValidateToken(c, secrets, durationVar, remoteAddr, pre + ("pow_token=" + (mac + ":" + text) + post), now)
  {
    var mac := c.hmac(secret, Decimal(issued) + ":" + issuedTo);
    var value := mac + ":" + text;
    HexHasNoPunctuation(mac);
    CookieIsFound(pre, value, post);
    SplitCons(mac, ':', text);
    SplitAtom(text, ':');
    assert value == mac + [':'] + text;
    if secrets.Some? && TokenMatches(c, secrets.value, mac, ParseInt(text), remoteAddr, now) {
      TokenSignsTime(c, secret, issued, issuedTo, secrets.value, ParseInt(text), remoteAddr, now);
      assert false;
    }
  }

  /** The challenge's own timestamp is read back. */
  lemma ChallengeTimestamp(c: Crypto, now: nat, seed: string)
    ensures ParseInt(Split(ChallengeText(c, now, seed), ':')[0]) == Some(now)
    ensures |c.sha256(seed)| >= 16 && ':' !in c.sha256(seed) ==>
              Split(ChallengeText(c, now, seed), ':') == [Decimal(now), c.sha256(seed)[..16]]
  {
    var random := c.sha256(seed);
    var tail := if |random| <= 16 then random else random[..16];
    HexHasNoPunctuation(Decimal(now));
    SplitCons(Decimal(now), ':', tail);
    if |random| >= 16 && ':' !in random {
      assert tail == random[..16];
      SplitAtom(tail, ':');
    }
    assert Decimal(now) + ":" + tail == Decimal(now) + [':'] + tail;
    ParseIntRoundTrip(now);
  }

  /** A complete submission with a timestamp is judged by its MAC, its age and its digest. */
  lemma SubmissionJudged(c: Crypto, s: SecretData, difficultyVar: string, durationVar: string, remoteAddr: string,
                         challenge: string, mac: string, t0: nat, nonce: int, t1: nat)
    requires challenge != "" && mac != "" && ParseInt(Split(challenge, ':')[0]) == Some(t0)
    ensures ValidateSolutionSpec(c, Some(s), difficultyVar, durationVar, remoteAddr,
                                 Body(challenge, Number(nonce), mac), t1).Accepted?
       <==> && mac == c.hmac(s.secret, challenge) && t1 - t0 <= 300000
            && CheckDifficulty(c.sha256(SolutionText(challenge, Number(nonce))),
                               Configured(difficultyVar, 18)) == Some(true)
  {
    var issued := ParseInt(Split(challenge, ':')[0]);
    assert OlderThan(issued, t1, MAX_CHALLENGE_AGE) <==> t1 - t0 > MAX_CHALLENGE_AGE;
  }

  /** A complete, signed and solved submission of a challenge from t0, at most five minutes later. */
  lemma FreshSolutionAccepted(c: Crypto, s: SecretData, difficultyVar: string, durationVar: string, remoteAddr: string,
                              challenge: string, t0: nat, nonce: nat, t1: nat)
    requires c.HexDigests() && challenge != "" && ParseInt(Split(challenge, ':')[0]) == Some(t0)
             && t1 - t0 <= MAX_CHALLENGE_AGE
    requires CheckDifficulty(c.sha256(SolutionText(challenge, Number(nonce))),
                             Configured(difficultyVar, DEFAULT_DIFFICULTY)) == Some(true)
    ensures ValidateSolutionSpec(c, Some(s), difficultyVar, durationVar, remoteAddr,
                                 Body(challenge, Number(nonce), c.hmac(s.secret, challenge)), t1)
         == Accepted(TokenValue(c, s.secret, t1, remoteAddr), Configured(durationVar, DEFAULT_DURATION))
  {
    var mac := c.hmac(s.secret, challenge);
    var issued := ParseInt(Split(challenge, ':')[0]);
    assert mac != "" && !OlderThan(issued, t1, MAX_CHALLENGE_AGE);
  }

  /** The browser's part: it stores the pair before the first ';' of Set-Cookie. */
  lemma BrowserKeepsPair(v: Verdict)
    requires v.Accepted? && ';' !in v.cookieValue
    ensures UpTo(SetCookieHeader(v), ';') == TOKEN_NAME + v.cookieValue
  {
    var attributes := ATTRIBUTES + IntToString(v.maxAge);
    assert ATTRIBUTES[0] == ';' == attributes[0];
    assert SetCookieHeader(v) == (TOKEN_NAME + v.cookieValue) + attributes;
    UpToStop(TOKEN_NAME + v.cookieValue, attributes);
  }

  /**
   End to end: a challenge generated at t0, solved, and submitted within five
   minutes under the same secret is accepted, also when the difficulty has been
   lowered meanwhile, and the cookie the
   browser keeps is then valid for that address at every moment of its
   lifetime, wherever it stands in the cookie header.
   */
  lemma PowEndToEnd(c: Crypto, s: SecretData, difficultyVar: string, laterVar: string, durationVar: string,
                    remoteAddr: string, t0: nat, seed: string, nonce: nat, t1: nat)
    requires c.HexDigests() && t1 - t0 <= 300000
    requires 0 <= Configured(laterVar, 18) <= Configured(difficultyVar, 18)
    requires var ch := SignedChallenge(c, s.secret, difficultyVar, t0, seed);
             CheckDifficulty(c.sha256(SolutionText(ch.challenge, Number(nonce))), ch.difficulty) == Some(true)
    ensures var ch := SignedChallenge(c, s.secret, difficultyVar, t0, seed);
            var v := ValidateSolutionSpec(c, Some(s), laterVar, durationVar, remoteAddr,
                                          Body(ch.challenge, Number(nonce), ch.hmac), t1);
            && v.Accepted?
            && forall t2, pre, post ::
                 t2 - t1 <= Configured(durationVar, 604800) * 1000 && !Shadowed(pre)
                   && (post != "" ==> post[0] == ';')
                 ==> ValidateToken(c, Some(s), durationVar, remoteAddr, pre + (UpTo(SetCookieHeader(v), ';') + post),
                                   t2)
  {
    var ch := SignedChallenge(c, s.secret, difficultyVar, t0, seed);
    var v := ValidateSolutionSpec(c, Some(s), laterVar, durationVar, remoteAddr,
                                  Body(ch.challenge, Number(nonce), ch.hmac), t1);
    ChallengeTimestamp(c, t0, seed);
    EasierKeepsSolutions(c.sha256(SolutionText(ch.challenge, Number(nonce))), ch.difficulty,
                         Configured(laterVar, DEFAULT_DIFFICULTY));
    FreshSolutionAccepted(c, s, laterVar, durationVar, remoteAddr, ch.challenge, t0, nonce, t1);
    TokenParts(c, s.secret, t1, remoteAddr);
    BrowserKeepsPair(v);
    forall t2, pre, post |
      t2 - t1 <= Configured(durationVar, DEFAULT_DURATION) * 1000 && !Shadowed(pre) && (post != "" ==> post[0] == ';')
      ensures ValidateToken(c, Some(s), durationVar, remoteAddr, pre + (UpTo(SetCookieHeader(v), ';') + post), t2)
    {
      HeaderJudged(c, s.secret, t1, remoteAddr, pre, post, Some(s), durationVar, remoteAddr, t2);
    }
  }
}
