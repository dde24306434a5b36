/** The two guards (`server/src/auth/middleware.rs`): header parsing, token validation,
    proof validation, and the collapse of every failure into one of two responses. */
module Middleware {
  import opened Prelude
  import opened Failure
  import opened Contexts
  import opened Replay
  import opened JwksIndex
  import opened Dpop
  import opened AuthHeader
  import ReplayRuns
  import Token
  import Refresh
  import InstallTheorems
  import TokenTheorems

  // ---- a request ----

  /** The key sets a token validation looked at: the current one and, if a refresh let
      it try again, the one current then; and the second it checked the claims at. */
  datatype Tries = Tries(first: Jwks, second: Option<Jwks>, kid: Option<string>, verify: Token.Verifier, checkedAt: U64)

  /** A request: header values that are readable text, the effective URI if it can be
      built, and what decoding makes of the token and the proof. */
  datatype Request = Request(
    verb: string,
    authorization: Option<string>,
    dpop: Option<string>,
    uri: Option<Url>,
    tokenAlg: Option<HeaderAlg>,
    tries: Tries,
    presented: Presented)

  /** `validate_token` up to the claims: the first attempt, or else the second, or else
      the first one's error. */
  function Decoded(tries: Tries): Result<(Jwk, Token.Claims), AuthFailure> {
    var first := Token.Attempt(tries.first, tries.kid, tries.verify);
    if first.Ok? || tries.second.None? then first
    else
      var second := Token.Attempt(tries.second.value, tries.kid, tries.verify);
      if second.Ok? then second else first
  }

  /** Whatever a concurrent run of the two contexts decides for a token validation is
      what `Decoded` makes of the key sets it looked at. */
  lemma DecidedAsDecoded(c: Refresh.Config, s0: Refresh.State, events: seq<Refresh.Event>,
                         s: Refresh.State, t: Refresh.Tid, at: U64)
    requires InstallTheorems.Reached(c, s0, events, s)
    requires t in s.threads && s.threads[t].pc.Decided?
    ensures
      var th := s.threads[t];
      && th.request.Some? && th.first.Some?
      && th.pc.verdict == Decoded(Tries(th.first.value, th.second, th.request.value.kid, th.request.value.verify, at))
  {
    TokenTheorems.RunKeepsTokenInv(c, s0, events, s);
    assert TokenTheorems.Settled(c, s, s.threads[t]);
    hide InstallTheorems.Reached, TokenTheorems.TokenInv, Token.Attempt;
  }

  function ValidateToken(req: Request, ctx: Context): Result<Token.AccessToken, AuthFailure> {
    if req.tokenAlg.None? || req.tokenAlg.value.Disallowed? then Err(InvalidAlg)
    else
      match Decoded(req.tries)
      case Err(e) => Err(e)
      case Ok((_, claims)) => Token.CheckClaims(claims, ctx.want, req.tries.checkedAt)
  }

  /** The first candidate of `jwks` that verifies the token carries these claims. */
  ghost predicate FirstClaims(jwks: Jwks, tries: Tries, claims: Token.Claims) {
    var candidates := LookupCandidates(jwks, tries.kid);
    exists i :: Token.FirstVerified(candidates, tries.verify, i)
                && tries.verify(candidates[i]) == Token.Verified(claims)
  }

  ghost predicate NoneVerifies(jwks: Jwks, tries: Tries) {
    forall k | k in LookupCandidates(jwks, tries.kid) :: !tries.verify(k).Verified?
  }

  /** The claims that a token's signature vouches for: those under the first key set or,
      if none of its candidates verifies, under the second. */
  ghost predicate VerifiedClaims(tries: Tries, claims: Token.Claims) {
    || FirstClaims(tries.first, tries, claims)
    || (NoneVerifies(tries.first, tries) && tries.second.Some? && FirstClaims(tries.second.value, tries, claims))
  }

  /** A token of an allowed algorithm, with a verified signature over complete claims for
      this issuer and audience that have begun and have not expired. */
  ghost predicate TokenInOrder(req: Request, ctx: Context, token: Token.AccessToken) {
    && req.tokenAlg.Some? && req.tokenAlg.value.Allowed?
    && exists claims :: VerifiedClaims(req.tries, claims) && Token.Vouches(claims, ctx.want, req.tries.checkedAt, token)
  }

  lemma AttemptIff(jwks: Jwks, tries: Tries, claims: Token.Claims)
    ensures (exists k :: Token.Attempt(jwks, tries.kid, tries.verify) == Ok((k, claims)))
            <==> FirstClaims(jwks, tries, claims)
    ensures Token.Attempt(jwks, tries.kid, tries.verify).Err? <==> NoneVerifies(jwks, tries)
  {
    var candidates := LookupCandidates(jwks, tries.kid);
    Token.ScanMeaning(candidates, tries.verify, None);
    hide Token.Scan, LookupCandidates;
    if Token.Attempt(jwks, tries.kid, tries.verify).Err? {
      forall k | k in candidates ensures !tries.verify(k).Verified? {
        var i :| 0 <= i < |candidates| && candidates[i] == k;
        Token.NoneVerified(candidates, tries.verify, None, i);
      }
    } else {
      var i :| Token.FirstVerified(candidates, tries.verify, i);
      assert candidates[i] in candidates;
      assert Token.Attempt(jwks, tries.kid, tries.verify) == Ok((candidates[i], tries.verify(candidates[i]).claims));
    }
  }

  lemma DecodedIff(tries: Tries, claims: Token.Claims)
    ensures (exists k :: Decoded(tries) == Ok((k, claims))) <==> VerifiedClaims(tries, claims)
  {
    hide Token.Attempt, FirstClaims, NoneVerifies;
    AttemptIff(tries.first, tries, claims);
    if tries.second.Some? {
      AttemptIff(tries.second.value, tries, claims);
    }
    FirstClaimsVerify(tries.first, tries, claims);
  }

  lemma FirstClaimsVerify(jwks: Jwks, tries: Tries, claims: Token.Claims)
    ensures FirstClaims(jwks, tries, claims) ==> !NoneVerifies(jwks, tries)
  {
    var candidates := LookupCandidates(jwks, tries.kid);
    if i :| Token.FirstVerified(candidates, tries.verify, i) {
      assert candidates[i] in candidates;
    }
  }

  /** Below the last representable second, token validation accepts exactly the tokens that
      are in order. */
  lemma ValidateTokenIff(req: Request, ctx: Context, token: Token.AccessToken)
    requires req.tries.checkedAt < U64_MAX
    ensures ValidateToken(req, ctx) == Ok(token) <==> TokenInOrder(req, ctx, token)
  {
    hide Decoded, VerifiedClaims, Token.CheckClaims, Token.Vouches;
    forall claims
      ensures (exists k :: Decoded(req.tries) == Ok((k, claims))) <==> VerifiedClaims(req.tries, claims)
      ensures Token.CheckClaims(claims, ctx.want, req.tries.checkedAt) == Ok(token) <==>
              Token.Vouches(claims, ctx.want, req.tries.checkedAt, token)
    {
      DecodedIff(req.tries, claims);
      Token.CheckClaimsIff(claims, ctx.want, req.tries.checkedAt, token);
    }
    if Decoded(req.tries).Ok? {
      var (k, claims) := Decoded(req.tries).value;
      assert VerifiedClaims(req.tries, claims);
    }
  }

  lemma {:induction false} ScanNeverReportsPressure(candidates: seq<Jwk>, verify: Token.Verifier,
                                           last: Option<Token.DecodeError>)
    ensures Token.Scan(candidates, verify, last) != Err(AuthFailure.MemoryPressure)
    ensures Token.Scan(candidates, verify, last) != Err(ProofReplayed)
  {
    if candidates != [] {
      var next := match verify(candidates[0]) case Rejected(error) => Some(error) case _ => last;
      ScanNeverReportsPressure(candidates[1..], verify, next);
    }
  }

  /** Token validation never reports what only the replay store can report. */
  lemma TokenNeverReportsPressure(req: Request, ctx: Context)
    ensures ValidateToken(req, ctx) != Err(AuthFailure.MemoryPressure)
    ensures ValidateToken(req, ctx) != Err(ProofReplayed)
  {
    ScanNeverReportsPressure(LookupCandidates(req.tries.first, req.tries.kid), req.tries.verify, None);
    if req.tries.second.Some? {
      ScanNeverReportsPressure(LookupCandidates(req.tries.second.value, req.tries.kid), req.tries.verify, None);
    }
  }

  /** Its `Authorization` header carries a token, and its `DPoP` header is not blank. */
  ghost predicate HasToken(req: Request) {
    req.authorization.Some? && exists raw :: Bears(req.authorization.value, raw)
  }

  predicate HasProof(req: Request) { req.dpop.Some? && !AllBlank(req.dpop.value) }

  function RawToken(req: Request): Option<string> {
    if req.authorization.None? then None else BearerToken(req.authorization.value)
  }

  lemma RawTokenIff(req: Request)
    ensures RawToken(req).Some? <==> HasToken(req)
    ensures forall raw :: RawToken(req) == Some(raw) <==> req.authorization.Some? && Bears(req.authorization.value, raw)
  {
    hide BearerToken, Bears;
    if req.authorization.Some? {
      forall raw ensures BearerToken(req.authorization.value) == Some(raw) <==> Bears(req.authorization.value, raw) {
        BearerTokenIff(req.authorization.value, raw);
      }
      if RawToken(req).Some? {
        assert Bears(req.authorization.value, RawToken(req).value);
      }
    }
  }

  function TargetOf(req: Request): Target
    requires RawToken(req).Some? && req.uri.Some?
  {
    Target(req.verb, req.uri.value, RawToken(req).value)
  }

  /** A request that gets as far as its proof. */
  predicate Presentable(req: Request, ctx: Context) {
    RawToken(req).Some? && HasProof(req) && req.uri.Some? && ValidateToken(req, ctx).Ok?
  }

  /** A request whose headers, token and proof are all in order. */
  ghost predicate RequestMatches(req: Request, ctx: Context, now: Instant)
    requires ReplayRuns.Seconds(now) <= U64_MAX
  {
    Presentable(req, ctx) && ProofMatches(req.presented, TargetOf(req), ValidateToken(req, ctx).value, ctx, now)
  }

  /** What an accepted request is, on its own fields: `raw` is the token it carries, and
      `token` what that says. */
  ghost predicate RequestInOrder(req: Request, ctx: Context, raw: string, token: Token.AccessToken, now: Instant) {
    && req.authorization.Some? && Bears(req.authorization.value, raw)
    && HasProof(req) && req.uri.Some?
    && TokenInOrder(req, ctx, token)
    && ProofInOrder(req.presented, Target(req.verb, req.uri.value, raw), token, ctx, now)
  }

  /** The clock and the tolerances stay within what a `u64` can count. */
  predicate Countable(req: Request, ctx: Context) { Exact(ctx) && req.tries.checkedAt < U64_MAX }

  lemma RequestMatchesIff(req: Request, ctx: Context, now: Instant)
    requires ReplayRuns.Seconds(now) <= U64_MAX && Countable(req, ctx)
    ensures RequestMatches(req, ctx, now) <==> exists raw, token :: RequestInOrder(req, ctx, raw, token, now)
    ensures RequestMatches(req, ctx, now) ==>
              RequestInOrder(req, ctx, RawToken(req).value, ValidateToken(req, ctx).value, now)
  {
    RawTokenIff(req);
    hide HasToken, HasProof, Bears, RawToken, ValidateToken, TokenInOrder, ProofMatches, ProofInOrder;
    if RequestMatches(req, ctx, now) {
      var raw, token := RawToken(req).value, ValidateToken(req, ctx).value;
      ValidateTokenIff(req, ctx, token);
      ProofMatchesIff(req.presented, TargetOf(req), token, ctx, now);
      assert RawToken(req) == Some(raw) && ValidateToken(req, ctx) == Ok(token);
      assert RequestInOrder(req, ctx, raw, token, now);
    }
    if raw, token :| RequestInOrder(req, ctx, raw, token, now) {
      ValidateTokenIff(req, ctx, token);
      assert RawToken(req) == Some(raw) && ValidateToken(req, ctx) == Ok(token);
      ProofMatchesIff(req.presented, TargetOf(req), token, ctx, now);
      assert RequestMatches(req, ctx, now);
    }
  }

  /** `authenticate_common`: the first thing amiss is the one reported; a rejected request
      leaves the replay store as it was, and an accepted one adds the one key of its
      proof, tagged with its own context. */
  method AuthenticateCommon(req: Request, ctx: Context, store: JtiReplayStore, now: Instant)
    returns (r: Result<string, AuthFailure>)
    requires store.maxEntries == ctx.params.maxEntries && ReplayRuns.Seconds(now) <= U64_MAX
    modifies store
    ensures !HasToken(req) ==> r == Err(MissingToken)
    ensures HasToken(req) && !HasProof(req) ==> r == Err(MissingProof)
    ensures HasToken(req) && HasProof(req) && req.uri.None? ==> r == Err(ProofHtuMismatch)
    ensures HasToken(req) && HasProof(req) && req.uri.Some? && ValidateToken(req, ctx).Err? ==>
              r == Err(ValidateToken(req, ctx).error)
    ensures Presentable(req, ctx) ==>
              var rules := ProofRules(req.presented, TargetOf(req), ValidateToken(req, ctx).value, ctx, now);
              forall i | FirstFails(rules, i) :: r == Err(rules[i].failure)
    ensures r.Err? ==> store.View() == old(store.View())
    ensures r.Ok? <==> && RequestMatches(req, ctx, now)
                       && InsertResult(old(store.View()), store.maxEntries, ProofKey(req.presented, ctx)) == Ok(())
    ensures r == Err(AuthFailure.MemoryPressure) <==>
              && RequestMatches(req, ctx, now)
              && ProofKey(req.presented, ctx) !in old(store.entries) && |old(store.entries)| >= store.maxEntries
    ensures r.Ok? ==>
              && r.value == ValidateToken(req, ctx).value.sub
              && ProofKey(req.presented, ctx) !in old(store.entries)
              && ProofKey(req.presented, ctx).audience == JtiKeyByte(ctx.tag)
              && store.entries.Keys == old(store.entries.Keys) + {ProofKey(req.presented, ctx)}
              && forall k | k in old(store.entries) :: store.entries[k] == old(store.entries)[k]
    ensures old(Settled(store.View())) ==> Settled(store.View())
    ensures Countable(req, ctx) ==>
              (r.Ok? <==> && (exists raw, token :: RequestInOrder(req, ctx, raw, token, now))
                          && ProofKey(req.presented, ctx) !in old(store.entries)
                          && |old(store.entries)| < store.maxEntries)
    ensures Countable(req, ctx) && r.Ok? ==>
              exists raw, token :: RequestInOrder(req, ctx, raw, token, now) && r.value == token.sub
    ensures r.Ok? ==>
              exists key :: IsKeyOf(key, req.presented, ctx) && store.entries.Keys == old(store.entries.Keys) + {key}
  {
    RawTokenIff(req);
    hide ProofMatches, ProofRules, ProofInOrder, FirstFails, Settled, ValidateToken, Trim, BearerToken;
    hide RequestInOrder, HasToken, Bears;
    if req.dpop.Some? {
      TrimmedAwayIff(req.dpop.value);
    }
    if Countable(req, ctx) {
      RequestMatchesIff(req, ctx, now);
    }
    if req.authorization.None? {
      return Err(MissingToken);
    }
    var rawToken := BearerToken(req.authorization.value);
    if rawToken.None? {
      return Err(MissingToken);
    }
    if req.dpop.None? || Trim(req.dpop.value) == "" {
      return Err(MissingProof);
    }
    if req.uri.None? {
      return Err(ProofHtuMismatch);
    }
    var token := ValidateToken(req, ctx);
    TokenNeverReportsPressure(req, ctx);
    if token.Err? {
      return Err(token.error);
    }
    var proof := ValidateProof(req.presented, TargetOf(req), token.value, ctx, store, now);
    if proof.Err? {
      return Err(proof.error);
    }
    return Ok(token.value.sub);
  }

  // ---- the guards ----

  datatype Response = PassedThrough | Forwarded(tag: Tag, sub: string) | Unauthorized401 | MemoryPressure503

  /** Both guards: verbs outside `verbs` are passed on untouched; otherwise the response
      says only whether the request was accepted, or failed for lack of memory. */
  method Guard(req: Request, verbs: set<string>, ctx: Context, store: JtiReplayStore, now: Instant)
    returns (resp: Response)
    requires store.maxEntries == ctx.params.maxEntries && ReplayRuns.Seconds(now) <= U64_MAX
    modifies store
    ensures resp == PassedThrough <==> req.verb !in verbs
    ensures !resp.Forwarded? ==> store.View() == old(store.View())
    ensures resp.Forwarded? <==>
              && req.verb in verbs && RequestMatches(req, ctx, now)
              && InsertResult(old(store.View()), store.maxEntries, ProofKey(req.presented, ctx)) == Ok(())
    ensures resp == MemoryPressure503 <==>
              && req.verb in verbs && RequestMatches(req, ctx, now)
              && InsertResult(old(store.View()), store.maxEntries, ProofKey(req.presented, ctx))
                 == Err(InsertError.MemoryPressure)
    ensures resp.Forwarded? ==>
              && resp.tag == ctx.tag && resp.sub == ValidateToken(req, ctx).value.sub
              && store.entries.Keys == old(store.entries.Keys) + {ProofKey(req.presented, ctx)}
              && ProofKey(req.presented, ctx) !in old(store.entries)
              && ProofKey(req.presented, ctx).audience == JtiKeyByte(ctx.tag)
    ensures old(Settled(store.View())) ==> Settled(store.View())
    ensures Countable(req, ctx) ==>
              (resp.Forwarded? <==> && req.verb in verbs
                                    && (exists raw, token :: RequestInOrder(req, ctx, raw, token, now))
                                    && ProofKey(req.presented, ctx) !in old(store.entries)
                                    && |old(store.entries)| < store.maxEntries)
    ensures Countable(req, ctx) && resp.Forwarded? ==>
              exists raw, token :: RequestInOrder(req, ctx, raw, token, now) && resp == Forwarded(ctx.tag, token.sub)
  {
    hide RequestMatches, RequestInOrder, Settled;
    if req.verb !in verbs {
      return PassedThrough;
    }
    var r := AuthenticateCommon(req, ctx, store, now);
    if r.Ok? {
      return Forwarded(ctx.tag, r.value);
    }
    if r.error.MemoryPressure? {
      return MemoryPressure503;
    }
    return Unauthorized401;
  }
}
