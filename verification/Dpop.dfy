/** DPoP proof validation (`server/src/auth/dpop.rs`). JOSE decoding, signature
    verification and URL parsing are parameters of a presented proof. */
module Dpop {
  import opened Prelude
  import opened Crypto
  import opened Failure
  import opened Contexts
  import opened Replay
  import opened JwksIndex
  import Base64Url
  import ReplayRuns
  import Timing
  import Token

  datatype Url = Url(
    scheme: string,
    host: Option<string>,
    port: Option<nat>,
    path: string,
    query: Option<string>,
    username: string,
    password: Option<string>)

  /** The `alg` of a JOSE header, of which two values are allowed. */
  datatype HeaderAlg = Allowed(alg: JwsAlg) | Disallowed

  datatype Header = Header(alg: HeaderAlg, typ: Option<string>, jwk: Option<KeyParams>)

  datatype DpopClaims = DpopClaims(
    htm: Option<string>,
    htu: Option<string>,
    iat: Option<U64>,
    jti: Option<string>,
    ath: Option<string>)

  /** What decoding makes of the `DPoP` header value: the JOSE header, if any; the
      claims, if the signature verifies under the embedded key; and the parse of `htu`. */
  datatype Presented = Presented(header: Option<Header>, verified: Option<DpopClaims>, htuUrl: Option<Url>)

  /** The parts of an `OidcContext` that validation reads. */
  datatype Context = Context(tag: Tag, want: Token.Expectation, params: ReplayRuns.Params)

  /** The request as the proof must describe it. */
  datatype Target = Target(verb: string, uri: Url, rawToken: string)

  datatype DpopProof = DpopProof(alg: JwsAlg, htm: string, htu: string, iat: U64, jti: string,
                                 thumbprint: Digest, ath: string)

  predicate UrlsEquivalent(a: Url, b: Url) {
    && a.scheme == b.scheme && a.host == b.host && a.port == b.port && a.path == b.path && a.query == b.query
    && a.username == "" && a.password == None && b.username == "" && b.password == None
  }

  function ComputeAth(sha256: Hash, rawToken: string): string {
    Base64Url.Encode(sha256(rawToken))
  }

  function ProofThumbprint(sha256: Hash, jwk: KeyParams): (r: Result<Digest, AuthFailure>)
    ensures r.Err? ==> r.error == ProofSignatureInvalid
  {
    match ComputeThumbprint(sha256, RawJwk(None, None, jwk))
    case Good(digest) => Ok(digest)
    case _ => Err(ProofSignatureInvalid)
  }

  const NO_HEADER: Header := Header(Disallowed, None, None)

  const NO_CLAIMS: DpopClaims := DpopClaims(None, None, None, None, None)

  /** What a proof must satisfy before the replay store is asked, first things first,
      and what a violation is called. */
  function ProofRule(proof: Presented, target: Target, token: Token.AccessToken, ctx: Context,
                     now: Instant, i: nat): Rule
    requires ReplayRuns.Seconds(now) <= U64_MAX && i < 15
  {
    var header := proof.header.GetOr(NO_HEADER);
    var claims := proof.verified.GetOr(NO_CLAIMS);
    var thumbprint :=
      if header.jwk.Some? then ProofThumbprint(ctx.params.sha256, header.jwk.value) else Err(ProofSignatureInvalid);
    match i
    case 0 => Rule(header.alg.Allowed?, InvalidAlg)
    case 1 => Rule(header.typ == Some("dpop+jwt"), ProofSignatureInvalid)
    case 2 => Rule(header.jwk.Some? && proof.verified.Some?, ProofSignatureInvalid)
    case 3 => Rule(claims.htm.Some?, ProofMissingClaim("htm"))
    case 4 => Rule(claims.htm == Some(target.verb), ProofHtmMismatch)
    case 5 => Rule(claims.htu.Some?, ProofMissingClaim("htu"))
    case 6 => Rule(proof.htuUrl.Some? && UrlsEquivalent(proof.htuUrl.value, target.uri), ProofHtuMismatch)
    case 7 => Rule(claims.iat.Some?, ProofMissingClaim("iat"))
    case 8 =>
      Rule(Timing.Fresh(claims.iat.GetOr(0), ReplayRuns.Seconds(now), ctx.params.freshness, ctx.params.skew),
           ProofIatStale)
    case 9 => Rule(thumbprint.Ok?, ProofSignatureInvalid)
    case 10 => Rule(thumbprint == Ok(token.jkt), ProofJktMismatch)
    case 11 => Rule(claims.ath.Some?, ProofMissingClaim("ath"))
    case 12 => Rule(claims.ath == Some(ComputeAth(ctx.params.sha256, target.rawToken)), ProofAthMismatch)
    case 13 => Rule(claims.jti.Some?, ProofMissingClaim("jti"))
    case _ => Rule(ReplayRuns.Deadline(ctx.params, now).Some?, ProofIatStale)
  }

  function ProofRules(proof: Presented, target: Target, token: Token.AccessToken, ctx: Context, now: Instant):
    (rules: seq<Rule>)
    requires ReplayRuns.Seconds(now) <= U64_MAX
    ensures |rules| == 15 && forall i | 0 <= i < 15 :: rules[i] == ProofRule(proof, target, token, ctx, now, i)
  {
    seq(15, i requires 0 <= i < 15 => ProofRule(proof, target, token, ctx, now, i))
  }

  ghost predicate ProofMatches(proof: Presented, target: Target, token: Token.AccessToken, ctx: Context, now: Instant)
    requires ReplayRuns.Seconds(now) <= U64_MAX
  {
    AllHold(ProofRules(proof, target, token, ctx, now))
  }

  /** What `ProofMatches` says of the values the store is then asked with. */
  lemma MatchingProof(proof: Presented, target: Target, token: Token.AccessToken, ctx: Context, now: Instant)
    requires ReplayRuns.Seconds(now) <= U64_MAX && ProofMatches(proof, target, token, ctx, now)
    ensures proof.verified.Some? && proof.verified.value.jti.Some? && proof.verified.value.iat.Some?
    ensures ReplayRuns.Deadline(ctx.params, now).Some?
    ensures Timing.Fresh(proof.verified.value.iat.value, ReplayRuns.Seconds(now), ctx.params.freshness, ctx.params.skew)
  {
    hide ProofRules;
    var rules := ProofRules(proof, target, token, ctx, now);
    assert rules[2].holds && rules[7].holds && rules[8].holds && rules[13].holds && rules[14].holds;
  }

  /** Same scheme, host, port, path and query, and neither names a user. */
  predicate SameResource(a: Url, b: Url) {
    && Url(a.scheme, a.host, a.port, a.path, a.query, "", None) == a
    && b == a
  }

  /** What an accepted proof is: made with an allowed algorithm by the key that the token
      confirms, for this verb, this resource and this token, within the freshness window
      on unbounded integers. */
  ghost predicate ProofInOrder(proof: Presented, target: Target, token: Token.AccessToken, ctx: Context, now: Instant) {
    && proof.header.Some? && proof.verified.Some? && proof.htuUrl.Some?
    && var (header, claims) := (proof.header.value, proof.verified.value);
    && header.alg.Allowed? && header.typ == Some("dpop+jwt")
    && header.jwk.Some? && IsThumbprint(ctx.params.sha256, header.jwk.value, token.jkt)
    && claims.htm == Some(target.verb)
    && claims.htu.Some? && SameResource(proof.htuUrl.value, target.uri)
    && claims.iat.Some?
    && Timing.FreshMeaning(claims.iat.value, ReplayRuns.Seconds(now), ctx.params.freshness, ctx.params.skew)
    && claims.ath.Some? && Base64Url.Decode(claims.ath.value) == Some(ctx.params.sha256(target.rawToken))
    && claims.jti.Some?
    && now + ctx.params.window * ReplayRuns.TICKS_PER_SECOND <= ReplayRuns.MAX_INSTANT
  }

  lemma ThumbprintMatches(sha256: Hash, jwk: KeyParams, tp: Digest)
    ensures ProofThumbprint(sha256, jwk) == Ok(tp) <==> IsThumbprint(sha256, jwk, tp)
  {
    ThumbprintIff(sha256, RawJwk(None, None, jwk), tp);
    hide ComputeThumbprint, IsThumbprint;
  }

  lemma UrlsEquivalentIff(a: Url, b: Url)
    ensures UrlsEquivalent(a, b) <==> SameResource(a, b)
  {
  }

  /** Every rule holds exactly of the proofs that are in order. */
  lemma ProofMatchesIff(proof: Presented, target: Target, token: Token.AccessToken, ctx: Context, now: Instant)
    requires ReplayRuns.Seconds(now) <= U64_MAX && ctx.params.freshness + ctx.params.skew <= U64_MAX
    ensures ProofMatches(proof, target, token, ctx, now) <==> ProofInOrder(proof, target, token, ctx, now)
  {
    if ProofMatches(proof, target, token, ctx, now) {
      MatchesInOrder(proof, target, token, ctx, now);
    }
    if ProofInOrder(proof, target, token, ctx, now) {
      InOrderMatches(proof, target, token, ctx, now);
    }
  }

  lemma MatchesInOrder(proof: Presented, target: Target, token: Token.AccessToken, ctx: Context, now: Instant)
    requires ReplayRuns.Seconds(now) <= U64_MAX && ctx.params.freshness + ctx.params.skew <= U64_MAX
    requires ProofMatches(proof, target, token, ctx, now)
    ensures ProofInOrder(proof, target, token, ctx, now)
  {
    hide ProofRules, ComputeAth, UrlsEquivalent, SameResource, ProofThumbprint, IsThumbprint;
    hide Timing.Fresh, Timing.FreshMeaning, Base64Url.Decode;
    var rules := ProofRules(proof, target, token, ctx, now);
    assert rules[0].holds && rules[1].holds && rules[2].holds && rules[4].holds && rules[5].holds && rules[6].holds;
    assert rules[7].holds && rules[8].holds && rules[10].holds && rules[12].holds && rules[13].holds && rules[14].holds;
    var claims := proof.verified.value;
    ThumbprintMatches(ctx.params.sha256, proof.header.value.jwk.value, token.jkt);
    UrlsEquivalentIff(proof.htuUrl.value, target.uri);
    FreshMeans(claims.iat.value, now, ctx);
    AthMeans(claims.ath.value, target.rawToken, ctx.params.sha256);
  }

  lemma InOrderMatches(proof: Presented, target: Target, token: Token.AccessToken, ctx: Context, now: Instant)
    requires ReplayRuns.Seconds(now) <= U64_MAX && ctx.params.freshness + ctx.params.skew <= U64_MAX
    requires ProofInOrder(proof, target, token, ctx, now)
    ensures ProofMatches(proof, target, token, ctx, now)
  {
    hide ProofRules, ComputeAth, UrlsEquivalent, SameResource, ProofThumbprint, IsThumbprint;
    hide Timing.Fresh, Timing.FreshMeaning, Base64Url.Decode;
    var claims := proof.verified.value;
    ThumbprintMatches(ctx.params.sha256, proof.header.value.jwk.value, token.jkt);
    UrlsEquivalentIff(proof.htuUrl.value, target.uri);
    FreshMeans(claims.iat.value, now, ctx);
    AthMeans(claims.ath.value, target.rawToken, ctx.params.sha256);
  }

  lemma FreshMeans(iat: U64, now: Instant, ctx: Context)
    requires ReplayRuns.Seconds(now) <= U64_MAX && ctx.params.freshness + ctx.params.skew <= U64_MAX
    ensures Timing.Fresh(iat, ReplayRuns.Seconds(now), ctx.params.freshness, ctx.params.skew) ==
            Timing.FreshMeaning(iat, ReplayRuns.Seconds(now), ctx.params.freshness, ctx.params.skew)
  {
    Timing.FreshIsExactIff(ctx.params.freshness, ctx.params.skew);
  }

  lemma AthMeans(ath: string, rawToken: string, sha256: Hash)
    ensures ath == ComputeAth(sha256, rawToken) <==> Base64Url.Decode(ath) == Some(sha256(rawToken))
  {
    Base64Url.DecodeIffEncode(ath, sha256(rawToken));
  }

  /** The key a proof is remembered by. */
  function ProofKey(proof: Presented, ctx: Context): JtiKey {
    MakeKey(ctx.params.sha256, JtiKeyByte(ctx.tag), proof.verified.GetOr(NO_CLAIMS).jti.GetOr(""))
  }

  /** The freshness arithmetic is exact, as it is for every loaded configuration. */
  predicate Exact(ctx: Context) { ctx.params.freshness + ctx.params.skew <= U64_MAX }

  /** The audience's byte and the hash of the proof's `jti`. */
  predicate IsKeyOf(key: JtiKey, proof: Presented, ctx: Context) {
    && proof.verified.Some? && proof.verified.value.jti.Some?
    && key == JtiKey(if ctx.tag == Vault then 1 else 2, ctx.params.sha256(proof.verified.value.jti.value))
  }

  /** `validate_proof` up to the replay store: a validated proof and its deadline. */
  method CheckProof(proof: Presented, target: Target, token: Token.AccessToken, ctx: Context, now: Instant)
    returns (r: Result<(DpopProof, Instant), AuthFailure>)
    requires ReplayRuns.Seconds(now) <= U64_MAX
    ensures r.Ok? <==> ProofMatches(proof, target, token, ctx, now)
    ensures forall i | FirstFails(ProofRules(proof, target, token, ctx, now), i) ::
              r == Err(ProofRules(proof, target, token, ctx, now)[i].failure)
    ensures r.Ok? ==> && proof.verified.Some? && proof.verified.value.jti == Some(r.value.0.jti)
                      && ReplayRuns.Deadline(ctx.params, now) == Some(r.value.1)
    ensures r.Err? ==> !r.error.ProofReplayed? && !r.error.MemoryPressure?
    ensures r.Ok? ==>
              var p := r.value.0;
              && proof.header.Some? && proof.header.value.alg == HeaderAlg.Allowed(p.alg)
              && proof.verified == Some(DpopClaims(Some(p.htm), Some(p.htu), Some(p.iat), Some(p.jti), Some(p.ath)))
              && p.thumbprint == token.jkt
  {
    ghost var rules := ProofRules(proof, target, token, ctx, now);
    assert Passed(rules, 0);
    Examine(rules, 0);
    hide UrlsEquivalent, ComputeAth, Timing.Fresh, ProofThumbprint, ReplayRuns.Deadline;
    hide ProofRules, AllHold, FirstFails, Passed;
    if proof.header.None? {
      return Err(InvalidAlg);
    }
    var header := proof.header.value;
    if header.alg.Disallowed? {
      return Err(InvalidAlg);
    }
    Examine(rules, 1);
    if header.typ != Some("dpop+jwt") {
      return Err(ProofSignatureInvalid);
    }
    Examine(rules, 2);
    if header.jwk.None? || proof.verified.None? {
      return Err(ProofSignatureInvalid);
    }
    var claims := proof.verified.value;
    Examine(rules, 3);
    if claims.htm.None? {
      return Err(ProofMissingClaim("htm"));
    }
    Examine(rules, 4);
    if claims.htm.value != target.verb {
      return Err(ProofHtmMismatch);
    }
    Examine(rules, 5);
    if claims.htu.None? {
      return Err(ProofMissingClaim("htu"));
    }
    Examine(rules, 6);
    if proof.htuUrl.None? || !UrlsEquivalent(proof.htuUrl.value, target.uri) {
      return Err(ProofHtuMismatch);
    }
    Examine(rules, 7);
    if claims.iat.None? {
      return Err(ProofMissingClaim("iat"));
    }
    Examine(rules, 8);
    if !Timing.Fresh(claims.iat.value, ReplayRuns.Seconds(now), ctx.params.freshness, ctx.params.skew) {
      return Err(ProofIatStale);
    }
    var thumbprint := ProofThumbprint(ctx.params.sha256, header.jwk.value);
    Examine(rules, 9);
    if thumbprint.Err? {
      return Err(thumbprint.error);
    }
    Examine(rules, 10);
    if thumbprint.value != token.jkt {
      return Err(ProofJktMismatch);
    }
    Examine(rules, 11);
    if claims.ath.None? {
      return Err(ProofMissingClaim("ath"));
    }
    var expected := ComputeAth(ctx.params.sha256, target.rawToken);
    Examine(rules, 12);
    if claims.ath.value != expected {
      return Err(ProofAthMismatch);
    }
    Examine(rules, 13);
    if claims.jti.None? {
      return Err(ProofMissingClaim("jti"));
    }
    var deadline := ReplayRuns.Deadline(ctx.params, now);
    Examine(rules, 14);
    if deadline.None? {
      return Err(ProofIatStale);
    }
    return Ok((
      DpopProof(header.alg.alg, claims.htm.value, claims.htu.value, claims.iat.value,
                claims.jti.value, thumbprint.value, expected),
      deadline.value));
  }

  /** `validate_proof`: the first check to fail is the one reported, and the store is
      asked only when all hold; it alone decides between acceptance, a replay and memory
      pressure, and is left as it was by every rejection. */
  method ValidateProof(proof: Presented, target: Target, token: Token.AccessToken, ctx: Context,
                       store: JtiReplayStore, now: Instant)
    returns (r: Result<DpopProof, AuthFailure>)
    requires store.maxEntries == ctx.params.maxEntries && ReplayRuns.Seconds(now) <= U64_MAX
    modifies store
    ensures forall i | FirstFails(ProofRules(proof, target, token, ctx, now), i) ::
              r == Err(ProofRules(proof, target, token, ctx, now)[i].failure)
    ensures r.Ok? <==> && ProofMatches(proof, target, token, ctx, now)
                       && InsertResult(old(store.View()), store.maxEntries, ProofKey(proof, ctx)) == Ok(())
    ensures r == Err(ProofReplayed) <==>
              ProofMatches(proof, target, token, ctx, now) && ProofKey(proof, ctx) in old(store.entries)
    ensures r == Err(AuthFailure.MemoryPressure) <==>
              && ProofMatches(proof, target, token, ctx, now)
              && ProofKey(proof, ctx) !in old(store.entries) && |old(store.entries)| >= store.maxEntries
    ensures r.Err? ==> store.View() == old(store.View())
    ensures r.Ok? ==>
              var key := ProofKey(proof, ctx);
              && key !in old(store.entries) && key in store.entries
              && ReplayRuns.Deadline(ctx.params, now) == Some(store.entries[key])
              && store.entries == old(store.entries)[key := store.entries[key]]
    ensures old(Settled(store.View())) ==> Settled(store.View())
    ensures Exact(ctx) ==>
              (r.Ok? <==> && ProofInOrder(proof, target, token, ctx, now)
                          && ProofKey(proof, ctx) !in old(store.entries) && |old(store.entries)| < store.maxEntries)
    ensures r == Err(ProofReplayed) ==> exists key :: key in old(store.entries) && IsKeyOf(key, proof, ctx)
    ensures r.Ok? ==> exists key :: IsKeyOf(key, proof, ctx) && store.entries.Keys == old(store.entries.Keys) + {key}
  {
    hide ProofMatches, ProofRules, ProofInOrder, FirstFails, Settled;
    if Exact(ctx) {
      ProofMatchesIff(proof, target, token, ctx, now);
    }
    var checked := CheckProof(proof, target, token, ctx, now);
    if checked.Err? {
      return Err(checked.error);
    }
    var (validated, deadline) := checked.value;
    assert IsKeyOf(ProofKey(proof, ctx), proof, ctx);
    var inserted := store.TryInsert(MakeKey(ctx.params.sha256, JtiKeyByte(ctx.tag), validated.jti), deadline);
    if inserted.Err? {
      return Err(if inserted.error.Replayed? then ProofReplayed else AuthFailure.MemoryPressure);
    }
    return Ok(validated);
  }

  /** The clock part of the checks and the store's answer are what the interleaved
      model of the store judges a submission by. */
  lemma JudgedAlike(proof: Presented, target: Target, token: Token.AccessToken, ctx: Context, st: Store, now: Instant)
    requires ReplayRuns.Seconds(now) <= U64_MAX && ProofMatches(proof, target, token, ctx, now)
    ensures proof.verified.Some? && proof.verified.value.jti.Some? && proof.verified.value.iat.Some?
    ensures
      var submitted :=
        ReplayRuns.Proof(JtiKeyByte(ctx.tag), proof.verified.value.jti.value, proof.verified.value.iat.value);
      && ReplayRuns.KeyOf(ctx.params, submitted) == ProofKey(proof, ctx)
      && (ReplayRuns.Judge(ctx.params, st, now, submitted) == ReplayRuns.Accept <==>
            InsertResult(st, ctx.params.maxEntries, ProofKey(proof, ctx)) == Ok(()))
  {
    MatchingProof(proof, target, token, ctx, now);
    hide ProofMatches;
  }

  /** Two proofs share a key exactly when they are of one context and their `jti`s hash alike. */
  lemma SharedKeyIff(a: Presented, ctxA: Context, keyA: JtiKey, b: Presented, ctxB: Context, keyB: JtiKey)
    requires IsKeyOf(keyA, a, ctxA) && IsKeyOf(keyB, b, ctxB) && ctxA.params.sha256 == ctxB.params.sha256
    ensures keyA == ProofKey(a, ctxA) && keyB == ProofKey(b, ctxB)
    ensures keyA == keyB <==>
            && ctxA.tag == ctxB.tag
            && ctxA.params.sha256(a.verified.value.jti.value) == ctxA.params.sha256(b.verified.value.jti.value)
  {
  }

  /** So remembering one proof never makes another, with a `jti` that hashes otherwise or of
      the other context, look like a replay. */
  lemma OthersAreNotReplays(a: Presented, ctxA: Context, b: Presented, ctxB: Context, st: Store, deadline: Instant)
    requires IsKeyOf(ProofKey(a, ctxA), a, ctxA) && IsKeyOf(ProofKey(b, ctxB), b, ctxB)
    requires ctxA.params.sha256 == ctxB.params.sha256 && ProofKey(b, ctxB) !in st.entries
    requires ctxA.tag != ctxB.tag
          || ctxA.params.sha256(a.verified.value.jti.value) != ctxB.params.sha256(b.verified.value.jti.value)
    ensures
      var after := AfterPush(AfterInsert(st, ctxA.params.maxEntries, Entry(deadline, ProofKey(a, ctxA))),
                             Entry(deadline, ProofKey(a, ctxA)));
      InsertResult(after, ctxB.params.maxEntries, ProofKey(b, ctxB)) != Err(Replayed)
  {
    SharedKeyIff(a, ctxA, ProofKey(a, ctxA), b, ctxB, ProofKey(b, ctxB));
  }
}
