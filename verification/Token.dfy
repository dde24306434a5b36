/** Access-token validation (`server/src/auth/token.rs`). Signature verification is a
    parameter: what one candidate key makes of the token at hand. */
module Token {
  import opened Prelude
  import opened Failure
  import opened JwksIndex
  import Base64Url
  import Timing

  datatype Audience = Single(aud: string) | Multiple

  datatype Claims = Claims(
    sub: Option<string>,
    aud: Option<Audience>,
    iss: Option<string>,
    exp: Option<U64>,
    iat: Option<U64>,
    nbf: Option<U64>,
    cnf: Option<Option<string>>)

  datatype DecodeError =
    | ExpiredSignature | ImmatureSignature | InvalidIssuer | InvalidAudience
    | InvalidAlgorithm | InvalidAlgorithmName | InvalidKeyFormat | OtherError

  /** `DecodingKey::from_jwk` and `decode` on one candidate. */
  datatype Decode = KeyUnusable | Rejected(error: DecodeError) | Verified(claims: Claims)

  type Verifier = Jwk -> Decode

  function MapJwtError(error: Option<DecodeError>): AuthFailure {
    match error
    case None => TokenSignatureInvalid
    case Some(ExpiredSignature) => TokenExpired
    case Some(ImmatureSignature) => TokenNotYetValid
    case Some(InvalidIssuer) => TokenIssuerMismatch
    case Some(InvalidAudience) => TokenAudienceMismatch
    case Some(InvalidAlgorithm) => InvalidAlg
    case Some(InvalidAlgorithmName) => InvalidAlg
    case Some(InvalidKeyFormat) => InvalidAlg
    case Some(OtherError) => TokenSignatureInvalid
  }

  /** The verdict over candidates in order, `last` being the latest error so far. */
  function Scan(candidates: seq<Jwk>, verify: Verifier, last: Option<DecodeError>): Result<(Jwk, Claims), AuthFailure> {
    if candidates == [] then Err(MapJwtError(last))
    else
      match verify(candidates[0])
      case KeyUnusable => Scan(candidates[1..], verify, last)
      case Rejected(error) => Scan(candidates[1..], verify, Some(error))
      case Verified(claims) => Ok((candidates[0], claims))
  }

  /** One attempt against one key set. */
  function Attempt(jwks: Jwks, kid: Option<string>, verify: Verifier): Result<(Jwk, Claims), AuthFailure> {
    Scan(LookupCandidates(jwks, kid), verify, None)
  }

  /** `try_decode_with_current_jwks` on the set it has loaded. */
  method TryDecode(jwks: Jwks, kid: Option<string>, verify: Verifier) returns (r: Result<(Jwk, Claims), AuthFailure>)
    ensures r == Attempt(jwks, kid, verify)
  {
    var candidates := LookupCandidates(jwks, kid);
    if candidates == [] {
      return Err(TokenSignatureInvalid);
    }
    var last: Option<DecodeError> := None;
    var i := 0;
    while i < |candidates|
      invariant 0 <= i <= |candidates|
      invariant Attempt(jwks, kid, verify) == Scan(candidates[i..], verify, last)
    {
      var candidate := candidates[i];
      i := i + 1;
      match verify(candidate)
      case KeyUnusable =>
      case Rejected(error) => last := Some(error);
      case Verified(claims) => return Ok((candidate, claims));
    }
    return Err(MapJwtError(last));
  }

  /** The first candidate that verifies is the one accepted. */
  ghost predicate FirstVerified(candidates: seq<Jwk>, verify: Verifier, i: int) {
    0 <= i < |candidates| && verify(candidates[i]).Verified?
    && forall j | 0 <= j < i :: !verify(candidates[j]).Verified?
  }

  /** The error of the last candidate that had one decides a failure. */
  ghost predicate LastRejected(candidates: seq<Jwk>, verify: Verifier, i: int) {
    0 <= i < |candidates| && verify(candidates[i]).Rejected?
    && forall j | i < j < |candidates| :: !verify(candidates[j]).Rejected?
  }

  lemma {:induction false} ScanMeaning(candidates: seq<Jwk>, verify: Verifier, last: Option<DecodeError>)
    ensures Scan(candidates, verify, last).Ok? <==> exists i :: FirstVerified(candidates, verify, i)
    ensures forall i | FirstVerified(candidates, verify, i) ::
              Scan(candidates, verify, last) == Ok((candidates[i], verify(candidates[i]).claims))
    ensures Scan(candidates, verify, last).Err? ==>
              && (forall i | LastRejected(candidates, verify, i) ::
                    Scan(candidates, verify, last).error == MapJwtError(Some(verify(candidates[i]).error)))
              && ((forall i | 0 <= i < |candidates| :: verify(candidates[i]).KeyUnusable?) ==>
                    Scan(candidates, verify, last).error == MapJwtError(last))
  {
    if candidates != [] {
      var rest := candidates[1..];
      var next := match verify(candidates[0]) case Rejected(error) => Some(error) case _ => last;
      ScanMeaning(rest, verify, next);
      if verify(candidates[0]).Verified? {
        assert FirstVerified(candidates, verify, 0);
      } else {
        forall i ensures FirstVerified(candidates, verify, i) <==> FirstVerified(rest, verify, i - 1) {
          if FirstVerified(rest, verify, i - 1) {
            assert forall j | 0 < j < i :: candidates[j] == rest[j - 1];
          }
        }
        if i :| FirstVerified(rest, verify, i) {
          assert FirstVerified(candidates, verify, i + 1);
        }
        if i :| FirstVerified(candidates, verify, i) {
          assert FirstVerified(rest, verify, i - 1);
        }
        forall i | LastRejected(candidates, verify, i) && i > 0 ensures LastRejected(rest, verify, i - 1) {
        }
        if LastRejected(candidates, verify, 0) && !Scan(candidates, verify, last).Ok? {
          forall j | 0 <= j < |rest| ensures verify(rest[j]).KeyUnusable? {
            assert rest[j] == candidates[j + 1];
            NoneVerified(candidates, verify, last, j + 1);
          }
        }
      }
    }
  }

  /** What a failed attempt is reported as: by the error of the last candidate that had
      one, and as a bad signature when none had. */
  lemma FailureNames(candidates: seq<Jwk>, verify: Verifier, i: int)
    requires Scan(candidates, verify, None).Err?
    ensures (forall k | k in candidates :: verify(k).KeyUnusable?) ==>
              Scan(candidates, verify, None) == Err(TokenSignatureInvalid)
    ensures LastRejected(candidates, verify, i) ==>
              var failure, error := Scan(candidates, verify, None).error, verify(candidates[i]).error;
              && (failure == TokenExpired <==> error == ExpiredSignature)
              && (failure == TokenNotYetValid <==> error == ImmatureSignature)
              && (failure == TokenIssuerMismatch <==> error == InvalidIssuer)
              && (failure == TokenAudienceMismatch <==> error == InvalidAudience)
              && (failure == InvalidAlg <==> error in {InvalidAlgorithm, InvalidAlgorithmName, InvalidKeyFormat})
              && (failure == TokenSignatureInvalid <==> error == OtherError)
  {
    ScanMeaning(candidates, verify, None);
    hide Scan;
  }

  lemma {:induction false} NoneVerified(candidates: seq<Jwk>, verify: Verifier, last: Option<DecodeError>, i: nat)
    requires Scan(candidates, verify, last).Err? && i < |candidates|
    ensures !verify(candidates[i]).Verified?
  {
    if i > 0 {
      var next := match verify(candidates[0]) case Rejected(error) => Some(error) case _ => last;
      NoneVerified(candidates[1..], verify, next, i - 1);
    }
  }

  // ---- claims ----

  datatype AccessToken = AccessToken(sub: string, aud: string, iss: string, exp: U64, iat: U64,
                                     nbf: Option<U64>, jkt: Bytes)

  /** What a context expects of a token; `issuer` has its trailing slashes removed. */
  datatype Expectation = Expectation(issuer: string, audience: string, skew: U64)

  /** The checks after signature verification, in the order of the source. */
  function CheckClaims(c: Claims, want: Expectation, now: U64): Result<AccessToken, AuthFailure> {
    if c.sub.None? then Err(TokenMissingClaim("sub"))
    else if c.iss.None? then Err(TokenMissingClaim("iss"))
    else if c.iat.None? then Err(TokenMissingClaim("iat"))
    else if c.exp.None? then Err(TokenMissingClaim("exp"))
    else if c.aud.None? then Err(TokenMissingClaim("aud"))
    else if c.aud.value.Multiple? then Err(TokenAudienceMismatch)
    else if c.cnf.None? then Err(TokenMissingClaim("cnf"))
    else if c.cnf.value.None? then Err(TokenMissingClaim("cnf.jkt"))
    else if c.iss.value != want.issuer then Err(TokenIssuerMismatch)
    else if c.aud.value.aud != want.audience then Err(TokenAudienceMismatch)
    else if Timing.Expired(c.exp.value, now, want.skew) then Err(TokenExpired)
    else if c.nbf.Some? && Timing.NotYetValid(c.nbf.value, now, want.skew) then Err(TokenNotYetValid)
    else
      var jkt := Base64Url.Decode(c.cnf.value.value);
      if jkt.None? || |jkt.value| != 32 then Err(TokenMissingClaim("cnf.jkt"))
      else Ok(AccessToken(c.sub.value, c.aud.value.aud, c.iss.value, c.exp.value, c.iat.value, c.nbf, jkt.value))
  }

  /** Complete claims for this issuer and this single audience, within their lifetime on
      unbounded integers, that confirm a key by the base64url text of 32 bytes. */
  ghost predicate Vouches(c: Claims, want: Expectation, now: U64, token: AccessToken) {
    && c.sub == Some(token.sub) && c.iat == Some(token.iat)
    && c.iss == Some(want.issuer) && token.iss == want.issuer
    && c.aud == Some(Single(want.audience)) && token.aud == want.audience
    && c.exp == Some(token.exp) && now < token.exp + want.skew
    && c.nbf == token.nbf && (token.nbf.Some? ==> token.nbf.value <= now + want.skew)
    && c.cnf == Some(Some(Base64Url.Encode(token.jkt))) && |token.jkt| == 32
  }

  /** Below the last representable second, the accepted claims are exactly these. */
  lemma CheckClaimsIff(c: Claims, want: Expectation, now: U64, token: AccessToken)
    requires now < U64_MAX
    ensures CheckClaims(c, want, now) == Ok(token) <==> Vouches(c, want, now, token)
  {
    hide CheckClaims, Vouches;
    if CheckClaims(c, want, now) == Ok(token) {
      AcceptedClaims(c, want, now, token);
    }
    if Vouches(c, want, now, token) {
      ClaimsAccepted(c, want, now, token);
    }
  }

  lemma Lifetime(exp: U64, nbf: Option<U64>, skew: U64, now: U64)
    requires now < U64_MAX
    ensures Timing.Expired(exp, now, skew) <==> exp + skew <= now
    ensures nbf.Some? ==> (Timing.NotYetValid(nbf.value, now, skew) <==> nbf.value > now + skew)
  {
    Timing.ExpiredIsExactIff(exp, now, skew);
    if nbf.Some? {
      Timing.NotYetValidIsExact(nbf.value, now, skew);
    }
  }

  lemma AcceptedClaims(c: Claims, want: Expectation, now: U64, token: AccessToken)
    requires now < U64_MAX && CheckClaims(c, want, now) == Ok(token)
    ensures Vouches(c, want, now, token)
  {
    hide Base64Url.Encode, Base64Url.Decode, Timing.Expired, Timing.NotYetValid;
    Lifetime(token.exp, token.nbf, want.skew, now);
    Base64Url.DecodeIffEncode(c.cnf.value.value, token.jkt);
  }

  lemma ClaimsAccepted(c: Claims, want: Expectation, now: U64, token: AccessToken)
    requires now < U64_MAX && Vouches(c, want, now, token)
    ensures CheckClaims(c, want, now) == Ok(token)
  {
    hide Base64Url.Encode, Base64Url.Decode, Timing.Expired, Timing.NotYetValid;
    Lifetime(token.exp, token.nbf, want.skew, now);
    Base64Url.DecodeIffEncode(Base64Url.Encode(token.jkt), token.jkt);
  }

  /** Which rejections mean what: a missing claim is reported before any mismatch, except
      that an audience list is a mismatch before a confirmation claim is looked for; then
      the issuer, the audience, the expiry and the not-before time are compared in turn. */
  lemma RejectionsIff(c: Claims, want: Expectation, now: U64)
    requires now < U64_MAX
    ensures
      var r := CheckClaims(c, want, now);
      var named := c.sub.Some? && c.iss.Some? && c.iat.Some? && c.exp.Some? && c.aud.Some?;
      var complete := named && c.aud.value.Single? && c.cnf.Some? && c.cnf.value.Some?;
      var ours := complete && c.iss == Some(want.issuer) && c.aud == Some(Single(want.audience));
      && (r == Err(TokenIssuerMismatch) <==> complete && c.iss != Some(want.issuer))
      && (r == Err(TokenAudienceMismatch) <==>
            (named && c.aud.value.Multiple?)
            || (complete && c.iss == Some(want.issuer) && c.aud != Some(Single(want.audience))))
      && (r == Err(TokenExpired) <==> ours && c.exp.value + want.skew <= now)
      && (r == Err(TokenNotYetValid) <==>
            ours && now < c.exp.value + want.skew && c.nbf.Some? && c.nbf.value > now + want.skew)
      && (r.Err? && !r.error.TokenMissingClaim? ==>
            r.error in {TokenIssuerMismatch, TokenAudienceMismatch, TokenExpired, TokenNotYetValid})
  {
    hide Base64Url.Encode, Base64Url.Decode, Timing.Expired, Timing.NotYetValid;
    if c.exp.Some? {
      Lifetime(c.exp.value, c.nbf, want.skew, now);
    }
  }
}
