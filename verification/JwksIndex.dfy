/** Parsing and indexing of a JWK set and the disjointness check
    (`server/src/auth/jwks.rs`, `server/src/auth/context.rs`). */
module JwksIndex {
  import opened Prelude
  import opened Crypto
  import Base64Url

  datatype KeyAlgorithm = PS256 | ES256 | RS256 | HS256 | EdDSA | OtherAlgorithm

  datatype JwsAlg = Ps256 | Es256

  datatype Curve = P256 | OtherCurve

  /** Members as they stand in the document, still base64url-encoded. */
  datatype KeyParams = Rsa(n: string, e: string) | Ec(curve: Curve, x: string, y: string) | OctetKey | OctetKeyPair

  datatype RawJwk = RawJwk(alg: Option<KeyAlgorithm>, kid: Option<string>, params: KeyParams)

  datatype Jwk = Jwk(kid: Option<string>, alg: JwsAlg, thumbprint: Digest, raw: RawJwk)

  datatype Jwks = Jwks(byKid: map<string, Jwk>, byThumbprint: map<Digest, Jwk>, keyless: seq<Jwk>)

  datatype ParseError = Empty | UnsupportedCurve | InvalidEcCoordinate | Base64Decode

  /** `Panics` stands for the `unreachable!` that the source expects never to run. */
  datatype Outcome<T> = Good(value: T) | Bad(error: ParseError) | Panics

  function FromKeyAlgorithm(alg: Option<KeyAlgorithm>): Option<JwsAlg> {
    match alg
    case Some(PS256) => Some(Ps256)
    case Some(ES256) => Some(Es256)
    case _ => None
  }

  function ComputeThumbprint(sha256: Hash, raw: RawJwk): Outcome<Digest> {
    match raw.params
    case Ec(curve, x64, y64) =>
      if curve != P256 then Bad(UnsupportedCurve)
      else
        var x, y := Base64Url.Decode(x64), Base64Url.Decode(y64);
        if x.None? || y.None? then Bad(Base64Decode)
        else if |x.value| != 32 || |y.value| != 32 then Bad(InvalidEcCoordinate)
        else Good(JwkThumbprint(sha256, EcP256(x.value, y.value)))
    case Rsa(n64, e64) =>
      var n, e := Base64Url.Decode(n64), Base64Url.Decode(e64);
      if n.None? || e.None? then Bad(Base64Decode)
      else Good(JwkThumbprint(sha256, ThumbprintInput.Rsa(n.value, e.value)))
    case OctetKey => Panics
    case OctetKeyPair => Panics
  }

  /** What a thumbprint is, by the decoded members: the hash of the canonical text of an RSA
      modulus and exponent, or of two coordinates of 32 bytes on P-256. */
  ghost predicate IsThumbprint(sha256: Hash, params: KeyParams, tp: Digest) {
    match params
    case Rsa(n64, e64) =>
      exists n, e :: Base64Url.Encode(n) == n64 && Base64Url.Encode(e) == e64
                     && tp == sha256(CanonicalJson(ThumbprintInput.Rsa(n, e)))
    case Ec(curve, x64, y64) =>
      && curve == P256
      && exists x, y :: Base64Url.Encode(x) == x64 && Base64Url.Encode(y) == y64 && |x| == 32 && |y| == 32
                        && tp == sha256(CanonicalJson(EcP256(x, y)))
    case _ => false
  }

  lemma ThumbprintIff(sha256: Hash, raw: RawJwk, tp: Digest)
    ensures ComputeThumbprint(sha256, raw) == Good(tp) <==> IsThumbprint(sha256, raw.params, tp)
  {
    hide Base64Url.Encode, Base64Url.Decode, CanonicalJson;
    match raw.params
    case Rsa(n64, e64) => DecodesTo(n64, e64);
    case Ec(_, x64, y64) => DecodesTo(x64, y64);
    case _ =>
  }

  lemma DecodesTo(a64: string, b64: string)
    ensures forall a, b :: Base64Url.Encode(a) == a64 && Base64Url.Encode(b) == b64 <==>
                           Base64Url.Decode(a64) == Some(a) && Base64Url.Decode(b64) == Some(b)
  {
    hide Base64Url.Encode, Base64Url.Decode;
    forall a, b
      ensures Base64Url.Encode(a) == a64 && Base64Url.Encode(b) == b64 <==>
              Base64Url.Decode(a64) == Some(a) && Base64Url.Decode(b64) == Some(b)
    {
      Base64Url.DecodeIffEncode(a64, a);
      Base64Url.DecodeIffEncode(b64, b);
    }
  }

  // ---- parsing ----

  predicate Allowed(raw: RawJwk) { raw.alg == Some(PS256) || raw.alg == Some(ES256) }

  /** An allowed key that can be indexed. */
  predicate Usable(sha256: Hash, raw: RawJwk) { Allowed(raw) && ComputeThumbprint(sha256, raw).Good? }

  function Entry(sha256: Hash, raw: RawJwk): Jwk
    requires Usable(sha256, raw)
  {
    Jwk(raw.kid, if raw.alg == Some(PS256) then Ps256 else Es256, ComputeThumbprint(sha256, raw).value, raw)
  }

  /** The usable keys of a document, in its order. */
  function Accepted(sha256: Hash, keys: seq<RawJwk>): seq<Jwk> {
    if keys == [] then []
    else
      var last := keys[|keys| - 1];
      Accepted(sha256, keys[..|keys| - 1]) + if Usable(sha256, last) then [Entry(sha256, last)] else []
  }

  const NO_KEYS: Jwks := Jwks(map[], map[], [])

  function Insert(jwks: Jwks, k: Jwk): Jwks {
    var byThumbprint := jwks.byThumbprint[k.thumbprint := k];
    match k.kid
    case Some(kid) => Jwks(jwks.byKid[kid := k], byThumbprint, jwks.keyless)
    case None => Jwks(jwks.byKid, byThumbprint, jwks.keyless + [k])
  }

  function Index(entries: seq<Jwk>): Jwks {
    if entries == [] then NO_KEYS
    else Insert(Index(entries[..|entries| - 1]), entries[|entries| - 1])
  }

  /** The first allowed key without a thumbprint decides; otherwise the index of the
      accepted keys, if there are any. */
  function ParseJwksSpec(sha256: Hash, keys: seq<RawJwk>): Outcome<Jwks> {
    match FirstFailure(sha256, keys)
    case Some(i) =>
      (match ComputeThumbprint(sha256, keys[i])
       case Bad(error) => Bad(error)
       case _ => Panics)
    case None =>
      if Accepted(sha256, keys) == [] then Bad(Empty) else Good(Index(Accepted(sha256, keys)))
  }

  function FirstFailure(sha256: Hash, keys: seq<RawJwk>): (i: Option<nat>)
    ensures i.Some? ==> i.value < |keys| && Allowed(keys[i.value]) && !Usable(sha256, keys[i.value])
    ensures i.Some? ==> forall j | 0 <= j < i.value :: Allowed(keys[j]) ==> Usable(sha256, keys[j])
    ensures i.None? ==> forall j | 0 <= j < |keys| :: Allowed(keys[j]) ==> Usable(sha256, keys[j])
  {
    if keys == [] then None
    else
      match FirstFailure(sha256, keys[..|keys| - 1])
      case Some(i) => assert forall j | 0 <= j < |keys| - 1 :: keys[..|keys| - 1][j] == keys[j]; Some(i)
      case None =>
        assert forall j | 0 <= j < |keys| - 1 :: keys[..|keys| - 1][j] == keys[j];
        if Allowed(keys[|keys| - 1]) && !Usable(sha256, keys[|keys| - 1]) then Some(|keys| - 1) else None
  }

  /** `parse_jwks`: one loop filling three indexes. */
  method ParseJwks(sha256: Hash, keys: seq<RawJwk>) returns (out: Outcome<Jwks>)
    ensures out == ParseJwksSpec(sha256, keys)
  {
    hide ComputeThumbprint;
    var byKid: map<string, Jwk>, byThumbprint: map<Digest, Jwk>, keyless: seq<Jwk> := map[], map[], [];
    var i := 0;
    while i < |keys|
      invariant 0 <= i <= |keys|
      invariant forall j | 0 <= j < i :: Allowed(keys[j]) ==> Usable(sha256, keys[j])
      invariant Jwks(byKid, byThumbprint, keyless) == Index(Accepted(sha256, keys[..i]))
    {
      var raw := keys[i];
      i := i + 1;
      AcceptedStep(sha256, keys, i);
      var alg := FromKeyAlgorithm(raw.alg);
      if alg.None? {
        continue;
      }
      var thumbprint := ComputeThumbprint(sha256, raw);
      if !thumbprint.Good? {
        FailureAt(sha256, keys, i - 1);
        return if thumbprint.Bad? then Bad(thumbprint.error) else Panics;
      }
      var entry := Jwk(raw.kid, alg.value, thumbprint.value, raw);
      IndexAppend(Accepted(sha256, keys[..i - 1]), entry);
      byThumbprint := byThumbprint[entry.thumbprint := entry];
      match raw.kid
      case Some(k) => byKid := byKid[k := entry];
      case None => keyless := keyless + [entry];
    }
    assert keys[..i] == keys;
    EmptyIndex(Accepted(sha256, keys));
    if |byKid| == 0 && |keyless| == 0 {
      return Bad(Empty);
    }
    return Good(Jwks(byKid, byThumbprint, keyless));
  }

  lemma AcceptedStep(sha256: Hash, keys: seq<RawJwk>, i: nat)
    requires 0 < i <= |keys|
    ensures
      var before, raw := Accepted(sha256, keys[..i - 1]), keys[i - 1];
      Accepted(sha256, keys[..i]) == if Usable(sha256, raw) then before + [Entry(sha256, raw)] else before
  {
    assert keys[..i][..i - 1] == keys[..i - 1];
  }

  lemma IndexAppend(entries: seq<Jwk>, k: Jwk)
    ensures Index(entries + [k]) == Insert(Index(entries), k)
  {
    assert (entries + [k])[..|entries|] == entries;
  }

  lemma FailureAt(sha256: Hash, keys: seq<RawJwk>, i: nat)
    requires i < |keys| && Allowed(keys[i]) && !Usable(sha256, keys[i])
    requires forall j | 0 <= j < i :: Allowed(keys[j]) ==> Usable(sha256, keys[j])
    ensures FirstFailure(sha256, keys) == Some(i)
  {
  }

  lemma EmptyIndex(entries: seq<Jwk>)
    ensures entries == [] <==> |Index(entries).byKid| == 0 && |Index(entries).keyless| == 0
  {
    if entries != [] {
      var k := entries[|entries| - 1];
      if k.kid.Some? {
        assert k.kid.value in Index(entries).byKid;
      }
    }
  }

  // ---- the indexes against a linear scan ----

  /** Position of the last entry carrying `kid`. */
  ghost predicate LastWithKid(entries: seq<Jwk>, kid: string, i: int) {
    0 <= i < |entries| && entries[i].kid == Some(kid) && forall j | i < j < |entries| :: entries[j].kid != Some(kid)
  }

  function WithoutKid(entries: seq<Jwk>): seq<Jwk> {
    if entries == [] then []
    else
      var last := entries[|entries| - 1];
      WithoutKid(entries[..|entries| - 1]) + if last.kid.None? then [last] else []
  }

  lemma {:induction false} IndexByKid(entries: seq<Jwk>, kid: string)
    ensures kid in Index(entries).byKid <==> exists i :: LastWithKid(entries, kid, i)
    ensures forall i :: LastWithKid(entries, kid, i) ==>
              kid in Index(entries).byKid && Index(entries).byKid[kid] == entries[i]
  {
    if entries != [] {
      var n := |entries| - 1;
      var init := entries[..n];
      IndexByKid(init, kid);
      assert Index(entries) == Insert(Index(init), entries[n]);
      hide Index;
      if entries[n].kid == Some(kid) {
        assert LastWithKid(entries, kid, n);
        assert forall i :: LastWithKid(entries, kid, i) ==> i == n;
      } else {
        assert forall i | 0 <= i < n :: init[i] == entries[i];
        forall i ensures LastWithKid(entries, kid, i) <==> LastWithKid(init, kid, i) {
        }
      }
    }
  }

  lemma {:induction false} IndexKeyless(entries: seq<Jwk>)
    ensures Index(entries).keyless == WithoutKid(entries)
  {
    if entries != [] {
      IndexKeyless(entries[..|entries| - 1]);
    }
  }

  lemma {:induction false} IndexByThumbprint(entries: seq<Jwk>, tp: Digest)
    ensures tp in Index(entries).byThumbprint <==> exists i :: 0 <= i < |entries| && entries[i].thumbprint == tp
    ensures tp in Index(entries).byThumbprint ==> Index(entries).byThumbprint[tp].thumbprint == tp
  {
    if entries != [] {
      var n := |entries| - 1;
      var init := entries[..n];
      IndexByThumbprint(init, tp);
      assert forall i | 0 <= i < n :: init[i] == entries[i];
      if tp in Index(init).byThumbprint {
        var i :| 0 <= i < |init| && init[i].thumbprint == tp;
        assert entries[i].thumbprint == tp;
      }
      assert Index(entries) == Insert(Index(init), entries[n]);
    }
  }

  function LookupCandidates(jwks: Jwks, kid: Option<string>): seq<Jwk> {
    if kid.Some? && kid.value in jwks.byKid then [jwks.byKid[kid.value]] else jwks.keyless
  }

  /** A parsed set answers a lookup as a scan of the accepted keys would: the last one
      with the requested `kid`, or else the ones without a `kid`, in document order. */
  lemma LookupIsLinearScan(sha256: Hash, keys: seq<RawJwk>, jwks: Jwks, kid: Option<string>)
    requires ParseJwksSpec(sha256, keys) == Good(jwks)
    ensures
      var entries := Accepted(sha256, keys);
      if kid.Some? && exists i :: LastWithKid(entries, kid.value, i)
      then forall i :: LastWithKid(entries, kid.value, i) ==> LookupCandidates(jwks, kid) == [entries[i]]
      else LookupCandidates(jwks, kid) == WithoutKid(entries)
  {
    var entries := Accepted(sha256, keys);
    if kid.Some? {
      IndexByKid(entries, kid.value);
    }
    IndexKeyless(entries);
  }

  /** A kid that some accepted key carries has a last carrier. */
  lemma {:induction false} LastExists(entries: seq<Jwk>, kid: string, i: nat) returns (last: nat)
    requires i < |entries| && entries[i].kid == Some(kid)
    ensures LastWithKid(entries, kid, last)
    decreases |entries| - i
  {
    if j :| i < j < |entries| && entries[j].kid == Some(kid) {
      last := LastExists(entries, kid, j);
    } else {
      last := i;
    }
  }

  // ---- invariants of a parsed set ----

  /** An allowed key under its own algorithm and its own thumbprint. */
  ghost predicate Sound(sha256: Hash, k: Jwk) {
    && ((k.raw.alg == Some(PS256) && k.alg == Ps256) || (k.raw.alg == Some(ES256) && k.alg == Es256))
    && k.kid == k.raw.kid
    && IsThumbprint(sha256, k.raw.params, k.thumbprint)
  }

  lemma EntryIsSound(sha256: Hash, raw: RawJwk)
    requires Usable(sha256, raw)
    ensures Sound(sha256, Entry(sha256, raw))
  {
    ThumbprintIff(sha256, raw, ComputeThumbprint(sha256, raw).value);
    hide ComputeThumbprint, IsThumbprint;
  }

  /** The entries are the allowed keys of the document, each sound. */
  lemma {:induction false} AcceptedAreSound(sha256: Hash, keys: seq<RawJwk>)
    ensures forall k | k in Accepted(sha256, keys) :: Sound(sha256, k) && k.raw in keys
    ensures forall raw | raw in keys && Usable(sha256, raw) :: Entry(sha256, raw) in Accepted(sha256, keys)
  {
    hide ComputeThumbprint, IsThumbprint, Sound;
    if keys != [] {
      var last := keys[|keys| - 1];
      AcceptedAreSound(sha256, keys[..|keys| - 1]);
      if Usable(sha256, last) {
        EntryIsSound(sha256, last);
      }
    }
  }

  ghost predicate IsCandidate(jwks: Jwks, k: Jwk) {
    exists kid :: k in LookupCandidates(jwks, kid)
  }

  lemma {:induction false} CandidatesAreEntries(entries: seq<Jwk>, k: Jwk)
    requires k in Index(entries).byKid.Values || k in Index(entries).keyless
    ensures k in entries
  {
    var n := |entries| - 1;
    if k != entries[n] {
      var init := entries[..n];
      CandidatesAreEntries(init, k);
    }
  }

  /** What holds of every set that parsing lets through: it has a candidate to offer, and
      every candidate is a PS256 or ES256 key of the document, sound and in the index. */
  lemma ParsedSetIsSound(sha256: Hash, keys: seq<RawJwk>, jwks: Jwks)
    requires ParseJwksSpec(sha256, keys) == Good(jwks)
    ensures jwks.byKid != map[] || jwks.keyless != []
    ensures forall k | IsCandidate(jwks, k) :: Sound(sha256, k) && k.raw in keys && k.thumbprint in jwks.byThumbprint
  {
    var entries := Accepted(sha256, keys);
    assert jwks == Index(entries) && entries != [];
    hide ComputeThumbprint, Accepted, Index, ParseJwksSpec, Sound, Entry, Usable;
    EmptyIndex(entries);
    AcceptedAreSound(sha256, keys);
    forall k | IsCandidate(jwks, k) ensures k in entries && k.thumbprint in jwks.byThumbprint {
      var kid :| k in LookupCandidates(jwks, kid);
      assert k in jwks.byKid.Values || k in jwks.keyless;
      CandidatesAreEntries(entries, k);
      IndexByThumbprint(entries, k.thumbprint);
    }
  }

  /** A PS256 or ES256 key of the document has this thumbprint. */
  ghost predicate Offers(sha256: Hash, keys: seq<RawJwk>, tp: Digest) {
    exists raw :: raw in keys && raw.alg in {Some(PS256), Some(ES256)} && IsThumbprint(sha256, raw.params, tp)
  }

  /** The thumbprint index is complete: it holds exactly the thumbprints of the PS256 and
      ES256 keys of the document, and each such key has one. */
  lemma ParsedSetIsComplete(sha256: Hash, keys: seq<RawJwk>, jwks: Jwks, tp: Digest)
    requires ParseJwksSpec(sha256, keys) == Good(jwks)
    ensures tp in jwks.byThumbprint <==> Offers(sha256, keys, tp)
    ensures forall raw | raw in keys && raw.alg in {Some(PS256), Some(ES256)} ::
              exists own :: IsThumbprint(sha256, raw.params, own)
  {
    var entries := Accepted(sha256, keys);
    assert forall raw | raw in keys && Allowed(raw) :: Usable(sha256, raw);
    AcceptedAreSound(sha256, keys);
    IndexByThumbprint(entries, tp);
    hide ComputeThumbprint, IsThumbprint, Accepted, Index;
    if tp in jwks.byThumbprint {
      var i :| 0 <= i < |entries| && entries[i].thumbprint == tp;
      assert entries[i] in entries && entries[i].raw in keys;
    }
    forall raw | raw in keys && Allowed(raw)
      ensures exists own :: IsThumbprint(sha256, raw.params, own)
      ensures IsThumbprint(sha256, raw.params, tp) ==>
                Entry(sha256, raw) in entries && Entry(sha256, raw).thumbprint == tp
    {
      ThumbprintIff(sha256, raw, ComputeThumbprint(sha256, raw).value);
      ThumbprintIff(sha256, raw, tp);
    }
  }

  /** The `unreachable!` is reached exactly when an octet key advertises an allowed
      algorithm before any other allowed key fails. */
  lemma ParsePanicsIff(sha256: Hash, keys: seq<RawJwk>)
    ensures ParseJwksSpec(sha256, keys) == Panics <==>
            exists i :: && 0 <= i < |keys|
                        && keys[i].alg in {Some(PS256), Some(ES256)}
                        && (keys[i].params.OctetKey? || keys[i].params.OctetKeyPair?)
                        && forall j | 0 <= j < i :: Allowed(keys[j]) ==> Usable(sha256, keys[j])
  {
    var f := FirstFailure(sha256, keys);
    if i :| && 0 <= i < |keys|
            && Allowed(keys[i]) && (keys[i].params.OctetKey? || keys[i].params.OctetKeyPair?)
            && forall j | 0 <= j < i :: Allowed(keys[j]) ==> Usable(sha256, keys[j]) {
      FailureAt(sha256, keys, i);
    }
  }

  /** One such document. */
  lemma OctetKeyReachesTheUnreachable(sha256: Hash)
    ensures ParseJwksSpec(sha256, [RawJwk(Some(ES256), None, OctetKey)]) == Panics
  {
    FailureAt(sha256, [RawJwk(Some(ES256), None, OctetKey)], 0);
  }

  // ---- disjointness ----

  predicate Disjoint(a: Jwks, b: Jwks) {
    a.byThumbprint.Keys !! b.byThumbprint.Keys
  }

  /** `check_disjoint_jwks` */
  method CheckDisjoint(a: Jwks, b: Jwks) returns (ok: bool)
    ensures ok <==> Disjoint(a, b)
  {
    var seen := a.byThumbprint.Keys;
    var todo := b.byThumbprint.Keys;
    while todo != {}
      invariant todo <= b.byThumbprint.Keys
      invariant forall tp | tp in b.byThumbprint.Keys && tp !in todo :: tp !in seen
      decreases |todo|
    {
      var tp :| tp in todo;
      todo := todo - {tp};
      if tp in seen {
        return false;
      }
    }
    return true;
  }

  /** Two parsed sets are disjoint exactly when no PS256 or ES256 key of one document has
      the thumbprint of such a key of the other. */
  lemma DisjointIff(sha256: Hash, keysA: seq<RawJwk>, a: Jwks, keysB: seq<RawJwk>, b: Jwks)
    requires ParseJwksSpec(sha256, keysA) == Good(a) && ParseJwksSpec(sha256, keysB) == Good(b)
    ensures Disjoint(a, b) <==> !exists tp :: Offers(sha256, keysA, tp) && Offers(sha256, keysB, tp)
  {
    hide ParseJwksSpec, Offers;
    forall tp: Digest
      ensures tp in a.byThumbprint <==> Offers(sha256, keysA, tp)
      ensures tp in b.byThumbprint <==> Offers(sha256, keysB, tp)
    {
      ParsedSetIsComplete(sha256, keysA, a, tp);
      ParsedSetIsComplete(sha256, keysB, b, tp);
    }
    if tp :| tp in a.byThumbprint && tp in b.byThumbprint {
      assert Offers(sha256, keysA, tp) && Offers(sha256, keysB, tp);
    }
  }

  /** When the check passes, no lookup in one set offers a key that any lookup in the
      other offers, by thumbprint, even where repeated kids have hidden some keys. */
  lemma DisjointCandidates(sha256: Hash, keysA: seq<RawJwk>, a: Jwks, keysB: seq<RawJwk>, b: Jwks, ka: Jwk, kb: Jwk)
    requires ParseJwksSpec(sha256, keysA) == Good(a) && ParseJwksSpec(sha256, keysB) == Good(b)
    requires Disjoint(a, b) && IsCandidate(a, ka) && IsCandidate(b, kb)
    ensures ka.thumbprint != kb.thumbprint
  {
    hide ParseJwksSpec, Sound, IsCandidate;
    ParsedSetIsSound(sha256, keysA, a);
    ParsedSetIsSound(sha256, keysB, b);
  }
}
