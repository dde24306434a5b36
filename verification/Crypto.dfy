/** The RFC 7638 thumbprint input of `server/src/auth/crypto.rs`. SHA-256 is a
    parameter; what is proved is that the text handed to it identifies the key. */
module Crypto {
  import opened Prelude
  import Base64Url

  type Digest = Bytes
  type Hash = string -> Digest

  /** EC coordinates are fixed 32-byte arrays in the source; the encoding proved
      here does not need the bound. */
  datatype ThumbprintInput = Rsa(n: Bytes, e: Bytes) | EcP256(x: Bytes, y: Bytes)

  function CanonicalJson(key: ThumbprintInput): string {
    match key
    case Rsa(n, e) =>
      "{\"e\":\""
      + (Base64Url.Encode(e) + ("\"" + (",\"kty\":\"RSA\",\"n\":\"" + (Base64Url.Encode(n) + ("\"" + "}")))))
    case EcP256(x, y) =>
      "{\"crv\":\"P-256\",\"kty\":\"EC\",\"x\":\""
      + (Base64Url.Encode(x) + ("\"" + (",\"y\":\"" + (Base64Url.Encode(y) + ("\"" + "}")))))
  }

  function JwkThumbprint(sha256: Hash, key: ThumbprintInput): Digest {
    sha256(CanonicalJson(key))
  }

  lemma DropPrefix<T>(p: seq<T>, a: seq<T>, b: seq<T>)
    requires p + a == p + b
    ensures a == b
  {
    assert (p + a)[|p|..] == a;
    assert (p + b)[|p|..] == b;
  }

  /** Up to its own length, a base64url text followed by a quote has no other quote. */
  lemma FirstQuote(a: string, x: string, i: nat)
    requires Base64Url.AllDigits(a)
    requires i <= |a| && (a + ("\"" + x))[i] == '"'
    ensures i == |a|
  {
  }

  lemma SplitAtQuote(a: string, x: string, b: string, y: string)
    requires Base64Url.AllDigits(a) && Base64Url.AllDigits(b)
    requires a + ("\"" + x) == b + ("\"" + y)
    ensures a == b && x == y
  {
    var left, right := a + ("\"" + x), b + ("\"" + y);
    assert left[|a|] == '"' && right[|b|] == '"';
    if |a| <= |b| {
      FirstQuote(b, y, |a|);
    } else {
      FirstQuote(a, x, |b|);
    }
    assert a == left[..|a|] && b == right[..|b|];
    DropPrefix(a, "\"" + x, "\"" + y);
    DropPrefix("\"", x, y);
  }

  /** Two encoded members followed by a common tail determine both byte strings. */
  lemma TwoMembers(prefix: string, mid: string, a1: Bytes, a2: Bytes, b1: Bytes, b2: Bytes)
    requires prefix + (Base64Url.Encode(a1) + ("\"" + (mid + (Base64Url.Encode(a2) + ("\"" + "}")))))
          == prefix + (Base64Url.Encode(b1) + ("\"" + (mid + (Base64Url.Encode(b2) + ("\"" + "}")))))
    ensures a1 == b1 && a2 == b2
  {
    Base64Url.EncodeShape(a1);
    Base64Url.EncodeShape(a2);
    Base64Url.EncodeShape(b1);
    Base64Url.EncodeShape(b2);
    var ta := mid + (Base64Url.Encode(a2) + ("\"" + "}"));
    var tb := mid + (Base64Url.Encode(b2) + ("\"" + "}"));
    DropPrefix(prefix, Base64Url.Encode(a1) + ("\"" + ta), Base64Url.Encode(b1) + ("\"" + tb));
    SplitAtQuote(Base64Url.Encode(a1), ta, Base64Url.Encode(b1), tb);
    DropPrefix(mid, Base64Url.Encode(a2) + ("\"" + "}"), Base64Url.Encode(b2) + ("\"" + "}"));
    SplitAtQuote(Base64Url.Encode(a2), "}", Base64Url.Encode(b2), "}");
    Base64Url.EncodeInjective(a1, b1);
    Base64Url.EncodeInjective(a2, b2);
  }

  lemma KeyTypeShows(key: ThumbprintInput)
    ensures |CanonicalJson(key)| > 2
    ensures CanonicalJson(key)[2] == if key.Rsa? then 'e' else 'c'
  {
  }

  /** Distinct public keys have distinct canonical JSON, within and across key types. */
  lemma CanonicalJsonInjective(a: ThumbprintInput, b: ThumbprintInput)
    ensures CanonicalJson(a) == CanonicalJson(b) <==> a == b
  {
    if CanonicalJson(a) == CanonicalJson(b) {
      KeyTypeShows(a);
      KeyTypeShows(b);
      if a.Rsa? {
        TwoMembers("{\"e\":\"", ",\"kty\":\"RSA\",\"n\":\"", a.e, a.n, b.e, b.n);
      } else {
        TwoMembers("{\"crv\":\"P-256\",\"kty\":\"EC\",\"x\":\"", ",\"y\":\"", a.x, a.y, b.x, b.y);
      }
    }
  }

  /** So equal thumbprints mean equal keys unless the hash itself collides. */
  lemma ThumbprintIdentifiesKey(sha256: Hash, a: ThumbprintInput, b: ThumbprintInput)
    requires CanonicalJson(a) != CanonicalJson(b) ==> sha256(CanonicalJson(a)) != sha256(CanonicalJson(b))
    ensures JwkThumbprint(sha256, a) == JwkThumbprint(sha256, b) <==> a == b
  {
    CanonicalJsonInjective(a, b);
  }
}
