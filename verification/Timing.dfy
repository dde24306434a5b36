/** The clock arithmetic of proof and token validation on `u64` seconds
    (`server/src/auth/dpop.rs`, `server/src/auth/token.rs`), next to its meaning on
    unbounded integers. `+` wraps, as in a release build. */
module Timing {
  import opened Prelude

  predicate Fresh(iat: U64, now: U64, freshness: U64, skew: U64) {
    if iat <= now then SaturatingSub(now, iat) <= WrappingAdd(freshness, skew)
    else SaturatingSub(iat, now) <= skew
  }

  predicate Expired(exp: U64, now: U64, skew: U64) {
    SaturatingAdd(exp, skew) <= now
  }

  predicate NotYetValid(nbf: U64, now: U64, skew: U64) {
    nbf > SaturatingAdd(now, skew)
  }

  /** Issued at most `freshness + skew` ago and at most `skew` ahead. */
  predicate FreshMeaning(iat: int, now: int, freshness: int, skew: int) {
    now - (freshness + skew) <= iat <= now + skew
  }

  /** The freshness test means what it says for every claim and clock exactly when the
      two tolerances add up without overflow, which configuration loading checks. */
  lemma FreshIsExactIff(freshness: U64, skew: U64)
    ensures (forall iat: U64, now: U64 :: Fresh(iat, now, freshness, skew) == FreshMeaning(iat, now, freshness, skew))
       <==> freshness + skew <= U64_MAX
  {
    if freshness + skew > U64_MAX {
      var wrapped := WrappingAdd(freshness, skew);
      assert wrapped == freshness + skew - (U64_MAX + 1);
      assert Fresh(0, wrapped + 1, freshness, skew) != FreshMeaning(0, wrapped + 1, freshness, skew);
    }
  }

  /** The expiry test saturates; it departs from `exp + skew <= now` only when the sum
      does not fit and the clock stands at the largest `u64`. */
  lemma ExpiredIsExactIff(exp: U64, now: U64, skew: U64)
    ensures (Expired(exp, now, skew) <==> exp + skew <= now) <==> now < U64_MAX || exp + skew <= U64_MAX
  {
  }

  /** The not-before test saturates without ever changing its answer. */
  lemma NotYetValidIsExact(nbf: U64, now: U64, skew: U64)
    ensures NotYetValid(nbf, now, skew) <==> nbf > now + skew
  {
  }
}
