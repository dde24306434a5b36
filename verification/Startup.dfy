/** Construction of the two contexts (`init_contexts` in `server/src/auth/context.rs`). */
module Startup {
  import opened Crypto
  import opened Contexts
  import opened JwksIndex
  import opened Refresh

  /** What the network has to offer for one context. */
  datatype Source = NoDiscovery | NoDocument | Document(keys: seq<RawJwk>)

  datatype InitError =
    | DiscoveryFetch(audience: Tag)
    | JwksFetch(audience: Tag)
    | EmptyJwks(audience: Tag)
    | JwksOverlap(extra: Tag)

  datatype Attempted<T> = Ready(value: T) | Failed(error: InitError) | Panicked

  /** `init_single_context` */
  method InitSingleContext(sha256: Hash, tag: Tag, source: Source) returns (r: Attempted<Jwks>)
    ensures forall jwks :: r == Ready(jwks) <==> source.Document? && ParseJwksSpec(sha256, source.keys) == Good(jwks)
    ensures r == Failed(DiscoveryFetch(tag)) <==> source.NoDiscovery?
    ensures r == Failed(EmptyJwks(tag)) <==> source.Document? && ParseJwksSpec(sha256, source.keys) == Bad(Empty)
    ensures r == Panicked <==> source.Document? && ParseJwksSpec(sha256, source.keys) == Panics
    ensures r.Failed? ==> !r.error.JwksOverlap? && r.error.audience == tag
  {
    hide ParseJwksSpec;
    match source
    case NoDiscovery => return Failed(DiscoveryFetch(tag));
    case NoDocument => return Failed(JwksFetch(tag));
    case Document(keys) =>
      var parsed := ParseJwks(sha256, keys);
      match parsed
      case Good(jwks) => return Ready(jwks);
      case Bad(error) => return Failed(if error == Empty then EmptyJwks(tag) else JwksFetch(tag));
      case Panics => return Panicked;
  }

  /** Startup either leaves behind a state from which every run of `Refresh` may begin,
      or names the first context that could not be had, or the overlap. */
  method InitContexts(c: Config, vault: Source, admin: Source) returns (r: Attempted<(Jwks, Jwks)>)
    ensures r.Ready? ==> Initial(c, State(FreshCell(r.value.0), FreshCell(r.value.1), map[], 2))
    ensures forall v, a :: r == Ready((v, a)) <==>
              && vault.Document? && ParseJwksSpec(c.sha256, vault.keys) == Good(v)
              && admin.Document? && ParseJwksSpec(c.sha256, admin.keys) == Good(a)
              && Disjoint(v, a)
    ensures r.Failed? && r.error.JwksOverlap? <==>
              && vault.Document? && ParseJwksSpec(c.sha256, vault.keys).Good?
              && admin.Document? && ParseJwksSpec(c.sha256, admin.keys).Good?
              && !Disjoint(ParseJwksSpec(c.sha256, vault.keys).value, ParseJwksSpec(c.sha256, admin.keys).value)
    ensures r.Failed? && r.error.JwksOverlap? ==> r.error.extra == Admin
    ensures r.Failed? && !r.error.JwksOverlap? ==>
              (r.error.audience == Admin <==> vault.Document? && ParseJwksSpec(c.sha256, vault.keys).Good?)
  {
    hide ParseJwksSpec, Disjoint;
    var first := InitSingleContext(c.sha256, Vault, vault);
    if !first.Ready? {
      return if first.Failed? then Failed(first.error) else Panicked;
    }
    var second := InitSingleContext(c.sha256, Admin, admin);
    if !second.Ready? {
      return if second.Failed? then Failed(second.error) else Panicked;
    }
    var disjoint := CheckDisjoint(first.value, second.value);
    if !disjoint {
      return Failed(JwksOverlap(Admin));
    }
    assert Parsed(c, first.value) && Parsed(c, second.value);
    return Ready((first.value, second.value));
  }
}
