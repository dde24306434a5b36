/** What the cached key sets always are, and what a decided token validation was decided
    on, over whole runs of `Refresh`. */
module TokenTheorems {
  import opened Prelude
  import opened JwksIndex
  import opened Contexts
  import opened Refresh
  import opened InstallTheorems
  import Token

  /** Every key set a context has ever held was let through by parsing. */
  ghost predicate Cached(c: Config, cell: Cell) {
    && cell.history != [] && cell.jwks == cell.history[|cell.history| - 1]
    && forall jwks | jwks in cell.history :: Parsed(c, jwks)
  }

  ghost predicate Carries(c: Config, th: Thread) {
    && (th.pc.LoadOther? ==> Parsed(c, th.pc.incoming))
    && (th.pc.StoreOwn? ==> Parsed(c, th.pc.incoming))
  }

  /** The key sets a token validation used are ones its context has held. */
  ghost predicate Used(cell: Cell, th: Thread) {
    && (th.first.Some? ==> th.first.value in cell.history)
    && (th.second.Some? ==> th.second.value in cell.history)
  }

  /** How far a thread has come, and what it was decided on. */
  ghost predicate Progress(th: Thread) {
    && (th.request.None? ==> th.attempt.None? && (Refreshing(th.pc) || th.pc.Finished? || th.pc.Gone?))
    && (th.request.Some? && (Refreshing(th.pc) || th.pc.Complete?) ==> th.attempt.Some?)
    && (th.attempt.Some? ==> !BeforeClaim(th.pc))
    && th.refreshes <= 1
    && (th.pc.FirstTry? ==> th.first.None?)
    && (th.pc.FirstTry? || th.pc.ReadClock? ==> th.refreshes == 0)
    && (th.second.Some? ==> th.pc.Decided?)
    && (!th.pc.FirstTry? && !th.pc.Gone? && th.request.Some? ==> th.first.Some?)
    && (th.first.Some? && !th.pc.Decided? && !th.pc.Gone? ==> FirstVerdict(th).Err?)
    && (th.pc.Decided? ==> th.request.Some? && th.first.Some? && DecidedBy(th))
  }

  /** Success comes from the first attempt or, when that failed, from the second; failure
      means both that were made failed, and reports the first one's error. */
  ghost predicate DecidedBy(th: Thread)
    requires th.pc.Decided? && th.first.Some?
  {
    var first := TryWith(th, th.first.value);
    if th.pc.verdict.Ok? then
      if first.Ok? then th.second.None? && th.pc.verdict == first
      else th.second.Some? && th.pc.verdict == TryWith(th, th.second.value)
    else
      th.pc.verdict == first && (th.second.Some? ==> TryWith(th, th.second.value).Err?)
  }

  ghost predicate Settled(c: Config, s: State, th: Thread) {
    Carries(c, th) && Used(CellOf(s, th.tag), th) && Progress(th)
  }

  ghost predicate TokenInv(c: Config, s: State) {
    && Cached(c, s.vault) && Cached(c, s.admin)
    && forall t | t in s.threads :: Settled(c, s, s.threads[t])
  }

  lemma CellsStayCached(c: Config, s: State, e: Event, tag: Tag)
    requires Enabled(s, e) && Cached(c, s.vault) && Cached(c, s.admin)
    requires e.t in s.threads ==> Carries(c, s.threads[e.t])
    ensures Cached(c, CellOf(Step(c, s, e), tag))
    ensures CellOf(s, tag).history <= CellOf(Step(c, s, e), tag).history
  {
    hide Disjoint, ParseJwksSpec, TryWith, FirstVerdict, WinnerInFlight, Parsed;
    if !e.StoreNew? {
      OnlyStoresInstall(c, s, e, tag);
      hide Step, Enabled;
    }
  }

  lemma OwnProgress(c: Config, s: State, e: Event)
    requires Enabled(s, e) && (e.t in s.threads ==> Progress(s.threads[e.t]))
    ensures Progress(Act(c, s, e).0)
  {
    hide Disjoint, ParseJwksSpec, WinnerInFlight, Token.Attempt;
  }

  lemma OwnCarries(c: Config, s: State, e: Event)
    requires Enabled(s, e) && (e.t in s.threads ==> Carries(c, s.threads[e.t]))
    ensures Carries(c, Act(c, s, e).0)
  {
    hide Disjoint, WinnerInFlight, TryWith, FirstVerdict;
    if e.Fetched? {
      hide ParseJwksSpec;
      if ParseJwksSpec(c.sha256, e.keys).Good? {
        assert Parsed(c, ParseJwksSpec(c.sha256, e.keys).value);
      }
    }
    hide Parsed, ParseJwksSpec;
  }

  lemma OwnUsed(c: Config, s: State, e: Event)
    requires Enabled(s, e) && Cached(c, s.vault) && Cached(c, s.admin)
    requires e.t in s.threads ==> Used(CellOf(s, s.threads[e.t].tag), s.threads[e.t])
    ensures Used(CellOf(s, Act(c, s, e).0.tag), Act(c, s, e).0)
  {
    hide Disjoint, WinnerInFlight, TryWith, FirstVerdict, ParseJwksSpec, Parsed;
  }

  lemma UsedGrows(cell: Cell, after: Cell, th: Thread)
    requires Used(cell, th) && cell.history <= after.history
    ensures Used(after, th)
  {
  }

  lemma OwnStaysSettled(c: Config, s: State, e: Event)
    requires TokenInv(c, s) && Enabled(s, e)
    ensures Settled(c, Step(c, s, e), Act(c, s, e).0)
  {
    assert e.t in s.threads ==> Settled(c, s, s.threads[e.t]);
    StepFrame(c, s, e);
    var th := Act(c, s, e).0;
    hide Step, Act, Enabled, Cached, Carries, Used, Progress;
    CellsStayCached(c, s, e, th.tag);
    OwnProgress(c, s, e);
    OwnCarries(c, s, e);
    OwnUsed(c, s, e);
    UsedGrows(CellOf(s, th.tag), CellOf(Step(c, s, e), th.tag), th);
  }

  lemma OtherStaysSettled(c: Config, s: State, e: Event, t: Tid)
    requires TokenInv(c, s) && Enabled(s, e) && t in s.threads && t != e.t
    ensures Settled(c, Step(c, s, e), s.threads[t])
  {
    var th := s.threads[t];
    assert Settled(c, s, th);
    assert e.t in s.threads ==> Settled(c, s, s.threads[e.t]);
    hide Step, Act, Enabled, Cached, Carries, Used, Progress;
    CellsStayCached(c, s, e, th.tag);
    UsedGrows(CellOf(s, th.tag), CellOf(Step(c, s, e), th.tag), th);
  }

  lemma StepKeepsTokenInv(c: Config, s: State, e: Event)
    requires TokenInv(c, s) && Enabled(s, e)
    ensures TokenInv(c, Step(c, s, e))
  {
    var after := Step(c, s, e);
    assert e.t in s.threads ==> Carries(c, s.threads[e.t]) by {
      assert e.t in s.threads ==> Settled(c, s, s.threads[e.t]);
    }
    StepFrame(c, s, e);
    hide Step, Act, Enabled, Cached, Carries, Settled;
    CellsStayCached(c, s, e, Vault);
    CellsStayCached(c, s, e, Admin);
    OwnStaysSettled(c, s, e);
    forall t | t in s.threads && t != e.t ensures Settled(c, after, s.threads[t]) {
      OtherStaysSettled(c, s, e, t);
    }
  }

  lemma {:induction false} RunKeepsTokenInv(c: Config, s0: State, events: seq<Event>, s: State)
    requires Reached(c, s0, events, s)
    ensures TokenInv(c, s)
  {
    if events != [] {
      var before := Run(c, s0, events[..|events| - 1]).value;
      var last := events[|events| - 1];
      assert Enabled(before, last) && s == Step(c, before, last);
      hide Initial, TokenInv, Enabled, Step;
      RunKeepsTokenInv(c, s0, events[..|events| - 1], before);
      StepKeepsTokenInv(c, before, last);
    } else {
      hide Parsed, Disjoint;
    }
  }

  /** In every reachable state a context's cached key set is the result of parsing some
      document: it is not empty, offers only PS256 and ES256 keys under their own
      thumbprints, and indexes the thumbprints of exactly those the document has. */
  lemma CacheIsSound(c: Config, s0: State, events: seq<Event>, s: State, tag: Tag) returns (keys: seq<RawJwk>)
    requires Reached(c, s0, events, s)
    ensures ParseJwksSpec(c.sha256, keys) == Good(CellOf(s, tag).jwks)
    ensures CellOf(s, tag).jwks.byKid != map[] || CellOf(s, tag).jwks.keyless != []
    ensures forall k | IsCandidate(CellOf(s, tag).jwks, k) ::
              Sound(c.sha256, k) && k.raw in keys && k.thumbprint in CellOf(s, tag).jwks.byThumbprint
    ensures forall tp :: tp in CellOf(s, tag).jwks.byThumbprint <==> Offers(c.sha256, keys, tp)
  {
    RunKeepsTokenInv(c, s0, events, s);
    assert Cached(c, CellOf(s, tag));
    var jwks := CellOf(s, tag).jwks;
    assert Parsed(c, jwks);
    hide TokenInv, Run, Initial, IsCandidate, Sound, Offers;
    keys :| ParseJwksSpec(c.sha256, keys) == Good(jwks);
    ParsedSetIsSound(c.sha256, keys, jwks);
    forall tp ensures tp in jwks.byThumbprint <==> Offers(c.sha256, keys, tp) {
      ParsedSetIsComplete(c.sha256, keys, jwks, tp);
    }
  }

  /** A failed fetch, a document that does not parse, an unreachable or an overlapping
      other context leave both cached key sets as they were. */
  lemma RejectedRefreshChangesNothing(c: Config, s: State, e: Event, tag: Tag)
    requires Enabled(s, e)
    requires CellOf(Step(c, s, e), tag).jwks != CellOf(s, tag).jwks
    ensures e.StoreNew? && s.threads[e.t].tag == tag && s.threads[e.t].pc.StoreOwn?
    ensures CellOf(Step(c, s, e), tag).jwks == s.threads[e.t].pc.incoming
  {
    hide Disjoint, ParseJwksSpec, TryWith, FirstVerdict, WinnerInFlight;
    if !e.StoreNew? {
      OnlyStoresInstall(c, s, e, tag);
    }
  }

  /** An accepted token was verified by a candidate key of a set that its own context
      held at one of the two moments it looked, with at most one refresh between. */
  lemma AcceptedTokenIsVerified(c: Config, s0: State, events: seq<Event>, s: State, t: Tid) returns (from: Jwks)
    requires Reached(c, s0, events, s)
    requires t in s.threads && s.threads[t].pc.Decided? && s.threads[t].pc.verdict.Ok?
    ensures
      var th := s.threads[t];
      var (key, claims) := th.pc.verdict.value;
      && th.request.Some?
      && from in CellOf(s, th.tag).history && Parsed(c, from)
      && (th.first == Some(from) || (th.second == Some(from) && th.first.Some? && TryWith(th, th.first.value).Err?))
      && key in LookupCandidates(from, th.request.value.kid)
      && th.request.value.verify(key) == Token.Verified(claims)
      && th.refreshes <= 1
  {
    RunKeepsTokenInv(c, s0, events, s);
    var th := s.threads[t];
    assert Settled(c, s, th) && Cached(c, CellOf(s, th.tag));
    from := if TryWith(th, th.first.value).Ok? then th.first.value else th.second.value;
    assert TryWith(th, from) == th.pc.verdict;
    hide TokenInv, Run, Initial, Parsed;
    var candidates := LookupCandidates(from, th.request.value.kid);
    Token.ScanMeaning(candidates, th.request.value.verify, None);
    var i :| Token.FirstVerified(candidates, th.request.value.verify, i);
  }

  /** A rejected token reports the error of its first attempt, and every attempt it
      made had failed. */
  lemma RejectedTokenReportsFirstError(c: Config, s0: State, events: seq<Event>, s: State, t: Tid)
    requires Reached(c, s0, events, s)
    requires t in s.threads && s.threads[t].pc.Decided? && s.threads[t].pc.verdict.Err?
    ensures
      var th := s.threads[t];
      && th.first.Some? && th.first.value in CellOf(s, th.tag).history
      && th.pc.verdict == TryWith(th, th.first.value)
      && (th.second.Some? ==> TryWith(th, th.second.value).Err?)
      && th.refreshes <= 1
  {
    RunKeepsTokenInv(c, s0, events, s);
    assert Settled(c, s, s.threads[t]);
    hide TokenInv, Run, Initial;
  }

  // ---- what a load sees of earlier installs ----

  lemma StepGrowsHistory(c: Config, s: State, e: Event, tag: Tag)
    requires Enabled(s, e)
    ensures CellOf(s, tag).history <= CellOf(Step(c, s, e), tag).history
  {
    hide Disjoint, ParseJwksSpec, TryWith, FirstVerdict, WinnerInFlight;
    if !e.StoreNew? {
      OnlyStoresInstall(c, s, e, tag);
    }
  }

  /** A run passes through the states of its prefixes, and histories only grow. */
  lemma {:induction false} PrefixHistory(c: Config, s0: State, events: seq<Event>, i: nat, s: State, tag: Tag)
    requires Run(c, s0, events) == Some(s) && i <= |events|
    ensures Run(c, s0, events[..i]).Some?
    ensures CellOf(Run(c, s0, events[..i]).value, tag).history <= CellOf(s, tag).history
  {
    if i == |events| {
      assert events[..i] == events;
    } else {
      var init, last := events[..|events| - 1], events[|events| - 1];
      var before := Run(c, s0, init).value;
      assert Enabled(before, last) && s == Step(c, before, last) && init[..i] == events[..i];
      hide Run, Enabled, Step, CellOf;
      PrefixHistory(c, s0, init, i, before, tag);
      StepGrowsHistory(c, before, last, tag);
    }
  }

  /** The step after a prefix of a run. */
  lemma {:induction false} StepAt(c: Config, s0: State, events: seq<Event>, i: nat, s: State)
    requires Run(c, s0, events) == Some(s) && i < |events|
    ensures Run(c, s0, events[..i]).Some? && Enabled(Run(c, s0, events[..i]).value, events[i])
    ensures Run(c, s0, events[..i + 1]) == Some(Step(c, Run(c, s0, events[..i]).value, events[i]))
  {
    PrefixHistory(c, s0, events, i + 1, s, Vault);
    assert events[..i + 1][..i] == events[..i];
  }

  /** An attempt loads the latest set of its context's history. */
  lemma LoadsLatest(c: Config, s: State, t: Tid)
    requires (Enabled(s, TryAgain(t)) || Enabled(s, TryFirst(t))) && Cached(c, CellOf(s, s.threads[t].tag))
    ensures
      var history := CellOf(s, s.threads[t].tag).history;
      && history != []
      && (Enabled(s, TryAgain(t)) ==> Step(c, s, TryAgain(t)).threads[t].second == Some(history[|history| - 1]))
      && (Enabled(s, TryFirst(t)) ==> Step(c, s, TryFirst(t)).threads[t].first == Some(history[|history| - 1]))
  {
    hide Disjoint, ParseJwksSpec, TryWith, FirstVerdict, WinnerInFlight, Parsed;
  }

  lemma StoreAppends(c: Config, s: State, u: Tid)
    requires Enabled(s, StoreNew(u))
    ensures
      var tag := s.threads[u].tag;
      CellOf(Step(c, s, StoreNew(u)), tag).history == CellOf(s, tag).history + [s.threads[u].pc.incoming]
  {
    hide Disjoint, ParseJwksSpec, TryWith, FirstVerdict, WinnerInFlight;
  }

  /** A set once installed is seen: whatever a token validation loads after a store in its
      context, the set that store installed stands in the context's history at or before
      the position of the one loaded. */
  lemma LaterLoadsSeeInstall(c: Config, s0: State, events: seq<Event>, i: nat, s: State, t: Tid)
    requires Reached(c, s0, events, s) && i < |events| && events[i].StoreNew?
    requires Enabled(s, TryAgain(t)) || Enabled(s, TryFirst(t))
    requires Run(c, s0, events[..i]).Some? && events[i].t in Run(c, s0, events[..i]).value.threads
    requires Run(c, s0, events[..i]).value.threads[events[i].t].tag == s.threads[t].tag
    ensures
      var was := Run(c, s0, events[..i]).value;
      var at, history := |CellOf(was, s.threads[t].tag).history|, CellOf(s, s.threads[t].tag).history;
      && Enabled(was, events[i])
      && at < |history| && history[at] == was.threads[events[i].t].pc.incoming
      && (Enabled(s, TryAgain(t)) ==> Step(c, s, TryAgain(t)).threads[t].second == Some(history[|history| - 1]))
      && (Enabled(s, TryFirst(t)) ==> Step(c, s, TryFirst(t)).threads[t].first == Some(history[|history| - 1]))
  {
    var tag := s.threads[t].tag;
    StepAt(c, s0, events, i, s);
    PrefixHistory(c, s0, events, i + 1, s, tag);
    RunKeepsTokenInv(c, s0, events, s);
    assert Cached(c, CellOf(s, tag));
    LoadsLatest(c, s, t);
    StoreAppends(c, Run(c, s0, events[..i]).value, events[i].t);
    hide Run, Initial, TokenInv, Cached, Step;
  }

  /** A winner that goes on to retry has installed the set it fetched. */
  ghost predicate Installed(th: Thread) {
    (th.pc.Complete? && th.pc.installed) || (th.pc.Retry? && th.attempt.Some?)
  }

  lemma InstalledBefore(c: Config, s: State, e: Event, t: Tid)
    requires Enabled(s, e) && t in Step(c, s, e).threads && Installed(Step(c, s, e).threads[t])
    requires e.t in s.threads ==> Progress(s.threads[e.t])
    ensures e == StoreNew(t) || (t in s.threads && Installed(s.threads[t]))
  {
    hide Disjoint, ParseJwksSpec, TryWith, WinnerInFlight, FirstVerdict;
  }

  lemma {:induction false} InstallOf(c: Config, s0: State, events: seq<Event>, s: State, t: Tid) returns (i: nat)
    requires Reached(c, s0, events, s) && t in s.threads && Installed(s.threads[t])
    ensures i < |events| && events[i] == StoreNew(t)
  {
    assert events != [];
    var init, last := events[..|events| - 1], events[|events| - 1];
    var before := Run(c, s0, init).value;
    assert Enabled(before, last) && s == Step(c, before, last);
    RunKeepsTokenInv(c, s0, init, before);
    assert last.t in before.threads ==> Settled(c, before, before.threads[last.t]);
    InstalledBefore(c, before, last, t);
    hide Run, Initial, Installed, Enabled, Step;
    i := |events| - 1;
    if events[i] != StoreNew(t) {
      i := InstallOf(c, s0, init, before, t);
    }
  }

  /** The point of a refresh: a validation that won the slot and tries again does so
      against the set it installed itself, or one installed later. */
  lemma RetrySeesOwnInstall(c: Config, s0: State, events: seq<Event>, s: State, t: Tid) returns (i: nat, at: nat)
    requires Reached(c, s0, events, s) && Enabled(s, TryAgain(t)) && s.threads[t].attempt.Some?
    ensures i < |events| && events[i] == StoreNew(t) && Run(c, s0, events[..i]).Some?
    ensures
      var was, history := Run(c, s0, events[..i]).value, CellOf(s, s.threads[t].tag).history;
      && Enabled(was, StoreNew(t))
      && at < |history| && history[at] == was.threads[t].pc.incoming
      && at == |CellOf(was, s.threads[t].tag).history|
      && Step(c, s, TryAgain(t)).threads[t].second == Some(history[|history| - 1])
  {
    i := InstallOf(c, s0, events, s, t);
    StepAt(c, s0, events, i, s);
    var was := Run(c, s0, events[..i]).value;
    at := |CellOf(was, s.threads[t].tag).history|;
    KeepsTag(c, s0, events, i, s, t);
    hide Run, Initial, Step;
    LaterLoadsSeeInstall(c, s0, events, i, s, t);
  }

  lemma {:induction false} KeepsTag(c: Config, s0: State, events: seq<Event>, i: nat, s: State, t: Tid)
    requires Run(c, s0, events) == Some(s) && i <= |events|
    requires Run(c, s0, events[..i]).Some? && t in Run(c, s0, events[..i]).value.threads
    ensures t in s.threads && s.threads[t].tag == Run(c, s0, events[..i]).value.threads[t].tag
  {
    if i == |events| {
      assert events[..i] == events;
    } else {
      var init, last := events[..|events| - 1], events[|events| - 1];
      var before := Run(c, s0, init).value;
      assert Enabled(before, last) && s == Step(c, before, last) && init[..i] == events[..i];
      KeepsTag(c, s0, init, i, before, t);
      StepFrame(c, before, last);
      hide Run, Enabled, Step, Act;
    }
  }
}
