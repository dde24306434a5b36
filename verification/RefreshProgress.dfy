/** That refreshes of `Refresh` do what they are for: a winner that installed tries again,
    a rotated key is followed, and a waiter waits for the claim it saw. */
module RefreshProgress {
  import opened Prelude
  import opened JwksIndex
  import opened Contexts
  import opened Refresh
  import opened InstallTheorems
  import opened TokenTheorems
  import Token

  // ---- a winner tries again exactly if it installed ----

  /** How a validation goes on, by whether it has `stored` a key set of its own. */
  predicate GoesOn(th: Thread, stored: bool) {
    && (th.request.Some? && th.attempt.None? ==> !stored)
    && (th.attempt.Some? && stored ==>
          (th.pc.Complete? && th.pc.installed) || th.pc.Retry? || (th.pc.Decided? && th.second.Some?) || th.pc.Gone?)
    && (th.attempt.Some? && !stored ==>
          th.second.None? && !th.pc.Retry? && (th.pc.Complete? ==> !th.pc.installed))
  }

  lemma StepGoesOn(c: Config, s: State, e: Event, t: Tid, stored: bool)
    requires Enabled(s, e) && t in s.threads && GoesOn(s.threads[t], stored) && Progress(s.threads[t])
    ensures t in Step(c, s, e).threads && GoesOn(Step(c, s, e).threads[t], stored || e == StoreNew(t))
  {
    hide Disjoint, ParseJwksSpec, TryWith, FirstVerdict, WinnerInFlight;
  }

  lemma StartGoesOn(c: Config, s: State, e: Event, t: Tid)
    requires Enabled(s, e) && t !in s.threads && t in Step(c, s, e).threads
    ensures e != StoreNew(t) && GoesOn(Step(c, s, e).threads[t], false)
  {
    StepFrame(c, s, e);
  }

  lemma {:induction false} NoStoreBeforeStart(c: Config, s0: State, events: seq<Event>, s: State, t: Tid)
    requires Run(c, s0, events) == Some(s) && t !in s.threads
    ensures StoreNew(t) !in events
  {
    if events != [] {
      var init, last := events[..|events| - 1], events[|events| - 1];
      var before := Run(c, s0, init).value;
      assert Enabled(before, last) && s == Step(c, before, last);
      StepFrame(c, before, last);
      hide Run, Step, Act;
      NoStoreBeforeStart(c, s0, init, before, t);
    }
  }

  lemma {:induction false} RunGoesOn(c: Config, s0: State, events: seq<Event>, s: State, t: Tid)
    requires Reached(c, s0, events, s) && t in s.threads
    ensures GoesOn(s.threads[t], StoreNew(t) in events)
  {
    assert events != [];
    var init, last := events[..|events| - 1], events[|events| - 1];
    var before := Run(c, s0, init).value;
    assert Enabled(before, last) && s == Step(c, before, last) && events == init + [last];
    RunKeepsTokenInv(c, s0, init, before);
    assert t in before.threads ==> TokenTheorems.Settled(c, before, before.threads[t]);
    hide Initial, Enabled, Step, Act, TokenInv, GoesOn, Progress, Carries, Used;
    if t in before.threads {
      RunGoesOn(c, s0, init, before, t);
      hide Run;
      StepGoesOn(c, before, last, t, StoreNew(t) in init);
    } else {
      NoStoreBeforeStart(c, s0, init, before, t);
      hide Run;
      StartGoesOn(c, before, last, t);
    }
  }

  /** Once decided, a validation that won the slot has made its second attempt exactly if
      it installed what it fetched; and it is accepted whenever a candidate of the set it
      then loaded verifies. */
  lemma WinnerTriesAgainIff(c: Config, s0: State, events: seq<Event>, s: State, t: Tid)
    requires Reached(c, s0, events, s) && t in s.threads && s.threads[t].pc.Decided? && s.threads[t].attempt.Some?
    ensures
      var th := s.threads[t];
      && th.request.Some?
      && (th.second.Some? <==> StoreNew(t) in events)
      && (th.second.Some? ==>
            forall k | k in LookupCandidates(th.second.value, th.request.value.kid)
                       && th.request.value.verify(k).Verified? :: th.pc.verdict.Ok?)
  {
    RunGoesOn(c, s0, events, s, t);
    RunKeepsTokenInv(c, s0, events, s);
    var th := s.threads[t];
    assert TokenTheorems.Settled(c, s, th);
    hide Run, Initial, TokenInv;
    if th.second.Some? {
      var candidates := LookupCandidates(th.second.value, th.request.value.kid);
      forall k | k in candidates && th.request.value.verify(k).Verified? ensures th.pc.verdict.Ok? {
        var i :| 0 <= i < |candidates| && candidates[i] == k;
        if TryWith(th, th.second.value).Err? {
          Token.NoneVerified(candidates, th.request.value.verify, None, i);
        }
      }
    }
  }

  // ---- a rotated key is followed ----

  lemma FetchAndLook(c: Config, s: State, t: Tid, keys: seq<RawJwk>, jwks: Jwks)
    returns (events: seq<Event>, after: State)
    requires t in s.threads && s.threads[t].pc.Fetching? && s.threads[t].attempt.Some?
    requires ParseJwksSpec(c.sha256, keys) == Good(jwks) && Disjoint(CellOf(s, Other(s.threads[t].tag)).jwks, jwks)
    ensures events == [Fetched(t, keys), LookAtOther(t, true)] && Run(c, s, events) == Some(after)
    ensures t in after.threads && after.threads[t].pc.StoreOwn? && after.threads[t].pc.incoming == jwks
    ensures after.threads[t] == s.threads[t].(pc := after.threads[t].pc)
  {
    hide Run, Disjoint, ParseJwksSpec, TryWith, FirstVerdict, WinnerInFlight;
    RunTwo(c, s, Fetched(t, keys), LookAtOther(t, true));
    after := Step(c, Step(c, s, Fetched(t, keys)), LookAtOther(t, true));
    events := [Fetched(t, keys), LookAtOther(t, true)];
  }

  lemma StoreAndComplete(c: Config, s: State, t: Tid) returns (events: seq<Event>, after: State)
    requires t in s.threads && s.threads[t].pc.StoreOwn? && s.threads[t].attempt.Some?
    ensures events == [StoreNew(t), RecordCompletion(t)] && Run(c, s, events) == Some(after)
    ensures t in after.threads && after.threads[t] == s.threads[t].(pc := Retry)
    ensures CellOf(after, s.threads[t].tag).jwks == s.threads[t].pc.incoming
  {
    hide Run, Disjoint, ParseJwksSpec, TryWith, FirstVerdict, WinnerInFlight;
    RunTwo(c, s, StoreNew(t), RecordCompletion(t));
    after := Step(c, Step(c, s, StoreNew(t)), RecordCompletion(t));
    events := [StoreNew(t), RecordCompletion(t)];
  }

  lemma TriesAgain(c: Config, s: State, t: Tid, k: Jwk)
    requires t in s.threads && s.threads[t].pc.Retry? && s.threads[t].request.Some?
    requires k in LookupCandidates(CellOf(s, s.threads[t].tag).jwks, s.threads[t].request.value.kid)
    requires s.threads[t].request.value.verify(k).Verified?
    ensures Enabled(s, TryAgain(t)) && t in Step(c, s, TryAgain(t)).threads
    ensures
      var th := Step(c, s, TryAgain(t)).threads[t];
      th.pc.Decided? && th.pc.verdict.Ok? && th.second == Some(CellOf(s, s.threads[t].tag).jwks)
  {
    var th, jwks := s.threads[t], CellOf(s, s.threads[t].tag).jwks;
    var candidates := LookupCandidates(jwks, th.request.value.kid);
    var i :| 0 <= i < |candidates| && candidates[i] == k;
    if TryWith(th, jwks).Err? {
      Token.NoneVerified(candidates, th.request.value.verify, None, i);
    }
    hide Token.Scan, LookupCandidates;
  }

  /** A validation that has won the slot is accepted by its own next five steps when the
      provider serves a good document, disjoint from the other context, with a candidate
      that verifies: the set it fetched is the one it then tries. */
  lemma RotationIsFollowed(c: Config, s: State, t: Tid, keys: seq<RawJwk>, jwks: Jwks, k: Jwk)
    returns (events: seq<Event>, after: State)
    requires t in s.threads && s.threads[t].pc.Fetching? && s.threads[t].attempt.Some? && s.threads[t].request.Some?
    requires ParseJwksSpec(c.sha256, keys) == Good(jwks) && Disjoint(CellOf(s, Other(s.threads[t].tag)).jwks, jwks)
    requires k in LookupCandidates(jwks, s.threads[t].request.value.kid)
             && s.threads[t].request.value.verify(k).Verified?
    ensures |events| == 5 && (forall i | 0 <= i < 5 :: events[i].t == t) && Run(c, s, events) == Some(after)
    ensures t in after.threads && after.threads[t].pc.Decided? && after.threads[t].pc.verdict.Ok?
    ensures after.threads[t].second == Some(jwks)
  {
    hide Run, Disjoint, ParseJwksSpec, LookupCandidates;
    var first, mid := FetchAndLook(c, s, t, keys, jwks);
    var second, x := StoreAndComplete(c, mid, t);
    RunConcat(c, s, first, mid, second, x);
    TriesAgain(c, x, t, k);
    after := Step(c, x, TryAgain(t));
    RunAppend(c, s, first + second, x, TryAgain(t), after);
    events := first + second + [TryAgain(t)];
    hide Step, Enabled;
  }

  // ---- what a waiter waits for ----

  predicate Waits(pc: Pc) { pc.Claim? || pc.Check? || pc.Waiting? }

  lemma WaitsSince(c: Config, s: State, e: Event, t: Tid)
    requires Enabled(s, e) && t in Step(c, s, e).threads && Waits(Step(c, s, e).threads[t].pc)
    ensures t in s.threads && s.threads[t].tag == Step(c, s, e).threads[t].tag
    ensures if e == LoadLastClaim(t) then Step(c, s, e).threads[t].pc.prev == CellOf(s, s.threads[t].tag).lastClaim
            else Waits(s.threads[t].pc) && Step(c, s, e).threads[t].pc.prev == s.threads[t].pc.prev
  {
    hide Disjoint, ParseJwksSpec, TryWith, FirstVerdict, WinnerInFlight;
  }

  /** The snapshot a waiter compares completions with is the last claim of its context at
      the moment it loaded it. */
  lemma {:induction false} SnapshotIsLastClaim(c: Config, s0: State, events: seq<Event>, s: State, t: Tid)
    returns (i: nat)
    requires Reached(c, s0, events, s) && t in s.threads && Waits(s.threads[t].pc)
    ensures i < |events| && events[i] == LoadLastClaim(t) && Run(c, s0, events[..i]).Some?
    ensures s.threads[t].pc.prev == CellOf(Run(c, s0, events[..i]).value, s.threads[t].tag).lastClaim
  {
    assert events != [];
    var init, last := events[..|events| - 1], events[|events| - 1];
    var before := Run(c, s0, init).value;
    assert Enabled(before, last) && s == Step(c, before, last);
    WaitsSince(c, before, last, t);
    hide Initial, Enabled, Step, CellOf;
    if last == LoadLastClaim(t) {
      i := |events| - 1;
    } else {
      i := SnapshotIsLastClaim(c, s0, init, before, t);
      assert events[..i] == init[..i];
    }
  }

  // ---- every validation gets its verdict ----

  /** A step that takes its task with it: it vanishes, or parsing panics. */
  predicate Fatal(c: Config, e: Event) {
    e.Vanish? || (e.Fetched? && ParseJwksSpec(c.sha256, e.keys).Panics?)
  }

  lemma GoneOnlyThen(c: Config, s: State, e: Event, t: Tid)
    requires Enabled(s, e) && t in Step(c, s, e).threads && Step(c, s, e).threads[t].pc.Gone?
    ensures (e.t == t && Fatal(c, e)) || (t in s.threads && s.threads[t].pc.Gone?)
  {
    hide Disjoint, ParseJwksSpec, TryWith, FirstVerdict, WinnerInFlight;
  }

  /** A task is gone only after a fatal step of its own. */
  lemma {:induction false} GoneIsProvoked(c: Config, s0: State, events: seq<Event>, s: State, t: Tid) returns (i: nat)
    requires Reached(c, s0, events, s) && t in s.threads && s.threads[t].pc.Gone?
    ensures i < |events| && events[i].t == t && Fatal(c, events[i])
  {
    assert events != [];
    var init, last := events[..|events| - 1], events[|events| - 1];
    var before := Run(c, s0, init).value;
    assert Enabled(before, last) && s == Step(c, before, last);
    GoneOnlyThen(c, before, last, t);
    hide Initial, Enabled, Step, Fatal;
    if t in before.threads && before.threads[t].pc.Gone? {
      i := GoneIsProvoked(c, s0, init, before, t);
    } else {
      i := |events| - 1;
    }
  }

  function StepsLeft(pc: Pc): nat {
    match pc
    case FirstTry => 9
    case ReadClock => 8
    case LoadClaim(_) => 7
    case Claim(_, _) => 6
    case Check(_) => 5
    case Fetching => 5
    case Waiting(_) => 4
    case LoadOther(_) => 4
    case StoreOwn(_, _, _) => 3
    case Complete(_) => 2
    case Retry => 1
    case _ => 0
  }

  /** What a validation does next when its fetches fail. */
  function NextOf(th: Thread, t: Tid): Event {
    match th.pc
    case FirstTry => TryFirst(t)
    case ReadClock => Clock(t, 0)
    case LoadClaim(_) => LoadLastClaim(t)
    case Claim(_, _) => CompareAndSwap(t)
    case Fetching => FetchFails(t)
    case LoadOther(_) => LookAtOther(t, true)
    case StoreOwn(_, _, _) => StoreNew(t)
    case Complete(_) => RecordCompletion(t)
    case Retry => TryAgain(t)
    case _ => CheckCompletion(t)
  }

  lemma DecidesSooner(c: Config, s: State, t: Tid)
    requires t in s.threads && s.threads[t].request.Some? && Progress(s.threads[t])
    requires !s.threads[t].pc.Decided? && !s.threads[t].pc.Gone? && !s.threads[t].pc.Finished?
    ensures
      var e := NextOf(s.threads[t], t);
      && Enabled(s, e) && e.t == t && !Fatal(c, e) && t in Step(c, s, e).threads
      && var next := Step(c, s, e).threads[t];
      && next.request.Some? && !next.pc.Gone? && !next.pc.Finished?
      && StepsLeft(next.pc) < StepsLeft(s.threads[t].pc)
  {
    hide Disjoint, ParseJwksSpec, TryWith, FirstVerdict, WinnerInFlight;
  }

  /** A validation that may still be given a verdict. */
  predicate Alive(s: State, t: Tid) {
    t in s.threads && s.threads[t].request.Some? && !s.threads[t].pc.Gone? && !s.threads[t].pc.Finished?
  }

  lemma OneStep(c: Config, s: State, t: Tid) returns (e: Event, next: State)
    requires TokenInv(c, s) && Alive(s, t) && !s.threads[t].pc.Decided?
    ensures Run(c, s, [e]) == Some(next) && e.t == t && !Fatal(c, e)
    ensures TokenInv(c, next) && Alive(next, t)
    ensures StepsLeft(next.threads[t].pc) < StepsLeft(s.threads[t].pc)
  {
    SettledProgress(c, s, t);
    hide TokenInv, Progress, Run, NextOf, Step, Enabled, Fatal, StepsLeft;
    DecidesSooner(c, s, t);
    e := NextOf(s.threads[t], t);
    next := Step(c, s, e);
    StepKeepsTokenInv(c, s, e);
    RunOne(c, s, e);
  }

  lemma SettledProgress(c: Config, s: State, t: Tid)
    requires TokenInv(c, s) && t in s.threads
    ensures Progress(s.threads[t])
  {
    assert TokenTheorems.Settled(c, s, s.threads[t]);
    hide Progress;
  }

  lemma RunOne(c: Config, s: State, e: Event)
    requires Enabled(s, e)
    ensures Run(c, s, [e]) == Some(Step(c, s, e))
  {
    RunStart(c, s);
    RunAppend(c, s, [], s, e, Step(c, s, e));
    assert [] + [e] == [e];
    hide Run, Step, Enabled;
  }

  /** All steps of `t`'s own, none of them fatal. */
  predicate OnlyOwn(c: Config, events: seq<Event>, t: Tid) {
    forall i | 0 <= i < |events| :: events[i].t == t && !Fatal(c, events[i])
  }

  lemma OnlyOwnPrepend(c: Config, e: Event, rest: seq<Event>, t: Tid)
    requires e.t == t && !Fatal(c, e) && OnlyOwn(c, rest, t)
    ensures OnlyOwn(c, [e] + rest, t)
  {
    hide Fatal;
  }

  /** No validation is ever stuck: from every state the invariant allows, one that is not
      gone reaches a verdict by its own steps alone, none of them fatal, even if its fetch
      fails. */
  lemma {:induction false} CanDecide(c: Config, s: State, t: Tid) returns (events: seq<Event>, after: State)
    requires TokenInv(c, s) && Alive(s, t)
    ensures Run(c, s, events) == Some(after) && OnlyOwn(c, events, t)
    ensures t in after.threads && after.threads[t].pc.Decided?
    decreases StepsLeft(s.threads[t].pc)
  {
    RunStart(c, s);
    hide Run, TokenInv, Fatal, StepsLeft;
    if s.threads[t].pc.Decided? {
      events, after := [], s;
    } else {
      var e, next := OneStep(c, s, t);
      var rest, x := CanDecide(c, next, t);
      hide OnlyOwn, Alive;
      RunConcat(c, s, [e], next, rest, x);
      OnlyOwnPrepend(c, e, rest, t);
      events, after := [e] + rest, x;
    }
  }
}
