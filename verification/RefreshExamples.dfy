/** Runs of `Refresh` that show where two promises of the completion protocol stop:
    a waiter whose snapshot is 0, and winners that overlap. */
module RefreshExamples {
  import opened Prelude
  import opened Failure
  import opened JwksIndex
  import opened Contexts
  import opened Refresh
  import opened InstallTheorems
  import opened ClaimTheorems
  import Token

  /** A token validation in the vault context whose first attempt against `jwks` failed. */
  function Checker(request: Request, jwks: Jwks, refreshes: nat, attempt: Option<Attempt>, pc: Pc): Thread {
    Thread(Vault, Some(request), Some(jwks), None, refreshes, attempt, pc)
  }

  function Unverifiable(): Request { Request(None, (k: Jwk) => Token.KeyUnusable) }

  lemma {:induction false} NothingVerifies(candidates: seq<Jwk>)
    ensures Token.Scan(candidates, Unverifiable().verify, None) == Err(TokenSignatureInvalid)
  {
    if candidates != [] {
      NothingVerifies(candidates[1..]);
    }
  }

  lemma UnverifiableFails(th: Thread, jwks: Jwks)
    requires th.request == Some(Unverifiable())
    ensures TryWith(th, jwks) == Err(TokenSignatureInvalid)
  {
    NothingVerifies(LookupCandidates(jwks, None));
  }

  /** A token validation that starts in the vault context and fails its first attempt. */
  lemma OneChecker(c: Config, s0: State, before: seq<Event>, s: State, t: Tid)
    returns (events: seq<Event>, after: State)
    requires Run(c, s0, before) == Some(s) && t !in s.threads
    ensures Run(c, s0, events) == Some(after)
    ensures after == s.(threads := s.threads[t := Checker(Unverifiable(), s.vault.jwks, 0, None, ReadClock)],
                       steps := s.steps + 2)
  {
    hide Run, FirstVerdict, WinnerInFlight, TryWith, Unverifiable;
    var r := Unverifiable();
    var begun := Thread(Vault, Some(r), None, None, 0, None, FirstTry);
    UnverifiableFails(begun, s.vault.jwks);
    var s1 := s.(threads := s.threads[t := begun], steps := s.steps + 1);
    RunAppend(c, s0, before, s, StartToken(t, Vault, r), s1);
    after := s.(threads := s.threads[t := Checker(r, s.vault.jwks, 0, None, ReadClock)], steps := s.steps + 2);
    assert s1.threads[t := after.threads[t]] == after.threads;
    RunAppend(c, s0, before + [StartToken(t, Vault, r)], s1, TryFirst(t), after);
    events := before + [StartToken(t, Vault, r)] + [TryFirst(t)];
  }

  /** Two token validations in the vault context, both about to ask for a refresh. */
  lemma TwoCheckers(c: Config, s0: State) returns (events: seq<Event>, s: State)
    requires Initial(c, s0)
    ensures Run(c, s0, events) == Some(s)
    ensures var checker := Checker(Unverifiable(), s0.vault.jwks, 0, None, ReadClock);
            s == State(s0.vault, s0.admin, map[0 := checker, 1 := checker], 6)
  {
    RunStart(c, s0);
    assert s0.threads == map[] && s0.steps == 2;
    hide Initial, Run, Unverifiable;
    var e1, s1 := OneChecker(c, s0, [], s0, 0);
    events, s := OneChecker(c, s0, e1, s1, 1);
  }

  /** One checker reads the clock and finds the slot free. */
  lemma ReadsAndLoads(c: Config, s0: State, before: seq<Event>, s: State, t: Tid,
                      request: Request, jwks: Jwks, now: U64)
    returns (events: seq<Event>, after: State)
    requires Run(c, s0, before) == Some(s) && t in s.threads
    requires s.threads[t] == Checker(request, jwks, 0, None, ReadClock)
    requires now >= SaturatingAdd(s.vault.lastClaim, c.interval)
    ensures Run(c, s0, events) == Some(after)
    ensures after == s.(threads := s.threads[t := Checker(request, jwks, 1, None, Claim(now, s.vault.lastClaim))],
                       steps := s.steps + 2)
  {
    hide Run, FirstVerdict, WinnerInFlight, TryWith;
    var s1 := s.(threads := s.threads[t := Checker(request, jwks, 1, None, LoadClaim(now))], steps := s.steps + 1);
    RunAppend(c, s0, before, s, Clock(t, now), s1);
    after := s.(threads := s.threads[t := Checker(request, jwks, 1, None, Claim(now, s.vault.lastClaim))],
                       steps := s.steps + 2);
    assert s1.threads[t := after.threads[t]] == after.threads;
    RunAppend(c, s0, before + [Clock(t, now)], s1, LoadLastClaim(t), after);
    events := before + [Clock(t, now)] + [LoadLastClaim(t)];
  }

  /** A checker that has loaded a claim time loses the slot and looks at the completion time. */
  lemma LosesAndChecks(c: Config, s0: State, before: seq<Event>, s: State, t: Tid)
    returns (events: seq<Event>, after: State)
    requires Run(c, s0, before) == Some(s) && t in s.threads
    requires s.threads[t].tag == Vault && s.threads[t].pc.Claim? && s.threads[t].pc.prev <= s.vault.lastDone
    requires s.vault.lastClaim != s.threads[t].pc.prev
    ensures Run(c, s0, events) == Some(after)
    ensures after == s.(threads := s.threads[t := s.threads[t].(pc := Retry)], steps := s.steps + 2)
  {
    hide Run, FirstVerdict, WinnerInFlight, TryWith;
    var prev := s.threads[t].pc.prev;
    var s1 := s.(threads := s.threads[t := s.threads[t].(pc := Check(prev))], steps := s.steps + 1);
    RunAppend(c, s0, before, s, CompareAndSwap(t), s1);
    after := s.(threads := s.threads[t := s.threads[t].(pc := Retry)], steps := s.steps + 2);
    assert s1.threads[t := after.threads[t]] == after.threads;
    RunAppend(c, s0, before + [CompareAndSwap(t)], s1, CheckCompletion(t), after);
    events := before + [CompareAndSwap(t)] + [CheckCompletion(t)];
  }

  /** With a snapshot of 0 a waiter may retry at once: here the other validation has just
      won the slot, its fetch has not returned, and no attempt has ever ended. */
  lemma EarlyLoserRetriesTooSoon(c: Config, s0: State) returns (events: seq<Event>, s: State)
    requires Initial(c, s0) && c.interval > 0
    ensures Reached(c, s0, events, s)
    ensures 0 in s.threads && s.threads[0].pc.Fetching? && s.vault.ended == []
    ensures 1 in s.threads && s.threads[1].pc.Retry?
  {
    var e0, b := TwoCheckers(c, s0);
    assert s0.vault.lastClaim == 0 && s0.vault.lastDone == 0 && s0.vault.claims == [] && s0.vault.ended == [];
    hide Initial, Run, FirstVerdict, WinnerInFlight, TryWith, Unverifiable;
    var r, j, now := Unverifiable(), s0.vault.jwks, c.interval;
    var e1, s1 := ReadsAndLoads(c, s0, e0, b, 0, r, j, now);
    var e2, s2 := ReadsAndLoads(c, s0, e1, s1, 1, r, j, now);
    var s3 := Step(c, s2, CompareAndSwap(0));
    RunAppend(c, s0, e2, s2, CompareAndSwap(0), s3);
    assert s3.threads[0].pc == Fetching && s3.vault.lastClaim == now && s3.vault.ended == [] && s3.vault.lastDone == 0;
    assert s3.threads[1] == Checker(r, j, 1, None, Claim(now, 0));
    hide Step, Enabled;
    events, s := LosesAndChecks(c, s0, e2 + [CompareAndSwap(0)], s3, 1);
  }

  /** The first validation wins the slot; an interval later, with that fetch still out,
      the second wins it too. */
  lemma TwoWinners(c: Config, s0: State) returns (events: seq<Event>, s: State)
    requires Initial(c, s0) && 0 < c.interval && 2 * c.interval <= U64_MAX
    ensures Run(c, s0, events) == Some(s)
    ensures
      var r, j := Unverifiable(), s0.vault.jwks;
      && s.threads == map[0 := Checker(r, j, 1, Some(Attempt(0, c.interval)), Fetching),
                          1 := Checker(r, j, 1, Some(Attempt(1, 2 * c.interval)), Fetching)]
  {
    var e0, b := TwoCheckers(c, s0);
    assert s0.vault.lastClaim == 0 && s0.vault.claims == [];
    hide Initial, Run, FirstVerdict, WinnerInFlight, TryWith, Unverifiable;
    var r, j := Unverifiable(), s0.vault.jwks;
    var e1, s1 := ReadsAndLoads(c, s0, e0, b, 0, r, j, c.interval);
    var s2 := Step(c, s1, CompareAndSwap(0));
    RunAppend(c, s0, e1, s1, CompareAndSwap(0), s2);
    assert s2.vault.lastClaim == c.interval && |s2.vault.claims| == 1;
    assert s2.threads[0] == Checker(r, j, 1, Some(Attempt(0, c.interval)), Fetching);
    var e3, s3 := ReadsAndLoads(c, s0, e1 + [CompareAndSwap(0)], s2, 1, r, j, 2 * c.interval);
    s := Step(c, s3, CompareAndSwap(1));
    RunAppend(c, s0, e3, s3, CompareAndSwap(1), s);
    events := e3 + [CompareAndSwap(1)];
    assert s.threads[1] == Checker(r, j, 1, Some(Attempt(1, 2 * c.interval)), Fetching);
  }

  /** An attempt in flight can always be brought to where it records its completion. */
  lemma CanEnd(c: Config, s: State, t: Tid) returns (events: seq<Event>, after: State)
    requires t in s.threads && InFlight(s.threads[t])
    ensures Run(c, s, events) == Some(after) && after.threads.Keys == s.threads.Keys
    ensures forall v | v in s.threads && v != t :: after.threads[v] == s.threads[v]
    ensures after.threads[t] == s.threads[t].(pc := after.threads[t].pc) && after.threads[t].pc.Complete?
    ensures forall tag :: CellOf(after, tag).lastDone == CellOf(s, tag).lastDone
  {
    RunStart(c, s);
    hide Run, Disjoint, ParseJwksSpec, FirstVerdict, WinnerInFlight, TryWith;
    if s.threads[t].pc.Complete? {
      events, after := [], s;
    } else {
      var e := match s.threads[t].pc
        case Fetching => FetchFails(t)
        case LoadOther(_) => LookAtOther(t, false)
        case _ => StoreNew(t);
      after := Step(c, s, e);
      RunAppend(c, s, [], s, e, after);
      events := [] + [e];
    }
  }

  lemma CanRecord(c: Config, s: State, t: Tid) returns (events: seq<Event>, after: State)
    requires t in s.threads && InFlight(s.threads[t])
    ensures Run(c, s, events) == Some(after)
    ensures forall v | v in s.threads && v != t :: v in after.threads && after.threads[v] == s.threads[v]
    ensures CellOf(after, s.threads[t].tag).lastDone == s.threads[t].attempt.value.claim
  {
    var ends, mid := CanEnd(c, s, t);
    hide Run, Disjoint, ParseJwksSpec, FirstVerdict, WinnerInFlight, TryWith;
    after := Step(c, mid, RecordCompletion(t));
    RunAppend(c, s, ends, mid, RecordCompletion(t), after);
    events := ends + [RecordCompletion(t)];
  }

  /** Of two attempts in flight, the one claimed earlier can end last. */
  lemma EarlierCanEndLast(c: Config, s: State, t: Tid, u: Tid) returns (events: seq<Event>, after: State)
    requires t in s.threads && u in s.threads && s.threads[t].tag == s.threads[u].tag
    requires InFlight(s.threads[t]) && InFlight(s.threads[u])
    requires s.threads[t].attempt.value.claim < s.threads[u].attempt.value.claim
    ensures Run(c, s, events) == Some(after) && Enabled(after, RecordCompletion(t))
    ensures
      var tag := s.threads[t].tag;
      CellOf(Step(c, after, RecordCompletion(t)), tag).lastDone < CellOf(after, tag).lastDone
  {
    hide Run, Disjoint, ParseJwksSpec, FirstVerdict, WinnerInFlight, TryWith;
    var first, mid := CanRecord(c, s, u);
    var second, x := CanEnd(c, mid, t);
    RunConcat(c, s, first, mid, second, x);
    events, after := first + second, x;
  }

  /** The converse of `CompletionIsMonotone`: from every reachable state in which two
      winners of one context are in flight, and the clock has room for another interval,
      some continuation decreases the completion time. */
  lemma OverlapCanGoBack(c: Config, s0: State, before: seq<Event>, s: State, t: Tid, u: Tid)
    returns (events: seq<Event>, after: State, last: Tid)
    requires Reached(c, s0, before, s) && t != u && t in s.threads && u in s.threads
    requires s.threads[t].tag == s.threads[u].tag && InFlight(s.threads[t]) && InFlight(s.threads[u])
    requires 0 < c.interval && CellOf(s, s.threads[t].tag).lastClaim + c.interval <= U64_MAX
    ensures Reached(c, s0, events, after) && before <= events && Enabled(after, RecordCompletion(last))
    ensures
      var tag := s.threads[t].tag;
      CellOf(Step(c, after, RecordCompletion(last)), tag).lastDone < CellOf(after, tag).lastDone
  {
    WinnersDiffer(c, s0, before, s, t, u);
    hide Run, Initial, InFlight;
    var early, late := t, u;
    if s.threads[u].attempt.value.claim < s.threads[t].attempt.value.claim {
      early, late := u, t;
    }
    var more, x := EarlierCanEndLast(c, s, early, late);
    RunConcat(c, s0, before, s, more, x);
    events, after, last := before + more, x, early;
  }

  lemma WinnersDiffer(c: Config, s0: State, before: seq<Event>, s: State, t: Tid, u: Tid)
    requires Reached(c, s0, before, s) && t != u && t in s.threads && u in s.threads
    requires s.threads[t].tag == s.threads[u].tag && InFlight(s.threads[t]) && InFlight(s.threads[u])
    requires 0 < c.interval && CellOf(s, s.threads[t].tag).lastClaim + c.interval <= U64_MAX
    ensures s.threads[t].attempt.value.claim != s.threads[u].attempt.value.claim
  {
    RunKeepsClaimInv(c, s0, before, s);
    var cell := CellOf(s, s.threads[t].tag);
    assert Recorded(c, cell) && Apart(s.threads[t], s.threads[u]);
    assert Owns(c, cell, s.threads[t]) && Owns(c, cell, s.threads[u]);
    hide Run, Initial, ClaimInv, Spaced;
    var i, j := s.threads[t].attempt.value.index, s.threads[u].attempt.value.index;
    if i < j {
      StrictlySorted(c.interval, cell.claims, i, j);
    } else {
      StrictlySorted(c.interval, cell.claims, j, i);
    }
  }

  /** Such states are reached: a run in which the completion time goes back. */
  lemma OverlappingWinnersGoBack(c: Config, s0: State) returns (events: seq<Event>, s: State)
    requires Initial(c, s0) && 0 < c.interval && 2 * c.interval <= U64_MAX
    ensures Reached(c, s0, events, s) && Enabled(s, RecordCompletion(0))
    ensures Step(c, s, RecordCompletion(0)).vault.lastDone < s.vault.lastDone
  {
    var before, mid := TwoWinners(c, s0);
    hide Initial, Run, TryWith, Unverifiable;
    var more, x := EarlierCanEndLast(c, mid, 0, 1);
    RunConcat(c, s0, before, mid, more, x);
    events, s := before + more, x;
  }
}
