/** The on-demand rate limit and the completion protocol over whole runs of `Refresh`. */
module ClaimTheorems {
  import opened Prelude
  import opened JwksIndex
  import opened Contexts
  import opened Refresh
  import opened InstallTheorems

  // ---- one context's record of attempts ----

  function LastOr0(claims: seq<U64>): U64 {
    if claims == [] then 0 else claims[|claims| - 1]
  }

  /** Each claim waited for its predecessor's interval, as far as `u64` can tell. */
  ghost predicate Spaced(interval: U64, claims: seq<U64>) {
    && (claims != [] ==> claims[0] >= interval)
    && (forall i | 0 <= i < |claims| - 1 :: claims[i + 1] >= SaturatingAdd(claims[i], interval))
  }

  ghost predicate Distinct(s: seq<nat>) {
    forall i, j | 0 <= i < j < |s| :: s[i] != s[j]
  }

  ghost predicate Below(s: seq<nat>, n: nat) {
    forall i | 0 <= i < |s| :: s[i] < n
  }

  ghost predicate Increasing(s: seq<nat>) {
    forall i, j | 0 <= i < j < |s| :: s[i] < s[j]
  }

  ghost predicate Recorded(c: Config, cell: Cell) {
    && cell.lastClaim == LastOr0(cell.claims)
    && Spaced(c.interval, cell.claims)
    && Distinct(cell.fetched) && Below(cell.fetched, |cell.claims|)
    && Distinct(cell.ended) && Below(cell.ended, |cell.claims|)
    && cell.lastDone == (if cell.ended == [] then 0 else cell.claims[cell.ended[|cell.ended| - 1]])
    && (!cell.overlapped ==> Increasing(cell.ended))
  }

  /** A thread that may claim has waited; one that has claimed keeps its attempt, which
      has not ended while it is in flight, and until it fetches has not fetched. */
  ghost predicate Owns(c: Config, cell: Cell, th: Thread) {
    && (th.pc.Claim? ==> th.pc.now >= SaturatingAdd(th.pc.prev, c.interval))
    && (th.attempt.Some? ==>
          && th.attempt.value.index < |cell.claims|
          && cell.claims[th.attempt.value.index] == th.attempt.value.claim
          && !BeforeClaim(th.pc))
    && (InFlight(th) ==>
          && th.attempt.value.index !in cell.ended
          && (th.pc.Fetching? ==> th.attempt.value.index !in cell.fetched)
          && (!cell.overlapped ==> th.attempt.value.index == |cell.claims| - 1))
  }

  /** Two threads that have claimed in one context have claimed different attempts. */
  predicate Apart(a: Thread, b: Thread) {
    a.tag == b.tag && a.attempt.Some? && b.attempt.Some? ==> a.attempt.value.index != b.attempt.value.index
  }

  ghost predicate ClaimInv(c: Config, s: State) {
    && Recorded(c, s.vault) && Recorded(c, s.admin)
    && (forall t | t in s.threads :: Owns(c, CellOf(s, s.threads[t].tag), s.threads[t]))
    && (forall t, u | t in s.threads && u in s.threads && t != u :: Apart(s.threads[t], s.threads[u]))
  }

  // ---- one event ----

  lemma CellStaysRecorded(c: Config, s: State, e: Event)
    requires Enabled(s, e) && Recorded(c, CellOf(s, Act(c, s, e).0.tag))
    requires e.t in s.threads ==> Owns(c, CellOf(s, s.threads[e.t].tag), s.threads[e.t])
    ensures Recorded(c, Act(c, s, e).1)
  {
    hide Disjoint, ParseJwksSpec, TryWith, FirstVerdict, WinnerInFlight;
  }

  lemma OwnOwns(c: Config, s: State, e: Event)
    requires Enabled(s, e) && Recorded(c, CellOf(s, Act(c, s, e).0.tag))
    requires e.t in s.threads ==> Owns(c, CellOf(s, s.threads[e.t].tag), s.threads[e.t])
    ensures Owns(c, Act(c, s, e).1, Act(c, s, e).0)
  {
    hide Disjoint, ParseJwksSpec, TryWith, FirstVerdict, WinnerInFlight;
  }

  lemma OtherOwns(c: Config, s: State, e: Event, u: Tid)
    requires Enabled(s, e) && u in s.threads && u != e.t
    requires Owns(c, CellOf(s, s.threads[u].tag), s.threads[u])
    requires e.t in s.threads ==>
               Owns(c, CellOf(s, s.threads[e.t].tag), s.threads[e.t]) && Apart(s.threads[e.t], s.threads[u])
    ensures Owns(c, CellOf(Step(c, s, e), s.threads[u].tag), s.threads[u])
    ensures Apart(Act(c, s, e).0, s.threads[u])
  {
    hide Disjoint, ParseJwksSpec, TryWith, FirstVerdict;
  }

  lemma StepKeepsApart(c: Config, s: State, e: Event, t: Tid, u: Tid)
    requires ClaimInv(c, s) && Enabled(s, e) && t != u
    requires t in Step(c, s, e).threads && u in Step(c, s, e).threads
    ensures Apart(Step(c, s, e).threads[t], Step(c, s, e).threads[u])
  {
    StepFrame(c, s, e);
    hide Step, Act, Enabled, Recorded, Owns, Apart;
    if e.t == t {
      OtherOwns(c, s, e, u);
    } else if e.t == u {
      OtherOwns(c, s, e, t);
      ApartFlips(s.threads[t], Step(c, s, e).threads[u]);
    }
  }

  lemma StepKeepsClaimInv(c: Config, s: State, e: Event)
    requires ClaimInv(c, s) && Enabled(s, e)
    ensures ClaimInv(c, Step(c, s, e))
  {
    var after := Step(c, s, e);
    forall t, u | t in after.threads && u in after.threads && t != u ensures Apart(after.threads[t], after.threads[u]) {
      StepKeepsApart(c, s, e, t, u);
    }
    StepFrame(c, s, e);
    hide Step, Act, Enabled, Recorded, Owns, Apart;
    CellStaysRecorded(c, s, e);
    OwnOwns(c, s, e);
    forall u | u in s.threads && u != e.t ensures Owns(c, CellOf(after, s.threads[u].tag), s.threads[u]) {
      OtherOwns(c, s, e, u);
    }
  }

  lemma ApartFlips(a: Thread, b: Thread)
    ensures Apart(a, b) == Apart(b, a)
  {
  }

  lemma {:induction false} RunKeepsClaimInv(c: Config, s0: State, events: seq<Event>, s: State)
    requires Reached(c, s0, events, s)
    ensures ClaimInv(c, s)
  {
    if events != [] {
      var before := Run(c, s0, events[..|events| - 1]).value;
      var last := events[|events| - 1];
      assert Enabled(before, last) && s == Step(c, before, last);
      hide Initial, ClaimInv, Enabled, Step;
      RunKeepsClaimInv(c, s0, events[..|events| - 1], before);
      StepKeepsClaimInv(c, before, last);
    } else {
      hide Parsed, Disjoint;
    }
  }

  lemma CellRecorded(c: Config, s0: State, events: seq<Event>, s: State, tag: Tag)
    requires Reached(c, s0, events, s)
    ensures Recorded(c, CellOf(s, tag))
  {
    RunKeepsClaimInv(c, s0, events, s);
    hide Run, Initial, Recorded;
  }

  // ---- the rate limit ----

  /** Successive claims of a context are at least the interval apart, over every
      interleaving and whatever the clock shows, exactly when the earlier claim plus the
      interval still fits in a `u64`. */
  lemma ClaimGapIff(c: Config, s0: State, events: seq<Event>, s: State, tag: Tag, i: nat)
    requires Reached(c, s0, events, s) && i + 1 < |CellOf(s, tag).claims|
    ensures CellOf(s, tag).claims[i + 1] - CellOf(s, tag).claims[i] >= c.interval
       <==> CellOf(s, tag).claims[i] + c.interval <= U64_MAX
  {
    CellRecorded(c, s0, events, s, tag);
    hide Run, Initial;
  }

  /** The positions below `n` of claims made within [a, b]. */
  ghost function Within(claims: seq<U64>, n: nat, a: int, b: int): set<nat>
    requires n <= |claims|
  {
    set i: nat | i < n && a <= claims[i] <= b
  }

  /** How many claims an interval `k` leaves room for in a stretch of length `x`. */
  function Quota(x: int, k: int): int
    requires k > 0
  {
    if x < 0 then 0 else x / k + 1
  }

  lemma QuotaStep(x: int, y: int, k: int)
    requires 0 < k && 0 <= x && y + k <= x
    ensures Quota(y, k) + 1 <= Quota(x, k)
  {
    assert x / k >= 0 by {
      QuotientIsNat(x, k);
    }
    if 0 <= y && x / k <= y / k {
      MulMono(k, x / k, y / k);
    }
  }

  lemma QuotaIsNat(x: int, k: int)
    requires 0 < k
    ensures Quota(x, k) >= 0
  {
    if 0 <= x {
      QuotientIsNat(x, k);
    }
  }

  lemma QuotientIsNat(x: int, k: int)
    requires 0 < k && 0 <= x
    ensures x / k >= 0
  {
  }

  lemma MulMono(k: int, x: int, y: int)
    requires 0 < k && x <= y
    ensures k * x <= k * y
  {
  }

  lemma {:induction false} SortedClaims(interval: U64, claims: seq<U64>, i: nat, j: nat)
    requires Spaced(interval, claims) && i < j < |claims|
    ensures claims[i] <= claims[j]
    ensures claims[j] + interval <= U64_MAX ==> claims[i] + interval <= claims[j]
  {
    if i + 1 < j {
      SortedClaims(interval, claims, i, j - 1);
    }
    assert claims[j - 1 + 1] >= SaturatingAdd(claims[j - 1], interval);
  }

  lemma WithinSplit(claims: seq<U64>, n: nat, a: int, b: int)
    requires 0 < n <= |claims|
    ensures
      var rest := Within(claims, n - 1, a, b);
      Within(claims, n, a, b) == if a <= claims[n - 1] <= b then rest + {n - 1} else rest
  {
  }

  lemma WithinStep(claims: seq<U64>, n: nat, a: int, b: int)
    requires 0 < n <= |claims|
    ensures !(a <= claims[n - 1] <= b) ==> Within(claims, n, a, b) == Within(claims, n - 1, a, b)
    ensures |Within(claims, n, a, b)| <= |Within(claims, n - 1, a, b)| + 1
  {
    WithinSplit(claims, n, a, b);
    hide Within;
  }

  /** All earlier claims in the range lie an interval below the last one. */
  lemma WithinNarrows(interval: U64, claims: seq<U64>, n: nat, a: int, b: int)
    requires Spaced(interval, claims) && 0 < n <= |claims|
    requires claims[n - 1] <= b && b + interval <= U64_MAX
    ensures Within(claims, n - 1, a, b) == Within(claims, n - 1, a, claims[n - 1] - interval)
  {
    forall i: nat | i < n - 1 ensures claims[i] <= claims[n - 1] - interval {
      SortedClaims(interval, claims, i, n - 1);
    }
  }

  lemma {:induction false} CountWithin(interval: U64, claims: seq<U64>, n: nat, a: int, b: int)
    requires interval > 0 && Spaced(interval, claims) && n <= |claims|
    requires b + interval <= U64_MAX
    ensures |Within(claims, n, a, b)| <= Quota(b - a, interval)
    decreases n
  {
    hide Quota, Spaced;
    QuotaIsNat(b - a, interval);
    if n == 0 || a > b {
      assert Within(claims, n, a, b) == {};
    } else {
      hide Within;
      WithinStep(claims, n, a, b);
      if a <= claims[n - 1] <= b {
        var limit := claims[n - 1] - interval;
        WithinNarrows(interval, claims, n, a, b);
        CountWithin(interval, claims, n - 1, a, limit);
        QuotaStep(b - a, limit - a, interval);
      } else {
        CountWithin(interval, claims, n - 1, a, b);
      }
    }
  }

  /** The validations whose refresh was claimed within [a, b], and has therefore sent its
      fetch: still out, returned or abandoned. */
  ghost function Launched(s: State, tag: Tag, a: int, b: int): set<Tid> {
    set t | t in s.threads && s.threads[t].tag == tag && s.threads[t].attempt.Some?
            && a <= s.threads[t].attempt.value.claim <= b
  }

  /** Threads with different attempts are no more than the attempts. */
  lemma {:induction false} DistinctAttempts(s: State, threads: set<Tid>, attempts: set<nat>)
    requires forall t | t in threads ::
               t in s.threads && s.threads[t].attempt.Some? && s.threads[t].attempt.value.index in attempts
    requires forall t, u | t in threads && u in threads && t != u ::
               s.threads[t].attempt.value.index != s.threads[u].attempt.value.index
    ensures |threads| <= |attempts|
    decreases threads
  {
    if t :| t in threads {
      DistinctAttempts(s, threads - {t}, attempts - {s.threads[t].attempt.value.index});
    }
  }

  /** A context makes at most (b - a) / interval + 1 claims within [a, b], and so launches
      at most as many on-demand fetches whose claims fall there, counting those still out
      and those whose task has vanished; and every attempt's fetch returns at most once. */
  lemma FetchesWithin(c: Config, s0: State, events: seq<Event>, s: State, tag: Tag, a: nat, b: nat)
    requires Reached(c, s0, events, s) && c.interval > 0
    requires a <= b && b + c.interval <= U64_MAX
    ensures
      var cell := CellOf(s, tag);
      && |Within(cell.claims, |cell.claims|, a, b)| <= (b - a) / c.interval + 1
      && |Launched(s, tag, a, b)| <= (b - a) / c.interval + 1
      && Distinct(cell.fetched) && Below(cell.fetched, |cell.claims|)
      && |set i | i in cell.fetched && i < |cell.claims| && a <= cell.claims[i] <= b| <= (b - a) / c.interval + 1
  {
    RunKeepsClaimInv(c, s0, events, s);
    hide Run, Initial;
    var cell := CellOf(s, tag);
    var returned := set i | i in cell.fetched && i < |cell.claims| && a <= cell.claims[i] <= b;
    var within, launched := Within(cell.claims, |cell.claims|, a, b), Launched(s, tag, a, b);
    assert Recorded(c, cell);
    CountWithin(c.interval, cell.claims, |cell.claims|, a, b);
    assert within == returned + (within - returned);
    forall t | t in launched ensures s.threads[t].attempt.value.index in within {
      assert Owns(c, cell, s.threads[t]);
    }
    forall t, u | t in launched && u in launched && t != u
      ensures s.threads[t].attempt.value.index != s.threads[u].attempt.value.index
    {
      assert Apart(s.threads[t], s.threads[u]);
    }
    hide Recorded, Owns, ClaimInv;
    DistinctAttempts(s, launched, within);
  }

  // ---- completion ----

  /** `last_refresh_completed` is 0 until an attempt has ended, and then the claim of an
      attempt whose fetch and install are over; it never exceeds the last claim. */
  lemma CompletionIsOfAnEndedAttempt(c: Config, s0: State, events: seq<Event>, s: State, tag: Tag)
    requires Reached(c, s0, events, s)
    ensures
      var cell := CellOf(s, tag);
      && cell.lastDone <= cell.lastClaim
      && (cell.ended == [] ==> cell.lastDone == 0)
      && (cell.ended != [] ==>
            var index := cell.ended[|cell.ended| - 1];
            && index < |cell.claims| && cell.lastDone == cell.claims[index]
            && forall t | t in s.threads && s.threads[t].tag == tag && InFlight(s.threads[t]) ::
                 s.threads[t].attempt.value.index != index)
  {
    RunKeepsClaimInv(c, s0, events, s);
    hide Run, Initial;
    var cell := CellOf(s, tag);
    assert Recorded(c, cell);
    if cell.ended != [] {
      var index := cell.ended[|cell.ended| - 1];
      if index < |cell.claims| - 1 {
        SortedClaims(c.interval, cell.claims, index, |cell.claims| - 1);
      }
      forall t | t in s.threads && s.threads[t].tag == tag && InFlight(s.threads[t])
        ensures s.threads[t].attempt.value.index != index
      {
        assert Owns(c, CellOf(s, s.threads[t].tag), s.threads[t]);
      }
    }
  }

  /** Some attempt claimed at or after `prev` has ended. */
  ghost predicate EndedSince(cell: Cell, prev: U64) {
    exists k :: 0 <= k < |cell.ended| && cell.ended[k] < |cell.claims| && cell.claims[cell.ended[k]] >= prev
  }

  /** The promise of the waiting path, "may retry" only once an attempt claimed at or
      after the snapshot has ended, is kept exactly when the snapshot is positive or some
      attempt has ended already. */
  lemma LoserGuaranteeIff(c: Config, s0: State, events: seq<Event>, s: State, t: Tid)
    requires Reached(c, s0, events, s) && Enabled(s, CheckCompletion(t))
    ensures
      var cell, prev := CellOf(s, s.threads[t].tag), s.threads[t].pc.prev;
      var mayRetry := Step(c, s, CheckCompletion(t)).threads[t].pc.Retry?;
      && (mayRetry <==> cell.lastDone >= prev)
      && (!mayRetry ==>
            Step(c, s, CheckCompletion(t)).threads[t].pc ==
              if s.threads[t].pc.Check? then Waiting(prev) else Decided(FirstVerdict(s.threads[t])))
      && ((mayRetry ==> EndedSince(cell, prev)) <==> prev > 0 || cell.ended != [])
  {
    var cell, prev := CellOf(s, s.threads[t].tag), s.threads[t].pc.prev;
    CellRecorded(c, s0, events, s, s.threads[t].tag);
    hide Run, Initial, TryWith, FirstVerdict, Disjoint, ParseJwksSpec;
    if cell.ended != [] {
      var k := |cell.ended| - 1;
      assert cell.claims[cell.ended[k]] == cell.lastDone;
      if cell.lastDone >= prev {
        assert EndedSince(cell, prev);
      }
    }
  }

  /** Without overlapping winners the completion time never decreases. */
  lemma CompletionIsMonotone(c: Config, s0: State, events: seq<Event>, s: State, e: Event, tag: Tag)
    requires Reached(c, s0, events, s) && Enabled(s, e)
    requires !CellOf(Step(c, s, e), tag).overlapped
    ensures CellOf(Step(c, s, e), tag).lastDone >= CellOf(s, tag).lastDone
  {
    var after := Step(c, s, e);
    RunKeepsClaimInv(c, s0, events, s);
    StepKeepsClaimInv(c, s, e);
    RecordsGrow(c, s, e, tag);
    assert Recorded(c, CellOf(s, tag)) && Recorded(c, CellOf(after, tag));
    var cell, next := CellOf(s, tag), CellOf(after, tag);
    hide Run, Initial, Step, Enabled, ClaimInv;
    if next.ended != cell.ended && cell.ended != [] {
      hide Recorded, CellOf;
      LatestIsHighest(c, cell, next);
    }
  }

  lemma LatestIsHighest(c: Config, cell: Cell, next: Cell)
    requires Recorded(c, cell) && Recorded(c, next) && !next.overlapped
    requires cell.claims <= next.claims && cell.ended != []
    requires cell.ended <= next.ended && |next.ended| == |cell.ended| + 1
    ensures next.lastDone >= cell.lastDone
  {
    var k := |cell.ended|;
    assert next.ended[k - 1] == cell.ended[k - 1] < next.ended[k];
    SortedClaims(c.interval, next.claims, next.ended[k - 1], next.ended[k]);
  }

  lemma RecordsGrow(c: Config, s: State, e: Event, tag: Tag)
    requires Enabled(s, e)
    ensures
      var cell, next := CellOf(s, tag), CellOf(Step(c, s, e), tag);
      && cell.claims <= next.claims
      && (next.ended == cell.ended || (|next.ended| == |cell.ended| + 1 && cell.ended <= next.ended))
      && (next.ended == cell.ended ==> next.lastDone == cell.lastDone)
  {
    hide Disjoint, ParseJwksSpec, TryWith, FirstVerdict, WinnerInFlight;
  }

  /** Over a whole run, the completion times a context recorded never decrease exactly
      when its attempts ended in the order in which they were claimed. */
  lemma CompletionsMonotoneIff(c: Config, s0: State, events: seq<Event>, s: State, tag: Tag)
    requires Reached(c, s0, events, s) && c.interval > 0
    requires CellOf(s, tag).lastClaim + c.interval <= U64_MAX
    ensures
      var cell := CellOf(s, tag);
      && Below(cell.ended, |cell.claims|)
      && ((forall i, j | 0 <= i < j < |cell.ended| :: cell.claims[cell.ended[i]] <= cell.claims[cell.ended[j]])
            <==> Increasing(cell.ended))
  {
    CellRecorded(c, s0, events, s, tag);
    var cell := CellOf(s, tag);
    hide Run, Initial;
    forall x: nat, y: nat | x < y < |cell.claims| ensures cell.claims[x] < cell.claims[y] {
      StrictlySorted(c.interval, cell.claims, x, y);
    }
    hide Recorded, Spaced;
    assert Distinct(cell.ended) && Below(cell.ended, |cell.claims|) by {
      EndedOnce(c, cell);
    }
  }

  lemma EndedOnce(c: Config, cell: Cell)
    requires Recorded(c, cell)
    ensures Distinct(cell.ended) && Below(cell.ended, |cell.claims|)
  {
  }

  lemma StrictlySorted(interval: U64, claims: seq<U64>, x: nat, y: nat)
    requires interval > 0 && Spaced(interval, claims) && x < y < |claims|
    requires LastOr0(claims) + interval <= U64_MAX
    ensures claims[x] < claims[y]
  {
    if y < |claims| - 1 {
      SortedClaims(interval, claims, y, |claims| - 1);
    }
    SortedClaims(interval, claims, x, y);
  }
}
