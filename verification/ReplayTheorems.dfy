/** Results about every run of the replay store: who owns a key, what a tick may
    remove, how many keys there are, and when a proof can be accepted twice. */
module ReplayTheorems {
  import opened Prelude
  import opened Replay
  import opened ReplayRuns
  import Timing

  /** In every reachable state a key of the map is held exactly once, by exactly one of
      the heap, an inserter and a ticker, with the map's own deadline; and nothing
      that is held is missing from the map. */
  lemma ExactlyOneOwner(p: Params, events: seq<Event>, s: State, k: JtiKey) returns (owner: Holder)
    requires Run(p, events) == Some(s)
    ensures k in s.store.entries ==>
              && Bag(s, owner)[Entry(s.store.entries[k], k)] == 1
              && forall h, e :: e in Bag(s, h) && e.key == k ==> h == owner && e.deadline == s.store.entries[k]
    ensures k !in s.store.entries ==> forall h, e :: e in Bag(s, h) ==> e.key != k
  {
    RunKeepsInv(p, events);
    assert Owned(s);
    hide Run, Inv, Owned, Bag, Holds;
    if k in s.store.entries {
      var own := Entry(s.store.entries[k], k);
      owner := SomeHolder(s, own);
      HolderOf(s, owner, owner, own);
      forall h, e | e in Bag(s, h) && e.key == k ensures h == owner && e.deadline == s.store.entries[k] {
        HolderOf(s, h, owner, e);
      }
    } else {
      owner := Heap;
      forall h, e | e in Bag(s, h) ensures e.key != k {
        HolderOf(s, h, h, e);
      }
    }
  }

  /** With no operation in flight, map and heap hold the same pairs. */
  lemma QuietIsSettled(p: Params, events: seq<Event>, s: State)
    requires Run(p, events) == Some(s) && s.jobs == map[]
    ensures Settled(s.store)
  {
    RunKeepsInv(p, events);
    forall e: Entry
      ensures s.store.queue[e] == if e.key in s.store.entries && s.store.entries[e.key] == e.deadline then 1 else 0
    {
      if Live(s, e) {
        var h := SomeHolder(s, e);
        assert Holds(s, h, e) && h == Heap;
      } else {
        assert !Holds(s, Heap, e);
      }
    }
  }

  /** Sizes in every reachable state, and conservation over the whole run. */
  lemma SizesAndConservation(p: Params, events: seq<Event>, s: State)
    requires Run(p, events) == Some(s)
    ensures s.store.len == |s.store.entries| <= p.maxEntries
    ensures |s.store.queue| <= |s.store.entries|
    ensures |s.accepted| == |s.store.entries| + s.removed
  {
    RunKeepsInv(p, events);
    forall e | e in s.store.queue ensures s.store.queue[e] == 1 && Live(s, e) {
      assert Holds(s, Heap, e);
    }
    hide Inv, Owned, Live;
    DistinctKeys(s, s.store.queue);
    SubsetSize(Keys(s.store.queue), s.store.entries.Keys);
    assert Bounded(p, s) by {
      BoundedInInv(p, events, s);
    }
  }

  lemma BoundedInInv(p: Params, events: seq<Event>, s: State)
    requires Run(p, events) == Some(s)
    ensures Bounded(p, s)
  {
    RunKeepsInv(p, events);
  }

  lemma SubsetSize(a: set<JtiKey>, b: set<JtiKey>)
    requires a <= b
    ensures |a| <= |b|
  {
    assert b == a + (b - a);
  }

  /** Until its window has passed, another proof with the audience and `jti` of an
      accepted one is refused, and never for lack of memory. */
  lemma ReplayIsDetectedAtCapacity(p: Params, events: seq<Event>, s: State, i: nat, again: Proof)
    requires Run(p, events) == Some(s) && i < |s.accepted|
    requires again.audience == s.accepted[i].proof.audience && again.jti == s.accepted[i].proof.jti
    requires s.clock < s.accepted[i].at + p.window * TICKS_PER_SECOND
    ensures Judge(p, s.store, s.clock, again) == RejectReplayed || Judge(p, s.store, s.clock, again) == RejectStale
  {
    RunKeepsInv(p, events);
    assert Remembered(p, s, s.accepted[i]);
  }

  // ---- only a replay is refused as one ----

  /** A key of the map is that of an accepted proof. */
  ghost predicate Traced(p: Params, s: State, k: JtiKey) {
    exists i :: 0 <= i < |s.accepted| && KeyOf(p, s.accepted[i].proof) == k
  }

  lemma StepKeepsTraced(p: Params, s: State, e: Event, k: JtiKey)
    requires Enabled(p, s, e) && k in Step(p, s, e).store.entries
    requires k in s.store.entries ==> Traced(p, s, k)
    ensures Traced(p, Step(p, s, e), k)
  {
    var after := Step(p, s, e);
    hide Judge, Expired, Keys;
    assert s.accepted <= after.accepted;
    if k in s.store.entries {
      var i :| 0 <= i < |s.accepted| && KeyOf(p, s.accepted[i].proof) == k;
      assert after.accepted[i] == s.accepted[i];
    } else {
      assert KeyOf(p, after.accepted[|after.accepted| - 1].proof) == k;
    }
  }

  lemma {:induction false} KeysAreTraced(p: Params, events: seq<Event>, s: State, k: JtiKey)
    requires Run(p, events) == Some(s) && k in s.store.entries
    ensures Traced(p, s, k)
  {
    assert events != [];
    var init, last := events[..|events| - 1], events[|events| - 1];
    var before := Run(p, init).value;
    assert Enabled(p, before, last) && s == Step(p, before, last);
    hide Enabled, Step, Traced;
    if k in before.store.entries {
      KeysAreTraced(p, init, before, k);
    }
    StepKeepsTraced(p, before, last, k);
  }

  /** The audience of an accepted proof, and its `jti` or one that hashes alike. */
  predicate SeenBefore(p: Params, s: State, proof: Proof) {
    exists i | 0 <= i < |s.accepted| ::
      s.accepted[i].proof.audience == proof.audience && p.sha256(s.accepted[i].proof.jti) == p.sha256(proof.jti)
  }

  /** A proof is refused as replayed only if one with its audience and `jti`, up to a
      collision of the hash, was accepted before. */
  lemma RefusedWasSeen(p: Params, events: seq<Event>, s: State, proof: Proof)
    requires Run(p, events) == Some(s) && Judge(p, s.store, s.clock, proof) == RejectReplayed
    ensures SeenBefore(p, s, proof)
  {
    var k := KeyOf(p, proof);
    assert k in s.store.entries;
    KeysAreTraced(p, events, s, k);
    hide Run, Judge;
    var i :| 0 <= i < |s.accepted| && KeyOf(p, s.accepted[i].proof) == k;
    KeyIdentifies(p.sha256, s.accepted[i].proof.audience, s.accepted[i].proof.jti, proof.audience, proof.jti);
  }

  /** So a fresh proof nobody has used is accepted, as long as its deadline can be
      represented and the map is below capacity. */
  lemma UnseenIsAccepted(p: Params, events: seq<Event>, s: State, proof: Proof)
    requires Run(p, events) == Some(s) && p.freshness + p.skew <= U64_MAX
    requires Timing.FreshMeaning(proof.iat, Seconds(s.clock), p.freshness, p.skew)
    requires s.clock + p.window * TICKS_PER_SECOND <= MAX_INSTANT
    requires |s.store.entries| < p.maxEntries && !SeenBefore(p, s, proof)
    ensures Judge(p, s.store, s.clock, proof) == Accept
  {
    Timing.FreshIsExactIff(p.freshness, p.skew);
    assert Timing.Fresh(proof.iat, Seconds(s.clock), p.freshness, p.skew);
    hide Run, SeenBefore, Timing.Fresh, Timing.FreshMeaning;
    if Judge(p, s.store, s.clock, proof) == RejectReplayed {
      RefusedWasSeen(p, events, s, proof);
    }
  }

  // ---- the log of acceptances ----

  ghost predicate Logged(p: Params, s: State) {
    && (forall i | 0 <= i < |s.accepted| ::
          var a := s.accepted[i];
          && Seconds(a.at) <= U64_MAX
          && Timing.Fresh(a.proof.iat, Seconds(a.at), p.freshness, p.skew)
          && Deadline(p, a.at).Some?)
    && (forall i, j | 0 <= i < j < |s.accepted| && KeyOf(p, s.accepted[i].proof) == KeyOf(p, s.accepted[j].proof) ::
          s.accepted[j].at >= s.accepted[i].at + p.window * TICKS_PER_SECOND)
  }

  lemma StepKeepsLogged(p: Params, s: State, e: Event)
    requires Inv(p, s) && Logged(p, s) && Enabled(p, s, e)
    ensures Logged(p, Step(p, s, e))
  {
    var after := Step(p, s, e);
    if after.accepted != s.accepted {
      forall i | 0 <= i < |s.accepted| && KeyOf(p, s.accepted[i].proof) == KeyOf(p, e.proof)
        ensures s.clock >= s.accepted[i].at + p.window * TICKS_PER_SECOND
      {
        assert Remembered(p, s, s.accepted[i]);
      }
      hide Inv, Deadline, Timing.Fresh;
    }
  }

  lemma {:induction false} RunKeepsLogged(p: Params, events: seq<Event>)
    requires Run(p, events).Some?
    ensures Logged(p, Run(p, events).value)
  {
    if events != [] {
      var init := events[..|events| - 1];
      RunKeepsLogged(p, init);
      RunKeepsInv(p, init);
      StepKeepsLogged(p, Run(p, init).value, events[|events| - 1]);
      hide Inv, Logged;
    }
  }

  // ---- at most once ----

  /** The tight bound: when one proof is accepted twice, its own freshness limit reaches
      the end of the window that began with the first acceptance. */
  lemma AcceptedTwice(p: Params, events: seq<Event>, s: State, i: nat, j: nat)
    requires p.freshness + p.skew <= U64_MAX
    requires Run(p, events) == Some(s) && i < j < |s.accepted| && s.accepted[i].proof == s.accepted[j].proof
    ensures Seconds(s.accepted[i].at) + p.window <= s.accepted[i].proof.iat + p.freshness + p.skew
    ensures 2 * p.window <= MAX_SECONDS
  {
    RunKeepsLogged(p, events);
    var a, b := s.accepted[i], s.accepted[j];
    assert KeyOf(p, a.proof) == KeyOf(p, b.proof);
    assert b.at >= a.at + p.window * TICKS_PER_SECOND;
    assert Timing.Fresh(b.proof.iat, Seconds(b.at), p.freshness, p.skew) && Deadline(p, b.at).Some?;
    hide Logged;
    assert Seconds(b.at) >= Seconds(a.at) + p.window;
    Timing.FreshIsExactIff(p.freshness, p.skew);
    assert Timing.FreshMeaning(b.proof.iat, Seconds(b.at), p.freshness, p.skew);
  }

  /** The bound that configuration loading enforces covers every proof that was not
      dated after the second in which it was first accepted. */
  lemma ValidatedWindowCoversPastProofs(p: Params, events: seq<Event>, s: State, i: nat, j: nat)
    requires p.freshness + p.skew <= U64_MAX && p.window >= p.freshness + p.skew
    requires Run(p, events) == Some(s) && i < j < |s.accepted|
    requires s.accepted[i].proof.iat < Seconds(s.accepted[i].at)
    ensures s.accepted[i].proof != s.accepted[j].proof
  {
    if s.accepted[i].proof == s.accepted[j].proof {
      AcceptedTwice(p, events, s, i, j);
    }
  }

  /** No run accepts any proof twice. */
  ghost predicate AtMostOnce(p: Params) {
    forall events, s, i, j | Run(p, events) == Some(s) && 0 <= i < j < |s.accepted| ::
      s.accepted[i].proof != s.accepted[j].proof
  }

  lemma RunAppend(p: Params, events: seq<Event>, s: State, e: Event)
    requires Run(p, events) == Some(s) && Enabled(p, s, e)
    ensures Run(p, events + [e]) == Some(Step(p, s, e))
  {
    assert (events + [e])[..|events|] == events;
  }

  /** A proof accepted at the origin of the clock and queued for expiry. */
  lemma FirstAcceptance(p: Params, proof: Proof) returns (events: seq<Event>, s: State)
    requires p.maxEntries > 0 && p.window <= MAX_SECONDS
    requires Timing.Fresh(proof.iat, 0, p.freshness, p.skew)
    ensures
      var key, end := KeyOf(p, proof), p.window * TICKS_PER_SECOND;
      && s == State(0, Store(map[key := end], multiset{Entry(end, key)}, 1), map[], [Acceptance(proof, 0)], 0)
      && Run(p, events) == Some(s)
  {
    var key, end := KeyOf(p, proof), p.window * TICKS_PER_SECOND;
    var entry := Entry(end, key);
    hide Timing.Fresh;
    var s1 := State(0, Store(map[key := end], multiset{}, 1), map[0 := Inserting(entry)], [Acceptance(proof, 0)], 0);
    assert Judge(p, START.store, 0, proof) == Accept;
    RunAppend(p, [], START, Submit(0, proof));
    assert Step(p, START, Submit(0, proof)) == s1;
    hide Judge;
    s := State(0, Store(map[key := end], multiset{entry}, 1), map[], [Acceptance(proof, 0)], 0);
    RunAppend(p, [Submit(0, proof)], s1, Push(0));
    assert Step(p, s1, Push(0)) == s;
    events := [Submit(0, proof)] + [Push(0)];
  }

  /** The only entry, cleaned up by a tick at its deadline. */
  lemma Forgotten(p: Params, before: seq<Event>, s: State, entry: Entry) returns (events: seq<Event>, after: State)
    requires Run(p, before) == Some(s) && s.clock <= entry.deadline <= MAX_INSTANT && s.jobs == map[]
    requires s.store == Store(map[entry.key := entry.deadline], multiset{entry}, 1)
    ensures Run(p, events) == Some(after)
    ensures after == State(entry.deadline, START.store, map[], s.accepted, s.removed + 1)
  {
    var end := entry.deadline;
    var waited := s.(clock := end);
    RunAppend(p, before, s, Wait(end));
    assert Step(p, s, Wait(end)) == waited;

    OnlyEntryExpires(entry, end);
    hide Expired;
    var popped := waited.(store := s.store.(queue := multiset{}), jobs := map[0 := Removing(end, multiset{entry})]);
    RunAppend(p, before + [Wait(end)], waited, Pop(0, end));
    assert Step(p, waited, Pop(0, end)) == popped;

    after := State(end, START.store, map[], s.accepted, s.removed + 1);
    assert Keys(multiset{entry}) == {entry.key};
    assert map[entry.key := end] - {entry.key} == map[];
    RunAppend(p, before + [Wait(end)] + [Pop(0, end)], popped, Event.Remove(0));
    assert Step(p, popped, Event.Remove(0)) == after;
    events := before + [Wait(end)] + [Pop(0, end)] + [Event.Remove(0)];
  }

  /** A proof dated `skew` ahead, accepted at once and again when its entry has been
      cleaned up at the end of the window. */
  lemma SecondAcceptance(p: Params, jti: string) returns (events: seq<Event>, s: State)
    requires p.maxEntries > 0 && p.freshness + p.skew <= U64_MAX
    requires p.window <= p.freshness + 2 * p.skew && 2 * p.window <= MAX_SECONDS
    ensures Run(p, events) == Some(s) && |s.accepted| == 2 && s.accepted[0].proof == s.accepted[1].proof
  {
    var proof := Proof(1, jti, p.skew);
    var end := p.window * TICKS_PER_SECOND;
    Timing.FreshIsExactIff(p.freshness, p.skew);
    assert Timing.FreshMeaning(proof.iat, 0, p.freshness, p.skew);
    assert Timing.FreshMeaning(proof.iat, p.window, p.freshness, p.skew);
    hide Timing.Fresh, Timing.FreshMeaning, Run;
    var first, s1 := FirstAcceptance(p, proof);
    var clean, s2 := Forgotten(p, first, s1, Entry(end, KeyOf(p, proof)));
    assert Seconds(end) == p.window;
    assert Judge(p, s2.store, end, proof) == Accept;
    RunAppend(p, clean, s2, Submit(0, proof));
    events, s := clean + [Submit(0, proof)], Step(p, s2, Submit(0, proof));
  }

  lemma OnlyEntryExpires(entry: Entry, now: Instant)
    requires entry.deadline <= now
    ensures Expired(multiset{entry}, now) == multiset{entry}
  {
    assert forall e: Entry :: Expired(multiset{entry}, now)[e] == multiset{entry}[e];
  }

  /** When the store accepts every proof at most once: exactly if the window exceeds the
      freshness tolerance by more than twice the skew, or is so long that a second
      deadline cannot be represented. */
  lemma AtMostOnceIff(p: Params)
    requires p.maxEntries > 0 && p.freshness + p.skew <= U64_MAX
    ensures AtMostOnce(p) <==> p.window > p.freshness + 2 * p.skew || 2 * p.window > MAX_SECONDS
  {
    if p.window > p.freshness + 2 * p.skew || 2 * p.window > MAX_SECONDS {
      forall events, s, i, j | Run(p, events) == Some(s) && 0 <= i < j < |s.accepted|
        ensures s.accepted[i].proof != s.accepted[j].proof
      {
        if s.accepted[i].proof == s.accepted[j].proof {
          AcceptedTwice(p, events, s, i, j);
          AcceptedWithinSkew(p, events, s, i);
        }
      }
    } else {
      var events, s := SecondAcceptance(p, "jti");
    }
  }

  /** An accepted proof is dated at most `skew` ahead. */
  lemma AcceptedWithinSkew(p: Params, events: seq<Event>, s: State, i: nat)
    requires p.freshness + p.skew <= U64_MAX
    requires Run(p, events) == Some(s) && i < |s.accepted|
    ensures s.accepted[i].proof.iat <= Seconds(s.accepted[i].at) + p.skew
  {
    RunKeepsLogged(p, events);
    var a := s.accepted[i];
    assert Seconds(a.at) <= U64_MAX && Timing.Fresh(a.proof.iat, Seconds(a.at), p.freshness, p.skew);
  }
}
