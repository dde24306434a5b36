/** The replay store under any number of request threads and cleanup ticks, at the
    granularity of lock acquisitions, with one clock. A request's freshness test and
    its insertion share an instant: `validate_proof` does not yield between them. */
module ReplayRuns {
  import opened Prelude
  import opened Crypto
  import opened Replay
  import Timing

  const TICKS_PER_SECOND: nat := 1_000_000_000

  /** The range of `Instant`: a signed 64-bit number of seconds. */
  const MAX_SECONDS: nat := 0x7fff_ffff_ffff_ffff

  const MAX_INSTANT: nat := MAX_SECONDS * TICKS_PER_SECOND + (TICKS_PER_SECOND - 1)

  datatype Params = Params(freshness: U64, skew: U64, window: U64, maxEntries: nat, sha256: Hash)

  /** What identifies a proof to the store, and when it says it was made. */
  datatype Proof = Proof(audience: Byte, jti: string, iat: U64)

  datatype Verdict = Accept | RejectStale | RejectReplayed | RejectPressure

  type Tid = nat

  /** A thread between its two critical sections. */
  datatype Job = Inserting(entry: Entry) | Removing(now: Instant, popped: multiset<Entry>)

  datatype Acceptance = Acceptance(proof: Proof, at: Instant)

  datatype State = State(clock: Instant, store: Store, jobs: map<Tid, Job>, accepted: seq<Acceptance>, removed: nat)

  datatype Event =
    | Wait(until: Instant)
    | Submit(t: Tid, proof: Proof)
    | Push(t: Tid)
    | Pop(t: Tid, now: Instant)
    | Remove(t: Tid)

  function Seconds(at: Instant): nat { at / TICKS_PER_SECOND }

  function KeyOf(p: Params, proof: Proof): JtiKey {
    MakeKey(p.sha256, proof.audience, proof.jti)
  }

  /** `Instant::now().checked_add(window)` */
  function Deadline(p: Params, at: Instant): Option<Instant> {
    if at + p.window * TICKS_PER_SECOND > MAX_INSTANT then None else Some(at + p.window * TICKS_PER_SECOND)
  }

  /** The timed part of `validate_proof`, in its order. */
  function Judge(p: Params, st: Store, at: Instant, proof: Proof): Verdict {
    if Seconds(at) > U64_MAX || !Timing.Fresh(proof.iat, Seconds(at), p.freshness, p.skew) then RejectStale
    else if Deadline(p, at).None? then RejectStale
    else
      match InsertResult(st, p.maxEntries, KeyOf(p, proof))
      case Ok(_) => Accept
      case Err(Replayed) => RejectReplayed
      case Err(MemoryPressure) => RejectPressure
  }

  ghost predicate Enabled(p: Params, s: State, e: Event) {
    match e
    case Wait(until) => s.clock <= until <= MAX_INSTANT
    case Submit(t, proof) => t !in s.jobs
    case Push(t) => t in s.jobs && s.jobs[t].Inserting?
    case Pop(t, now) => t !in s.jobs && now <= s.clock
    case Remove(t) => t in s.jobs && s.jobs[t].Removing?
  }

  ghost function Step(p: Params, s: State, e: Event): State
    requires Enabled(p, s, e)
  {
    match e
    case Wait(until) => s.(clock := until)
    case Submit(t, proof) =>
      if Judge(p, s.store, s.clock, proof) != Accept then s
      else
        var entry := Entry(Deadline(p, s.clock).value, KeyOf(p, proof));
        s.(store := AfterInsert(s.store, p.maxEntries, entry),
           jobs := s.jobs[t := Inserting(entry)],
           accepted := s.accepted + [Acceptance(proof, s.clock)])
    case Push(t) => s.(store := AfterPush(s.store, s.jobs[t].entry), jobs := s.jobs - {t})
    case Pop(t, now) =>
      var popped := Expired(s.store.queue, now);
      s.(store := AfterPop(s.store, now),
           jobs := if popped == multiset{} then s.jobs else s.jobs[t := Removing(now, popped)])
    case Remove(t) =>
      var popped := s.jobs[t].popped;
      s.(store := AfterRemove(s.store, popped), jobs := s.jobs - {t}, removed := s.removed + |popped|)
  }

  const START: State := State(0, Store(map[], multiset{}, 0), map[], [], 0)

  /** The state after a run, if every event of it was enabled. */
  ghost function Run(p: Params, events: seq<Event>): Option<State> {
    if events == [] then Some(START)
    else
      match Run(p, events[..|events| - 1])
      case None => None
      case Some(before) =>
        if Enabled(p, before, events[|events| - 1]) then Some(Step(p, before, events[|events| - 1])) else None
  }

  // ---- ownership ----

  /** Who may be responsible for taking a key out of the map: the heap, or a thread
      that is about to push it or has popped it. */
  datatype Holder = Heap | Thread(t: Tid)

  function Bag(s: State, h: Holder): multiset<Entry> {
    match h
    case Heap => s.store.queue
    case Thread(t) =>
      if t !in s.jobs then multiset{}
      else
        match s.jobs[t]
        case Inserting(entry) => multiset{entry}
        case Removing(_, popped) => popped
  }

  ghost predicate Holds(s: State, h: Holder, e: Entry) { e in Bag(s, h) }

  predicate Live(s: State, e: Entry) {
    e.key in s.store.entries && s.store.entries[e.key] == e.deadline
  }

  /** Everything held is the map's own pair, held once and by one holder, and
      everything in the map is held. */
  ghost predicate Owned(s: State) {
    && (forall h, e :: Holds(s, h, e) ==> Bag(s, h)[e] == 1 && Live(s, e))
    && (forall h, g, e :: Holds(s, h, e) && Holds(s, g, e) ==> h == g)
    && (forall e :: Live(s, e) ==> exists h :: Holds(s, h, e))
  }

  /** A ticker holds only what had expired at its own time. */
  ghost predicate Due(s: State) {
    forall t | t in s.jobs && s.jobs[t].Removing? ::
      s.jobs[t].now <= s.clock && forall e | e in s.jobs[t].popped :: e.deadline <= s.jobs[t].now
  }

  ghost predicate Bounded(p: Params, s: State) {
    && s.store.len == |s.store.entries| <= p.maxEntries
    && |s.accepted| == |s.store.entries| + s.removed
    && s.clock <= MAX_INSTANT
  }

  /** An accepted proof stays in the map until its window has passed. */
  ghost predicate Remembered(p: Params, s: State, a: Acceptance) {
    var until := a.at + p.window * TICKS_PER_SECOND;
    && a.at <= s.clock
    && (|| until <= s.clock
        || (KeyOf(p, a.proof) in s.store.entries && s.store.entries[KeyOf(p, a.proof)] >= until))
  }

  ghost predicate Memory(p: Params, s: State) {
    forall i | 0 <= i < |s.accepted| :: Remembered(p, s, s.accepted[i])
  }

  ghost predicate Inv(p: Params, s: State) {
    Owned(s) && Due(s) && Bounded(p, s) && Memory(p, s)
  }

  /** How often `h` holds `e`. */
  ghost function Count(s: State, h: Holder, e: Entry): nat { Bag(s, h)[e] }

  /** Handing the entries in `gone` from one holder to another, seen at one place. */
  ghost predicate MovedAt(s: State, after: State, from: Holder, to: Holder, gone: iset<Entry>, h: Holder, e: Entry) {
    Count(after, h, e) ==
      if e !in gone then Count(s, h, e)
      else if h == from then 0
      else if h == to then Count(s, to, e) + Count(s, from, e)
      else Count(s, h, e)
  }

  lemma HolderOf(s: State, h: Holder, g: Holder, e: Entry)
    requires Owned(s) && Count(s, h, e) > 0
    ensures Count(s, h, e) == 1 && Live(s, e)
    ensures g != h ==> Count(s, g, e) == 0
  {
    assert Holds(s, h, e);
    if Count(s, g, e) > 0 {
      assert Holds(s, g, e);
    }
  }

  lemma SomeHolder(s: State, e: Entry) returns (h: Holder)
    requires Owned(s) && Live(s, e)
    ensures Count(s, h, e) > 0
  {
    h :| Holds(s, h, e);
  }

  lemma OwnedIf(s: State)
    requires forall h, e | Count(s, h, e) > 0 :: Count(s, h, e) == 1 && Live(s, e)
    requires forall h, g, e | Count(s, h, e) > 0 && Count(s, g, e) > 0 :: h == g
    requires forall e | Live(s, e) :: exists h :: Count(s, h, e) > 0
    ensures Owned(s)
  {
    assert forall h, e :: Holds(s, h, e) <==> Count(s, h, e) > 0;
    forall e | Live(s, e) ensures exists h :: Holds(s, h, e) {
      var h :| Count(s, h, e) > 0;
      assert Holds(s, h, e);
    }
  }

  lemma MoveKeepsOwned(s: State, after: State, from: Holder, to: Holder, gone: iset<Entry>)
    requires Owned(s) && from != to
    requires after.store.entries == s.store.entries
    requires forall h, e :: MovedAt(s, after, from, to, gone, h, e)
    ensures Owned(after)
  {
    assert forall x :: Live(after, x) == Live(s, x);
    hide Bag, Live, Count, Owned, Holds;
    forall h, e | Count(after, h, e) > 0 ensures Count(after, h, e) == 1 && Live(after, e) {
      assert MovedAt(s, after, from, to, gone, h, e);
      var was := if h == to && e in gone && Count(s, from, e) > 0 then from else h;
      HolderOf(s, was, to, e);
    }
    forall h, g, e | Count(after, h, e) > 0 && Count(after, g, e) > 0 ensures h == g {
      assert MovedAt(s, after, from, to, gone, h, e) && MovedAt(s, after, from, to, gone, g, e);
      var was := if h == to && e in gone && Count(s, from, e) > 0 then from else h;
      HolderOf(s, was, g, e);
      HolderOf(s, was, from, e);
    }
    forall e | Live(after, e) ensures exists h :: Count(after, h, e) > 0 {
      var h := SomeHolder(s, e);
      assert MovedAt(s, after, from, to, gone, h, e) && MovedAt(s, after, from, to, gone, to, e);
      assert Count(after, if e in gone && h == from then to else h, e) > 0;
    }
    OwnedIf(after);
  }

  // ---- steps ----

  lemma WaitKeeps(p: Params, s: State, e: Event)
    requires Inv(p, s) && Enabled(p, s, e) && e.Wait?
    ensures Inv(p, Step(p, s, e))
  {
    var after := Step(p, s, e);
    assert forall h :: Bag(after, h) == Bag(s, h);
    assert forall x :: Live(after, x) == Live(s, x);
    hide Bag, Live;
    assert forall h, x :: Holds(after, h, x) == Holds(s, h, x);
  }

  lemma PushKeepsOwned(p: Params, s: State, e: Event)
    requires Owned(s) && Enabled(p, s, e) && e.Push?
    ensures Owned(Step(p, s, e))
  {
    hide Owned, Live, Holds;
    var after := Step(p, s, e);
    var entry := s.jobs[e.t].entry;
    forall h, x ensures MovedAt(s, after, Thread(e.t), Heap, iset{entry}, h, x) {
      if h.Thread? && h.t != e.t {
        assert Bag(after, h) == Bag(s, h);
      }
    }
    hide Count, Step, Enabled, MovedAt;
    MoveKeepsOwned(s, after, Thread(e.t), Heap, iset{entry});
  }

  lemma PushKeeps(p: Params, s: State, e: Event)
    requires Inv(p, s) && Enabled(p, s, e) && e.Push?
    ensures Inv(p, Step(p, s, e))
  {
    hide Owned;
    PushKeepsOwned(p, s, e);
  }

  lemma ExpiredBounds(queue: multiset<Entry>, now: Instant)
    ensures Expired(queue, now) <= queue
    ensures forall e :: e in Expired(queue, now) ==> e.deadline <= now
  {
    var expired := Expired(queue, now);
    assert forall e: Entry :: expired[e] <= queue[e];
    forall e | e in expired ensures e.deadline <= now {
      assert expired[e] == if e.deadline <= now then queue[e] else 0;
    }
  }

  lemma PopBags(p: Params, s: State, e: Event, h: Holder)
    requires Enabled(p, s, e) && e.Pop?
    ensures Bag(Step(p, s, e), h) ==
      if h == Heap then s.store.queue - Expired(s.store.queue, e.now)
      else if h == Thread(e.t) then Expired(s.store.queue, e.now)
      else Bag(s, h)
    ensures Bag(s, Thread(e.t)) == multiset{}
    ensures Step(p, s, e).store.entries == s.store.entries
  {
    hide Expired;
  }

  lemma PopCount(p: Params, s: State, e: Event, h: Holder, x: Entry)
    requires Enabled(p, s, e) && e.Pop?
    ensures Count(Step(p, s, e), h, x) ==
      if x.deadline > e.now then Count(s, h, x)
      else if h == Heap then 0
      else if h == Thread(e.t) then Count(s, Thread(e.t), x) + Count(s, Heap, x)
      else Count(s, h, x)
  {
    PopBags(p, s, e, h);
    PopCounts(s.store.queue, e.now, x);
    HeapBag(s);
    hide Step, Enabled, Bag, Expired;
  }

  lemma PopMoves(p: Params, s: State, e: Event, gone: iset<Entry>, h: Holder, x: Entry)
    requires Enabled(p, s, e) && e.Pop? && gone == iset y: Entry | y.deadline <= e.now
    ensures MovedAt(s, Step(p, s, e), Heap, Thread(e.t), gone, h, x)
  {
    hide Step, Enabled, Bag, Expired, Count;
    PopCount(p, s, e, h, x);
  }

  lemma PopKeepsOwned(p: Params, s: State, e: Event)
    requires Owned(s) && Enabled(p, s, e) && e.Pop?
    ensures Owned(Step(p, s, e))
  {
    PopBags(p, s, e, Heap);
    hide *;
    var after := Step(p, s, e);
    var gone := iset x: Entry | x.deadline <= e.now;
    forall h, x ensures MovedAt(s, after, Heap, Thread(e.t), gone, h, x) {
      PopMoves(p, s, e, gone, h, x);
    }
    MoveKeepsOwned(s, after, Heap, Thread(e.t), gone);
  }

  lemma HeapBag(s: State)
    ensures Bag(s, Heap) == s.store.queue
  {
  }

  lemma PopCounts(queue: multiset<Entry>, now: Instant, x: Entry)
    ensures Expired(queue, now)[x] == if x.deadline <= now then queue[x] else 0
    ensures (queue - Expired(queue, now))[x] == if x.deadline <= now then 0 else queue[x]
  {
    assert Expired(queue, now)[x] == if x.deadline <= now then queue[x] else 0;
  }

  lemma PopKeeps(p: Params, s: State, e: Event)
    requires Inv(p, s) && Enabled(p, s, e) && e.Pop?
    ensures Inv(p, Step(p, s, e))
  {
    hide Owned, Bag, Live, Expired;
    PopKeepsOwned(p, s, e);
    ExpiredBounds(s.store.queue, e.now);
  }

  // ---- a new key ----

  lemma AddKeepsOwned(s: State, after: State, holder: Holder, entry: Entry)
    requires Owned(s) && entry.key !in s.store.entries
    requires after.store.entries == s.store.entries[entry.key := entry.deadline]
    requires Bag(s, holder) == multiset{} && Bag(after, holder) == multiset{entry}
    requires forall h | h != holder :: Bag(after, h) == Bag(s, h)
    ensures Owned(after)
  {
    hide Bag;
    assert Holds(after, holder, entry);
    assert forall h, x :: Holds(after, h, x) ==> Holds(s, h, x) || (h == holder && x == entry);
    assert forall h, x :: Holds(s, h, x) ==> h != holder && Live(s, x) && Holds(after, h, x);
    assert forall x :: Live(after, x) <==> Live(s, x) || x == entry;
    assert forall x :: Live(s, x) ==> x.key != entry.key;
    hide Live;
    forall h, x | Holds(after, h, x) ensures Bag(after, h)[x] == 1 && Live(after, x) {
      if Holds(s, h, x) {
        assert Bag(s, h)[x] == 1;
      }
    }
    forall h, g, x | Holds(after, h, x) && Holds(after, g, x) ensures h == g {
      if x != entry {
        assert Holds(s, h, x) && Holds(s, g, x);
      }
    }
    forall x | Live(after, x) ensures exists h :: Holds(after, h, x) {
      if x != entry {
        var h :| Holds(s, h, x);
        assert Holds(after, h, x);
      }
    }
  }

  lemma AcceptKeepsOwned(p: Params, s: State, e: Event)
    requires Owned(s) && Enabled(p, s, e) && e.Submit? && Judge(p, s.store, s.clock, e.proof) == Accept
    ensures Owned(Step(p, s, e))
  {
    hide Owned, Live, Holds;
    var after := Step(p, s, e);
    var entry := Entry(Deadline(p, s.clock).value, KeyOf(p, e.proof));
    assert entry.key !in s.store.entries;
    assert after.store.entries == s.store.entries[entry.key := entry.deadline];
    assert forall h | h != Thread(e.t) :: Bag(after, h) == Bag(s, h);
    AddKeepsOwned(s, after, Thread(e.t), entry);
  }

  lemma SubmitKeeps(p: Params, s: State, e: Event)
    requires Inv(p, s) && Enabled(p, s, e) && e.Submit?
    ensures Inv(p, Step(p, s, e))
  {
    var after := Step(p, s, e);
    if Judge(p, s.store, s.clock, e.proof) == Accept {
      AcceptKeepsOwned(p, s, e);
      hide Owned;
      var key := KeyOf(p, e.proof);
      assert key !in s.store.entries && |s.store.entries| < p.maxEntries;
      assert |s.store.entries[key := Deadline(p, s.clock).value]| == |s.store.entries| + 1;
    }
  }

  // ---- removal ----

  lemma {:induction false} DistinctKeys(s: State, bag: multiset<Entry>)
    requires forall e | e in bag :: bag[e] == 1 && Live(s, e)
    ensures Keys(bag) <= s.store.entries.Keys && |Keys(bag)| == |bag|
    decreases |bag|
  {
    if bag != multiset{} {
      var e :| e in bag;
      var rest := bag - multiset{e};
      DistinctKeys(s, rest);
      assert bag == rest + multiset{e};
      KeysAdd(rest, e);
      assert e.key !in Keys(rest);
    }
  }

  lemma RemoveKeepsOwned(p: Params, s: State, e: Event)
    requires Owned(s) && Enabled(p, s, e) && e.Remove?
    ensures Owned(Step(p, s, e))
  {
    var after := Step(p, s, e);
    var popped := s.jobs[e.t].popped;
    assert Bag(s, Thread(e.t)) == popped && Bag(after, Thread(e.t)) == multiset{};
    assert forall h | h != Thread(e.t) :: Bag(after, h) == Bag(s, h);
    assert after.store.entries == s.store.entries - Keys(popped) by {
      if popped == multiset{} {
        EmptyHasNoKeys();
      }
    }
    hide Bag, Step, Enabled;
    forall x ensures Live(after, x) <==> Live(s, x) && !Holds(s, Thread(e.t), x) {
      if Live(s, x) && x.key in Keys(popped) {
        var y :| y in popped && y.key == x.key;
        assert Holds(s, Thread(e.t), y);
      }
    }
    forall h, x ensures Holds(after, h, x) <==> Holds(s, h, x) && h != Thread(e.t) {
    }
    forall x | Live(after, x) ensures exists h :: Holds(after, h, x) {
      var h :| Holds(s, h, x);
      assert Holds(after, h, x);
    }
  }

  lemma RemoveKeepsBounds(p: Params, s: State, e: Event)
    requires Inv(p, s) && Enabled(p, s, e) && e.Remove?
    ensures Bounded(p, Step(p, s, e))
  {
    var popped := s.jobs[e.t].popped;
    assert Bag(s, Thread(e.t)) == popped;
    forall x | x in popped ensures popped[x] == 1 && Live(s, x) {
      assert Holds(s, Thread(e.t), x);
    }
    hide Owned;
    DistinctKeys(s, popped);
    var left := s.store.entries - Keys(popped);
    assert left.Keys == s.store.entries.Keys - Keys(popped);
    assert |left.Keys| == |s.store.entries.Keys| - |Keys(popped)|;
  }

  /** All that a ticker has popped is still in the map, with a deadline that has passed
      at the tick's own time; it takes out those keys and no others. */
  lemma RemovedWereDue(p: Params, s: State, e: Event)
    requires Inv(p, s) && Enabled(p, s, e) && e.Remove?
    ensures forall x | x in s.jobs[e.t].popped :: Live(s, x) && x.deadline <= s.jobs[e.t].now <= s.clock
    ensures Step(p, s, e).store.entries == s.store.entries - Keys(s.jobs[e.t].popped)
    ensures forall k | k in s.store.entries && k !in Step(p, s, e).store.entries ::
              s.store.entries[k] <= s.jobs[e.t].now <= s.clock
  {
    var popped := s.jobs[e.t].popped;
    forall x | x in popped ensures Live(s, x) {
      assert Holds(s, Thread(e.t), x);
    }
    if popped == multiset{} {
      EmptyHasNoKeys();
    }
    assert s.jobs[e.t].now <= s.clock;
    forall k | k in s.store.entries && k in Keys(popped) ensures s.store.entries[k] <= s.jobs[e.t].now {
      var x :| x in popped && x.key == k;
    }
  }

  lemma RemoveKeeps(p: Params, s: State, e: Event)
    requires Inv(p, s) && Enabled(p, s, e) && e.Remove?
    ensures Inv(p, Step(p, s, e))
  {
    var after := Step(p, s, e);
    RemoveKeepsOwned(p, s, e);
    RemoveKeepsBounds(p, s, e);
    RemovedWereDue(p, s, e);
    hide Owned, Bounded;
    forall i | 0 <= i < |s.accepted| ensures Remembered(p, after, s.accepted[i]) {
      assert Remembered(p, s, s.accepted[i]);
    }
    hide Remembered;
  }

  lemma StepKeepsInv(p: Params, s: State, e: Event)
    requires Inv(p, s) && Enabled(p, s, e)
    ensures Inv(p, Step(p, s, e))
  {
    hide *;
    match e
    case Wait(_) => WaitKeeps(p, s, e);
    case Submit(_, _) => SubmitKeeps(p, s, e);
    case Push(_) => PushKeeps(p, s, e);
    case Pop(_, _) => PopKeeps(p, s, e);
    case Remove(_) => RemoveKeeps(p, s, e);
  }

  lemma {:induction false} RunKeepsInv(p: Params, events: seq<Event>)
    requires Run(p, events).Some?
    ensures Inv(p, Run(p, events).value)
  {
    if events != [] {
      RunKeepsInv(p, events[..|events| - 1]);
      StepKeepsInv(p, Run(p, events[..|events| - 1]).value, events[|events| - 1]);
      hide Inv;
    }
  }
}
