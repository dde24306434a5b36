/** The DPoP `jti` store of `server/src/auth/replay.rs`: a map of live keys and a
    min-heap of deadlines behind two locks. Each function below is the effect of one
    critical section; the class methods are the source's code for them. */
module Replay {
  import opened Prelude
  import opened Crypto

  /** Nanoseconds since an arbitrary origin. */
  type Instant = nat

  datatype JtiKey = JtiKey(audience: Byte, hash: Digest)

  function MakeKey(sha256: Hash, audience: Byte, jti: string): JtiKey {
    JtiKey(audience, sha256(jti))
  }

  /** Keys separate audiences, and within one the values whose hashes differ. */
  lemma KeyIdentifies(sha256: Hash, audienceA: Byte, jtiA: string, audienceB: Byte, jtiB: string)
    ensures MakeKey(sha256, audienceA, jtiA) == MakeKey(sha256, audienceB, jtiB) <==>
              audienceA == audienceB && sha256(jtiA) == sha256(jtiB)
  {
  }

  /** An element of the expiry queue. */
  datatype Entry = Entry(deadline: Instant, key: JtiKey)

  datatype InsertError = Replayed | MemoryPressure

  datatype Store = Store(entries: map<JtiKey, Instant>, queue: multiset<Entry>, len: nat)

  // ---- the critical sections ----

  function InsertResult(st: Store, maxEntries: nat, key: JtiKey): Result<(), InsertError> {
    if key in st.entries then Err(Replayed)
    else if |st.entries| >= maxEntries then Err(MemoryPressure)
    else Ok(())
  }

  /** `try_insert`, under the entries lock. */
  function AfterInsert(st: Store, maxEntries: nat, e: Entry): Store {
    if InsertResult(st, maxEntries, e.key).Err? then st
    else
      var entries := st.entries[e.key := e.deadline];
      st.(entries := entries, len := |entries|)
  }

  /** `try_insert`, under the queue lock. */
  function AfterPush(st: Store, e: Entry): Store {
    st.(queue := st.queue + multiset{e})
  }

  /** The part of a queue whose deadline has passed. */
  ghost function Expired(queue: multiset<Entry>, now: Instant): (expired: multiset<Entry>)
    ensures forall e: Entry :: expired[e] == if e.deadline <= now then queue[e] else 0
    decreases |queue|
  {
    if queue == multiset{} then multiset{}
    else
      var e :| e in queue;
      var rest := Expired(queue - multiset{e}, now);
      if e.deadline <= now then rest + multiset{e} else rest
  }

  /** `maintenance_tick`, under the queue lock. */
  ghost function AfterPop(st: Store, now: Instant): Store {
    st.(queue := st.queue - Expired(st.queue, now))
  }

  ghost function Keys(bag: multiset<Entry>): set<JtiKey> {
    set e | e in bag :: e.key
  }

  /** `maintenance_tick`, under the entries lock; skipped when nothing was popped. */
  ghost function AfterRemove(st: Store, popped: multiset<Entry>): Store {
    if popped == multiset{} then st
    else
      var entries := st.entries - Keys(popped);
      st.(entries := entries, len := |entries|)
  }

  // ---- the store between operations ----

  /** With no operation in flight the two structures hold the same pairs. */
  ghost predicate Settled(st: Store) {
    && st.len == |st.entries|
    && forall e: Entry :: st.queue[e] == if e.key in st.entries && st.entries[e.key] == e.deadline then 1 else 0
  }

  /** The one-pass filter that a tick is meant to be. */
  function InWindow(entries: map<JtiKey, Instant>, now: Instant): map<JtiKey, Instant> {
    map k | k in entries && entries[k] > now :: entries[k]
  }

  /** In a settled store, a key has expired in the queue exactly when it has in the map. */
  lemma ExpiredKeys(st: Store, now: Instant, k: JtiKey)
    requires Settled(st)
    ensures k in Keys(Expired(st.queue, now)) <==> k in st.entries && st.entries[k] <= now
  {
    var popped := Expired(st.queue, now);
    if k in st.entries {
      var own := Entry(st.entries[k], k);
      assert st.queue[own] == 1;
      assert popped[own] == if own.deadline <= now then 1 else 0;
    }
    if k in Keys(popped) {
      var e :| e in popped && e.key == k;
      assert popped[e] == if e.deadline <= now then st.queue[e] else 0;
    }
  }

  lemma KeptEntry(st: Store, now: Instant, e: Entry)
    requires Settled(st)
    ensures
      var kept := InWindow(st.entries, now);
      AfterPop(st, now).queue[e] == if e.key in kept && kept[e.key] == e.deadline then 1 else 0
  {
    assert Expired(st.queue, now)[e] == if e.deadline <= now then st.queue[e] else 0;
    hide Expired;
  }

  /** The heap-driven tick refines the filter, and leaves map and heap in agreement. */
  lemma TickIsFilter(st: Store, now: Instant)
    requires Settled(st)
    ensures var after := AfterRemove(AfterPop(st, now), Expired(st.queue, now));
            after.entries == InWindow(st.entries, now) && Settled(after)
  {
    hide Settled, Expired, Keys;
    var popped := Expired(st.queue, now);
    var after := AfterRemove(AfterPop(st, now), popped);
    forall k ensures k in Keys(popped) <==> k in st.entries && st.entries[k] <= now {
      ExpiredKeys(st, now, k);
    }
    EmptyHasNoKeys();
    assert after.entries == InWindow(st.entries, now);
    assert st.len == |st.entries| by {
      SettledLen(st);
    }
    forall e: Entry
      ensures after.queue[e] == if e.key in after.entries && after.entries[e.key] == e.deadline then 1 else 0
    {
      KeptEntry(st, now, e);
    }
    hide InWindow, AfterPop;
    SettledIf(after);
  }

  lemma SettledLen(st: Store)
    requires Settled(st)
    ensures st.len == |st.entries|
  {
  }

  /** A settled store's heap is as large as its map. */
  lemma SettledSizes(st: Store)
    requires Settled(st)
    ensures |st.queue| == |st.entries|
  {
    var pairs := Pairs(st.entries);
    PairsSize(st.entries);
    forall e: Entry ensures st.queue[e] == multiset(pairs)[e] {
      InPairs(st.entries, e);
    }
    assert st.queue == multiset(pairs);
  }

  function Pairs(entries: map<JtiKey, Instant>): set<Entry> {
    set k | k in entries :: Entry(entries[k], k)
  }

  lemma InPairs(entries: map<JtiKey, Instant>, e: Entry)
    ensures e in Pairs(entries) <==> e.key in entries && entries[e.key] == e.deadline
  {
  }

  lemma {:induction false} PairsSize(entries: map<JtiKey, Instant>)
    ensures |Pairs(entries)| == |entries|
    decreases |entries|
  {
    if k :| k in entries {
      var rest := entries - {k};
      PairsSize(rest);
      forall e ensures e in Pairs(entries) <==> e in Pairs(rest) + {Entry(entries[k], k)} {
        InPairs(entries, e);
        InPairs(rest, e);
      }
      assert Pairs(entries) == Pairs(rest) + {Entry(entries[k], k)};
      assert entries.Keys == rest.Keys + {k};
      InPairs(rest, Entry(entries[k], k));
    }
  }

  lemma SettledIf(st: Store)
    requires st.len == |st.entries|
    requires forall e: Entry :: st.queue[e] == if e.key in st.entries && st.entries[e.key] == e.deadline then 1 else 0
    ensures Settled(st)
  {
  }

  lemma KeysAdd(bag: multiset<Entry>, e: Entry)
    ensures Keys(bag + multiset{e}) == Keys(bag) + {e.key}
  {
    assert forall x :: x in bag + multiset{e} <==> x in bag || x == e;
  }

  ghost function Elements(keys: seq<JtiKey>): set<JtiKey> {
    set k | k in keys
  }

  lemma ElementsAdd(keys: seq<JtiKey>, k: JtiKey)
    ensures Elements(keys + [k]) == Elements(keys) + {k}
  {
  }

  /** The map with every one of `keys` taken out. */
  ghost function Without(m: map<JtiKey, Instant>, keys: seq<JtiKey>): map<JtiKey, Instant> {
    m - Elements(keys)
  }

  lemma NoneRemoved(m: map<JtiKey, Instant>, keys: seq<JtiKey>)
    ensures Without(m, keys[..0]) == m
  {
  }

  lemma RemoveMore(m: map<JtiKey, Instant>, keys: seq<JtiKey>, i: nat)
    requires i < |keys|
    ensures Without(m, keys[..i]) - {keys[i]} == Without(m, keys[..i + 1])
  {
    assert keys[..i + 1] == keys[..i] + [keys[i]];
  }

  lemma MoveOne(from: multiset<Entry>, to: multiset<Entry>, e: Entry)
    requires e in from
    ensures (from - multiset{e}) + (to + multiset{e}) == from + to
    ensures |from - multiset{e}| < |from| && |to + multiset{e}| == |to| + 1
  {
  }

  lemma EmptyHasNoKeys()
    ensures Elements([]) == {} && Keys(multiset{}) == {}
  {
  }

  /** Splitting a queue by deadline has one outcome. */
  lemma ExpiredIsUnique(queue: multiset<Entry>, kept: multiset<Entry>, popped: multiset<Entry>, now: Instant)
    requires kept + popped == queue
    requires forall e :: e in popped ==> e.deadline <= now
    requires forall e :: e in kept ==> e.deadline > now
    ensures popped == Expired(queue, now) && kept == queue - Expired(queue, now)
  {
    forall e: Entry ensures popped[e] == Expired(queue, now)[e] {
      assert (kept + popped)[e] == queue[e];
    }
  }

  lemma EarliestExists(queue: multiset<Entry>) returns (least: Entry)
    requires queue != multiset{}
    ensures least in queue && forall e :: e in queue ==> least.deadline <= e.deadline
    decreases |queue|
  {
    var e :| e in queue;
    var rest := queue - multiset{e};
    assert forall x :: x in queue <==> x in rest || x == e;
    if rest == multiset{} {
      least := e;
    } else {
      var l := EarliestExists(rest);
      least := if l.deadline <= e.deadline then l else e;
    }
  }

  class JtiReplayStore {
    const maxEntries: nat
    var entries: map<JtiKey, Instant>
    var queue: multiset<Entry>
    var len: nat

    ghost function View(): Store
      reads this
    {
      Store(entries, queue, len)
    }

    constructor (maxEntries: nat)
      ensures this.maxEntries == maxEntries
      ensures View() == Store(map[], multiset{}, 0) && Settled(View())
    {
      this.maxEntries := maxEntries;
      entries, queue, len := map[], multiset{}, 0;
    }

    /** The first critical section of `try_insert`: a key already present is reported
        as such even when the store is full. */
    method InsertLocked(key: JtiKey, deadline: Instant) returns (r: Result<(), InsertError>)
      modifies this
      ensures r == InsertResult(old(View()), maxEntries, key)
      ensures View() == AfterInsert(old(View()), maxEntries, Entry(deadline, key))
    {
      if key in entries {
        return Err(Replayed);
      }
      if |entries| >= maxEntries {
        return Err(MemoryPressure);
      }
      entries := entries[key := deadline];
      len := |entries|;
      return Ok(());
    }

    method TryInsert(key: JtiKey, deadline: Instant) returns (r: Result<(), InsertError>)
      modifies this
      ensures r == InsertResult(old(View()), maxEntries, key)
      ensures r.Err? ==> View() == old(View())
      ensures r.Ok? ==> entries == old(entries)[key := deadline] && queue == old(queue) + multiset{Entry(deadline, key)}
      ensures old(Settled(View())) ==> Settled(View())
    {
      r := InsertLocked(key, deadline);
      if r.Ok? {
        queue := queue + multiset{Entry(deadline, key)};
      }
    }

    /** `BinaryHeap::peek` on a heap that is not empty. */
    method Peek() returns (top: Entry)
      requires queue != multiset{}
      ensures top in queue && forall e :: e in queue ==> top.deadline <= e.deadline
    {
      ghost var least := EarliestExists(queue);
      top :| top in queue && forall e :: e in queue ==> top.deadline <= e.deadline;
    }

    /** The first critical section of `maintenance_tick`: pop from the top of the heap
        while its deadline has passed. Only keys are kept, as in the source; `popped`
        remembers the whole elements for the specification. */
    method PopExpired(now: Instant) returns (expiredKeys: seq<JtiKey>, ghost popped: multiset<Entry>)
      modifies this
      ensures popped == Expired(old(queue), now)
      ensures View() == AfterPop(old(View()), now)
      ensures Elements(expiredKeys) == Keys(popped)
      ensures expiredKeys == [] <==> popped == multiset{}
    {
      hide Expired, Keys, Elements;
      expiredKeys, popped := [], multiset{};
      assert Elements([]) == Keys(multiset{}) by {
        EmptyHasNoKeys();
      }
      while queue != multiset{}
        invariant entries == old(entries) && len == old(len)
        invariant queue + popped == old(queue)
        invariant forall e :: e in popped ==> e.deadline <= now
        invariant Elements(expiredKeys) == Keys(popped)
        invariant |expiredKeys| == |popped|
        decreases |queue|
      {
        var top := Peek();
        if top.deadline > now {
          break;
        }
        MoveOne(queue, popped, top);
        KeysAdd(popped, top);
        ElementsAdd(expiredKeys, top.key);
        queue := queue - multiset{top};
        expiredKeys := expiredKeys + [top.key];
        popped := popped + multiset{top};
      }
      ExpiredIsUnique(old(queue), queue, popped, now);
    }

    /** The second critical section of `maintenance_tick`. */
    method RemoveAll(expiredKeys: seq<JtiKey>)
      modifies this
      ensures entries == Without(old(entries), expiredKeys)
      ensures queue == old(queue) && len == |entries|
    {
      hide Without;
      ghost var before := entries;
      NoneRemoved(before, expiredKeys);
      var i := 0;
      while i < |expiredKeys|
        invariant 0 <= i <= |expiredKeys|
        invariant entries == Without(before, expiredKeys[..i])
        invariant queue == old(queue)
      {
        RemoveMore(before, expiredKeys, i);
        entries := entries - {expiredKeys[i]};
        i := i + 1;
      }
      assert expiredKeys[..i] == expiredKeys;
      len := |entries|;
    }

    /** A tick on a settled store leaves exactly the entries still in their window. */
    method MaintenanceTick(now: Instant)
      modifies this
      ensures View() == AfterRemove(AfterPop(old(View()), now), Expired(old(queue), now))
      ensures old(Settled(View())) ==> entries == InWindow(old(entries), now) && Settled(View())
    {
      ghost var before := View();
      var expiredKeys, popped := PopExpired(now);
      if expiredKeys != [] {
        RemoveAll(expiredKeys);
      }
      if Settled(before) {
        TickIsFilter(before, now);
      }
    }

    /** On a settled store the published length is the size of either structure. */
    method Len() returns (n: nat)
      ensures n == len
      ensures Settled(View()) ==> n == |entries| == |queue|
    {
      n := len;
      if Settled(View()) {
        SettledSizes(View());
      }
    }
  }
}
