/** Two refreshes, one in each context, that are about to look at the other context with
    key sets that overlap: which orders of looking and storing let both sets in. */
module InstallRaces {
  import opened Prelude
  import opened JwksIndex
  import opened Contexts
  import opened Refresh
  import opened InstallTheorems

  ghost predicate Precedes(events: seq<Event>, first: Event, second: Event) {
    exists i, j :: 0 <= i < j < |events| && events[i] == first && events[j] == second
  }

  lemma PrecedesAppend(events: seq<Event>, last: Event, first: Event, second: Event)
    ensures Precedes(events + [last], first, second) <==>
              Precedes(events, first, second) || (last == second && first in events)
  {
    var all := events + [last];
    if first in events && last == second {
      var i :| 0 <= i < |events| && events[i] == first;
      assert all[i] == first && all[|events|] == second;
    }
    if i, j :| 0 <= i < j < |events| && events[i] == first && events[j] == second {
      assert all[i] == first && all[j] == second;
    }
    if i, j :| 0 <= i < j < |all| && all[i] == first && all[j] == second {
      assert events[i] == first;
    }
  }

  /** `t` and `u` hold overlapping sets, each disjoint from what the other context has. */
  ghost predicate Racing(s: State, t: Tid, u: Tid) {
    && t in s.threads && s.threads[t].tag == Vault && s.threads[t].pc.LoadOther?
    && u in s.threads && s.threads[u].tag == Admin && s.threads[u].pc.LoadOther?
    && !Disjoint(s.threads[t].pc.incoming, s.threads[u].pc.incoming)
    && Disjoint(s.admin.jwks, s.threads[t].pc.incoming)
    && Disjoint(s.vault.jwks, s.threads[u].pc.incoming)
  }

  /** Nobody else installs, and the two refreshes go through: neither vanishes nor finds
      the other context gone. */
  predicate Undisturbed(events: seq<Event>, t: Tid, u: Tid) {
    forall i | 0 <= i < |events| :: Harmless(events[i], t, u)
  }

  predicate Harmless(e: Event, t: Tid, u: Tid) {
    && (e.StoreNew? ==> e.t == t || e.t == u)
    && (e.t == t || e.t == u ==> !e.Vanish? && (e.LookAtOther? ==> e.reachable))
  }

  /** A refresh that has installed or been refused, and whatever comes after that. */
  predicate Over(th: Thread) { th.pc.Complete? || th.pc.Finished? || th.pc.Retry? || th.pc.Decided? }

  /** How far one side is: whether it has `looked`, whether that was too `late`, the other
      side having stored before, and whether it has `stored`. */
  ghost predicate Side(x: State, t: Tid, tag: Tag, incoming: Jwks, before: Jwks,
                       looked: bool, late: bool, stored: bool) {
    && t in x.threads && x.threads[t].tag == tag
    && CellOf(x, tag).jwks == (if stored then incoming else before)
    && (late || stored ==> looked && Over(x.threads[t]))
    && !(late && stored)
    && (!looked ==> x.threads[t].pc == LoadOther(incoming))
    && (looked && !late && !stored ==> x.threads[t].pc.StoreOwn? && x.threads[t].pc.incoming == incoming)
  }

  /** One side through one event of its own thread. */
  lemma OwnSide(c: Config, x: State, e: Event, tag: Tag, incoming: Jwks, before: Jwks,
                looked: bool, late: bool, stored: bool, otherStored: bool)
    requires Enabled(x, e) && Harmless(e, e.t, e.t) && Side(x, e.t, tag, incoming, before, looked, late, stored)
    requires Disjoint(CellOf(x, Other(tag)).jwks, incoming) <==> !otherStored
    ensures Side(Step(c, x, e), e.t, tag, incoming, before,
                 looked || e == LookAtOther(e.t, true),
                 late || (e == LookAtOther(e.t, true) && otherStored),
                 stored || e == StoreNew(e.t))
  {
    hide Disjoint, ParseJwksSpec, TryWith, FirstVerdict, WinnerInFlight;
  }

  /** One side through one event of another thread. */
  lemma OtherSide(c: Config, x: State, e: Event, t: Tid, tag: Tag, incoming: Jwks, before: Jwks,
                  looked: bool, late: bool, stored: bool)
    requires Enabled(x, e) && e.t != t && Side(x, t, tag, incoming, before, looked, late, stored)
    requires e.StoreNew? ==> x.threads[e.t].tag != tag
    ensures Side(Step(c, x, e), t, tag, incoming, before, looked, late, stored)
  {
    StepFrame(c, x, e);
    if !e.StoreNew? {
      OnlyStoresInstall(c, x, e, tag);
    }
    hide Step, Act, Enabled;
  }

  ghost predicate SideAfter(x: State, events: seq<Event>, t: Tid, u: Tid, tag: Tag, incoming: Jwks, before: Jwks) {
    Side(x, t, tag, incoming, before,
         LookAtOther(t, true) in events, Precedes(events, StoreNew(u), LookAtOther(t, true)), StoreNew(t) in events)
  }

  lemma SideStep(c: Config, x: State, events: seq<Event>, e: Event, t: Tid, u: Tid, tag: Tag,
                 incoming: Jwks, before: Jwks, otherIncoming: Jwks, otherBefore: Jwks)
    requires Enabled(x, e) && t != u && Harmless(e, t, u)
    requires SideAfter(x, events, t, u, tag, incoming, before)
    requires SideAfter(x, events, u, t, Other(tag), otherIncoming, otherBefore)
    requires !Disjoint(otherIncoming, incoming) && Disjoint(otherBefore, incoming)
    ensures SideAfter(Step(c, x, e), events + [e], t, u, tag, incoming, before)
  {
    hide Disjoint, Step, Enabled, Precedes;
    PrecedesAppend(events, e, StoreNew(u), LookAtOther(t, true));
    var looked, stored := LookAtOther(t, true) in events, StoreNew(t) in events;
    var late := Precedes(events, StoreNew(u), LookAtOther(t, true));
    if e.t == t {
      OwnSide(c, x, e, tag, incoming, before, looked, late, stored, StoreNew(u) in events);
    } else {
      OtherSide(c, x, e, t, tag, incoming, before, looked, late, stored);
    }
  }

  lemma {:induction false} SidesAfter(c: Config, s: State, events: seq<Event>, x: State, t: Tid, u: Tid)
    requires Racing(s, t, u) && Undisturbed(events, t, u) && Run(c, s, events) == Some(x)
    ensures SideAfter(x, events, t, u, Vault, s.threads[t].pc.incoming, s.vault.jwks)
    ensures SideAfter(x, events, u, t, Admin, s.threads[u].pc.incoming, s.admin.jwks)
  {
    if events != [] {
      var init, last := events[..|events| - 1], events[|events| - 1];
      var before := Run(c, s, init).value;
      var iv, ia := s.threads[t].pc.incoming, s.threads[u].pc.incoming;
      assert Enabled(before, last) && x == Step(c, before, last) && events == init + [last];
      SidesAfter(c, s, init, before, t, u);
      DisjointFlips(iv, ia);
      assert Harmless(last, t, u) && Harmless(last, u, t);
      hide Run, Enabled, Step, SideAfter, Disjoint;
      SideStep(c, before, init, last, t, u, Vault, iv, s.vault.jwks, ia, s.admin.jwks);
      SideStep(c, before, init, last, u, t, Admin, ia, s.admin.jwks, iv, s.vault.jwks);
    }
  }

  /** Over every order in which the two refreshes and any others take their steps: the two
      contexts end up sharing a key exactly when neither store came before the other
      refresh's look. */
  lemma SharedIffLooksCameFirst(c: Config, s: State, events: seq<Event>, after: State, t: Tid, u: Tid)
    requires Racing(s, t, u) && Undisturbed(events, t, u) && Run(c, s, events) == Some(after)
    requires t in after.threads && Over(after.threads[t]) && u in after.threads && Over(after.threads[u])
    ensures !Disjoint(after.vault.jwks, after.admin.jwks) <==>
            && !Precedes(events, StoreNew(t), LookAtOther(u, true))
            && !Precedes(events, StoreNew(u), LookAtOther(t, true))
  {
    SidesAfter(c, s, events, after, t, u);
    DisjointFlips(s.admin.jwks, s.threads[t].pc.incoming);
    hide Run, Undisturbed, Disjoint;
  }

  /** Two racing refreshes that both look before either stores. */
  lemma BothLook(c: Config, s: State, t: Tid, u: Tid) returns (events: seq<Event>, after: State)
    requires Racing(s, t, u)
    ensures events == [LookAtOther(t, true), LookAtOther(u, true)] && Run(c, s, events) == Some(after)
    ensures after.vault == s.vault && after.admin == s.admin && after.threads.Keys == s.threads.Keys
    ensures after.threads[t].tag == Vault && after.threads[t].pc.StoreOwn?
    ensures after.threads[u].tag == Admin && after.threads[u].pc.StoreOwn?
    ensures after.threads[t].pc.incoming == s.threads[t].pc.incoming
    ensures after.threads[u].pc.incoming == s.threads[u].pc.incoming
  {
    hide Run, Disjoint, TryWith, FirstVerdict, WinnerInFlight, ParseJwksSpec;
    after := Step(c, Step(c, s, LookAtOther(t, true)), LookAtOther(u, true));
    RunTwo(c, s, LookAtOther(t, true), LookAtOther(u, true));
    events := [LookAtOther(t, true), LookAtOther(u, true)];
  }

  lemma BothStore(c: Config, s: State, t: Tid, u: Tid) returns (events: seq<Event>, after: State)
    requires t in s.threads && s.threads[t].tag == Vault && s.threads[t].pc.StoreOwn?
    requires u in s.threads && s.threads[u].tag == Admin && s.threads[u].pc.StoreOwn?
    ensures events == [StoreNew(t), StoreNew(u)] && Run(c, s, events) == Some(after)
    ensures t in after.threads && Over(after.threads[t]) && u in after.threads && Over(after.threads[u])
    ensures after.vault.jwks == s.threads[t].pc.incoming && after.admin.jwks == s.threads[u].pc.incoming
  {
    hide Run, Disjoint, TryWith, FirstVerdict, WinnerInFlight, ParseJwksSpec;
    after := Step(c, Step(c, s, StoreNew(t)), StoreNew(u));
    RunTwo(c, s, StoreNew(t), StoreNew(u));
    events := [StoreNew(t), StoreNew(u)];
  }

  /** An order in which both install is open to every pair of refreshes that race. */
  lemma BothCanInstall(c: Config, s: State, t: Tid, u: Tid) returns (events: seq<Event>, after: State)
    requires Racing(s, t, u)
    ensures Undisturbed(events, t, u) && Run(c, s, events) == Some(after)
    ensures t in after.threads && Over(after.threads[t]) && u in after.threads && Over(after.threads[u])
    ensures after.vault.jwks == s.threads[t].pc.incoming && after.admin.jwks == s.threads[u].pc.incoming
    ensures !Disjoint(after.vault.jwks, after.admin.jwks)
  {
    hide Run, Disjoint;
    var looks, mid := BothLook(c, s, t, u);
    var stores, x := BothStore(c, mid, t, u);
    RunConcat(c, s, looks, mid, stores, x);
    events, after := looks + stores, x;
  }

  function Scheduled(tag: Tag, pc: Pc): Thread {
    Thread(tag, None, None, None, 0, None, pc)
  }

  /** And races happen: two scheduled refreshes that both receive the document `keys` can
      install it in both contexts. */
  lemma OverlappingInstallsShareKeys(c: Config, vault: Jwks, admin: Jwks, keys: seq<RawJwk>, shared: Jwks)
    returns (s0: State, events: seq<Event>, s: State)
    requires Parsed(c, vault) && Parsed(c, admin) && ParseJwksSpec(c.sha256, keys) == Good(shared)
    requires Disjoint(vault, admin) && Disjoint(vault, shared) && Disjoint(admin, shared)
    ensures Reached(c, s0, events, s) && s.vault.jwks == shared && s.admin.jwks == shared
    ensures !Disjoint(s.vault.jwks, s.admin.jwks)
  {
    s0 := State(FreshCell(vault), FreshCell(admin), map[], 2);
    assert Initial(c, s0);
    SharedHasThumbprint(c, keys, shared);
    hide Initial, Parsed, ParseJwksSpec, Disjoint, Run;
    var before, s4 := FetchBoth(c, s0, keys, shared);
    var both, x := BothCanInstall(c, s4, 0, 1);
    RunConcat(c, s0, before, s4, both, x);
    events, s := before + both, x;
  }

  /** Both contexts' scheduled refreshes have received the same document. */
  lemma FetchBoth(c: Config, s0: State, keys: seq<RawJwk>, shared: Jwks) returns (events: seq<Event>, s4: State)
    requires s0.threads == map[] && s0.steps == 2 && ParseJwksSpec(c.sha256, keys) == Good(shared)
    ensures Run(c, s0, events) == Some(s4)
    ensures s4 == State(s0.vault, s0.admin,
                        map[0 := Scheduled(Vault, LoadOther(shared)), 1 := Scheduled(Admin, LoadOther(shared))], 6)
  {
    RunStart(c, s0);
    hide ParseJwksSpec, Disjoint, WinnerInFlight, TryWith, FirstVerdict, Run;
    var v0, a0 := s0.vault, s0.admin;

    var s1 := State(v0, a0, map[0 := Scheduled(Vault, Fetching)], 3);
    RunAppend(c, s0, [], s0, StartScheduled(0, Vault), s1);
    var e1 := [] + [StartScheduled(0, Vault)];

    var s2 := State(v0, a0, map[0 := Scheduled(Vault, Fetching), 1 := Scheduled(Admin, Fetching)], 4);
    RunAppend(c, s0, e1, s1, StartScheduled(1, Admin), s2);
    var e2 := e1 + [StartScheduled(1, Admin)];

    var s3 := State(v0, a0, map[0 := Scheduled(Vault, LoadOther(shared)), 1 := Scheduled(Admin, Fetching)], 5);
    RunAppend(c, s0, e2, s2, Fetched(0, keys), s3);
    var e3 := e2 + [Fetched(0, keys)];

    s4 := State(v0, a0, map[0 := Scheduled(Vault, LoadOther(shared)), 1 := Scheduled(Admin, LoadOther(shared))], 6);
    RunAppend(c, s0, e3, s3, Fetched(1, keys), s4);
    events := e3 + [Fetched(1, keys)];
  }

  lemma SharedHasThumbprint(c: Config, keys: seq<RawJwk>, shared: Jwks)
    requires ParseJwksSpec(c.sha256, keys) == Good(shared)
    ensures !Disjoint(shared, shared)
  {
    var entries := Accepted(c.sha256, keys);
    IndexByThumbprint(entries, entries[0].thumbprint);
    assert entries[0].thumbprint in shared.byThumbprint.Keys;
  }
}
