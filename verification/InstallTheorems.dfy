/** Disjointness of the two contexts' key sets over whole runs of `Refresh`. */
module InstallTheorems {
  import opened Prelude
  import opened JwksIndex
  import opened Contexts
  import opened Refresh

  /** What one event leaves alone. */
  lemma StepFrame(c: Config, s: State, e: Event)
    requires Enabled(s, e)
    ensures
      var (th, cell) := Act(c, s, e);
      var after := Step(c, s, e);
      && after.threads == s.threads[e.t := th]
      && CellOf(after, th.tag) == cell
      && CellOf(after, Other(th.tag)) == CellOf(s, Other(th.tag))
      && after.steps == s.steps + 1
      && (e.t in s.threads ==> th.tag == s.threads[e.t].tag && th.request == s.threads[e.t].request)
  {
  }

  /** A refresh about to install `incoming` found it disjoint from what it saw in the
      other context at step `at`, and that is still there unless stored over since. */
  ghost predicate LookedAt(s: State, th: Thread) {
    th.pc.StoreOwn? ==>
      var other := CellOf(s, Other(th.tag));
      && th.pc.at < s.steps && th.pc.at != other.install.storedAt
      && Disjoint(th.pc.seen, th.pc.incoming)
      && (other.install.storedAt < th.pc.at ==> other.jwks == th.pc.seen)
  }

  ghost predicate Dated(s: State, tag: Tag) {
    var cell, other := CellOf(s, tag), CellOf(s, Other(tag));
    && cell.install.loadedAt < s.steps && cell.install.storedAt < s.steps
    && cell.install.loadedAt != other.install.storedAt
    && cell.install in cell.installs
  }

  /** A set installed after looking at the other context's current one is disjoint from it. */
  ghost predicate CheckedAgainst(s: State, tag: Tag) {
    CellOf(s, tag).install.loadedAt > CellOf(s, Other(tag)).install.storedAt ==> Disjoint(s.vault.jwks, s.admin.jwks)
  }

  ghost predicate Inv(s: State) {
    && (forall t | t in s.threads :: LookedAt(s, s.threads[t]))
    && (forall tag: Tag :: Dated(s, tag) && CheckedAgainst(s, tag))
  }

  lemma OwnLookedAt(c: Config, s: State, e: Event)
    requires Enabled(s, e) && (forall tag: Tag :: Dated(s, tag))
    requires e.t in s.threads ==> LookedAt(s, s.threads[e.t])
    ensures LookedAt(Step(c, s, e), Act(c, s, e).0)
  {
    hide Disjoint, ParseJwksSpec, TryWith, FirstVerdict, WinnerInFlight;
    if e.t in s.threads {
      assert Dated(s, s.threads[e.t].tag) && Dated(s, Other(s.threads[e.t].tag));
    }
  }

  lemma OtherLookedAt(c: Config, s: State, e: Event, th: Thread)
    requires Enabled(s, e) && LookedAt(s, th)
    ensures LookedAt(Step(c, s, e), th)
  {
    hide Disjoint, ParseJwksSpec, TryWith, FirstVerdict, WinnerInFlight;
  }

  /** Only a store changes what a context holds. */
  lemma OnlyStoresInstall(c: Config, s: State, e: Event, tag: Tag)
    requires Enabled(s, e) && !e.StoreNew?
    ensures CellOf(Step(c, s, e), tag).jwks == CellOf(s, tag).jwks
    ensures CellOf(Step(c, s, e), tag).install == CellOf(s, tag).install
    ensures CellOf(Step(c, s, e), tag).installs == CellOf(s, tag).installs
    ensures CellOf(Step(c, s, e), tag).history == CellOf(s, tag).history
    ensures Step(c, s, e).steps == s.steps + 1
  {
    hide Disjoint, ParseJwksSpec, TryWith, FirstVerdict, WinnerInFlight;
  }

  lemma StoreChecked(c: Config, s: State, e: Event, tag: Tag)
    requires Enabled(s, e) && e.StoreNew? && LookedAt(s, s.threads[e.t])
    requires Dated(s, Vault) && Dated(s, Admin)
    ensures Dated(Step(c, s, e), tag) && CheckedAgainst(Step(c, s, e), tag)
  {
    hide Disjoint, ParseJwksSpec, TryWith, FirstVerdict, WinnerInFlight;
    DisjointFlips(s.threads[e.t].pc.seen, s.threads[e.t].pc.incoming);
  }

  lemma CellsChecked(c: Config, s: State, e: Event, tag: Tag)
    requires Enabled(s, e) && (forall tag: Tag :: Dated(s, tag) && CheckedAgainst(s, tag))
    requires e.t in s.threads ==> LookedAt(s, s.threads[e.t])
    ensures Dated(Step(c, s, e), tag) && CheckedAgainst(Step(c, s, e), tag)
  {
    hide Disjoint, Step;
    assert Dated(s, tag) && CheckedAgainst(s, tag) && Dated(s, Other(tag));
    if e.StoreNew? {
      hide Dated, CheckedAgainst;
      StoreChecked(c, s, e, tag);
    } else {
      hide Enabled, LookedAt;
      OnlyStoresInstall(c, s, e, Vault);
      OnlyStoresInstall(c, s, e, Admin);
    }
  }

  lemma DisjointFlips(a: Jwks, b: Jwks)
    ensures Disjoint(a, b) == Disjoint(b, a)
  {
  }

  lemma StepKeepsInv(c: Config, s: State, e: Event)
    requires Inv(s) && Enabled(s, e)
    ensures Inv(Step(c, s, e))
  {
    StepFrame(c, s, e);
    hide Step, Act, Enabled, LookedAt, Dated, CheckedAgainst;
    var after := Step(c, s, e);
    OwnLookedAt(c, s, e);
    forall t | t in s.threads && t != e.t ensures LookedAt(after, s.threads[t]) {
      OtherLookedAt(c, s, e, s.threads[t]);
    }
    forall tag: Tag ensures Dated(after, tag) && CheckedAgainst(after, tag) {
      CellsChecked(c, s, e, tag);
    }
  }

  ghost predicate Reached(c: Config, s0: State, events: seq<Event>, s: State) {
    Initial(c, s0) && Run(c, s0, events) == Some(s)
  }

  lemma {:induction false} RunKeepsInv(c: Config, s0: State, events: seq<Event>, s: State)
    requires Reached(c, s0, events, s)
    ensures Inv(s)
  {
    if events != [] {
      var before := Run(c, s0, events[..|events| - 1]).value;
      var last := events[|events| - 1];
      assert Enabled(before, last) && s == Step(c, before, last);
      hide Initial, Inv, Enabled, Step;
      RunKeepsInv(c, s0, events[..|events| - 1], before);
      StepKeepsInv(c, before, last);
    }
  }

  /** In any run whatsoever, if the current key sets share a thumbprint, the refreshes
      that installed them overlapped: each had looked at the other context before the
      other one stored. */
  lemma SharedKeysMeanOverlap(c: Config, s0: State, events: seq<Event>, s: State)
    requires Reached(c, s0, events, s)
    requires !Disjoint(s.vault.jwks, s.admin.jwks)
    ensures s.vault.install.loadedAt < s.admin.install.storedAt
    ensures s.admin.install.loadedAt < s.vault.install.storedAt
    ensures s.vault.install in s.vault.installs && s.admin.install in s.admin.installs
  {
    RunKeepsInv(c, s0, events, s);
    assert Dated(s, Vault) && Dated(s, Admin) && CheckedAgainst(s, Vault) && CheckedAgainst(s, Admin);
  }

  /** No install of one context overlaps an install of the other. */
  ghost predicate InstallsApart(s: State) {
    forall v, a | v in s.vault.installs && a in s.admin.installs :: v.loadedAt > a.storedAt || a.loadedAt > v.storedAt
  }

  /** So the disjointness established at startup is kept as long as installs of different
      contexts do not overlap, however scheduled and on-demand refreshes mix within one. */
  lemma DisjointWhileApart(c: Config, s0: State, events: seq<Event>, s: State)
    requires Reached(c, s0, events, s) && InstallsApart(s)
    ensures Disjoint(s.vault.jwks, s.admin.jwks)
  {
    if !Disjoint(s.vault.jwks, s.admin.jwks) {
      SharedKeysMeanOverlap(c, s0, events, s);
    }
  }

  lemma RunAppend(c: Config, s0: State, events: seq<Event>, s: State, e: Event, after: State)
    requires Run(c, s0, events) == Some(s) && Enabled(s, e) && Step(c, s, e) == after
    ensures Run(c, s0, events + [e]) == Some(after)
  {
    assert (events + [e])[..|events|] == events;
  }

  lemma RunStart(c: Config, s0: State)
    ensures Run(c, s0, []) == Some(s0)
  {
  }

  lemma RunTwo(c: Config, s: State, first: Event, second: Event)
    requires Enabled(s, first) && Enabled(Step(c, s, first), second)
    ensures Run(c, s, [first, second]) == Some(Step(c, Step(c, s, first), second))
  {
    assert [first, second][..1] == [] + [first];
    RunAppend(c, s, [], s, first, Step(c, s, first));
    RunAppend(c, s, [first], Step(c, s, first), second, Step(c, Step(c, s, first), second));
    assert [first] + [second] == [first, second];
  }

  lemma {:induction false} RunConcat(c: Config, s0: State, first: seq<Event>, mid: State, rest: seq<Event>, s: State)
    requires Run(c, s0, first) == Some(mid) && Run(c, mid, rest) == Some(s)
    ensures Run(c, s0, first + rest) == Some(s)
  {
    if rest == [] {
      assert first + rest == first;
    } else {
      var init, last := rest[..|rest| - 1], rest[|rest| - 1];
      var before := Run(c, mid, init).value;
      RunConcat(c, s0, first, mid, init, before);
      RunAppend(c, s0, first + init, before, last, s);
      assert first + rest == first + init + [last];
    }
  }
}
