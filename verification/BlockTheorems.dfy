/** What the invariants of `BlockProofs` mean for the callers of the block store:
    results about every run from an empty store. */
module BlockTheorems {
  import opened Prelude
  import opened BlockNames
  import opened FileSystem
  import opened BlockRuns
  import opened BlockProofs

  /** `s` is reachable from an empty store. */
  ghost predicate Reached(c: Config, s0: State, events: seq<Event>, s: State) {
    Initial(c, s0) && Run(c, s0, events) == Some(s)
  }

  lemma {:induction false} RunKeepsInv(c: Config, s0: State, events: seq<Event>, s: State)
    requires Reached(c, s0, events, s)
    ensures Inv(c, s)
  {
    if events == [] {
      InitialInv(c, s);
    } else {
      var before := Run(c, s0, events[..|events| - 1]).value;
      var last := events[|events| - 1];
      assert Enabled(c, before, last) && s == Step(c, before, last);
      hide Initial, Inv, Enabled, Step;
      RunKeepsInv(c, s0, events[..|events| - 1], before);
      StepKeepsInv(c, before, last);
    }
  }

  /** The store refines an atomic map, in every run: the bytes behind the block paths
      are the map built by one legal sequence of operations, in which every operation
      that reported success occurs once, after it was called, with its own answer. */
  lemma AtomicMap(c: Config, s0: State, events: seq<Event>, s: State)
    requires Reached(c, s0, events, s)
    ensures WellFormed(s.fs) && Visible(c.root, s.fs) == Replay(s.history)
    ensures Legal(s.history)
    ensures forall t | t in s.threads && s.threads[t].pc.Done? && s.threads[t].pc.outcome != Failed ::
              && s.threads[t].lin.Some?
              && s.threads[t].begun <= s.threads[t].lin.value < |s.history|
              && s.history[s.threads[t].lin.value] == Entry(t, s.threads[t].cmd, s.threads[t].pc.outcome)
    ensures forall i, j | 0 <= i < j < |s.history| :: s.history[i].tid != s.history[j].tid
  {
    RunKeepsInv(c, s0, events, s);
    hide Typed, Owns, Apart, Legal, Replay, Visible;
    forall t | t in s.threads && s.threads[t].pc.Done? && s.threads[t].pc.outcome != Failed
      ensures
        && s.threads[t].lin.Some?
        && s.threads[t].begun <= s.threads[t].lin.value < |s.history|
        && s.history[s.threads[t].lin.value] == Entry(t, s.threads[t].cmd, s.threads[t].pc.outcome)
    {
      assert Recorded(s, t, s.threads[t]);
    }
  }

  /** `j` is the last operation on `id` before position `end`, and it stored `bytes`. */
  ghost predicate LastWrite(history: seq<Entry>, id: BlockId, end: nat, j: nat, bytes: Bytes) {
    && j < end <= |history|
    && history[j].cmd == PutCmd(id, bytes)
    && forall k | j < k < end :: !Overwrites(history[k].cmd, id)
  }

  predicate Overwrites(cmd: Cmd, id: BlockId) {
    (cmd.PutCmd? || cmd.DeleteCmd?) && cmd.id == id
  }

  /** Where the map's value for `id` comes from: the last put that no later put or
      delete replaced. */
  lemma {:induction false} Provenance(history: seq<Entry>, id: BlockId) returns (j: nat)
    requires id in Replay(history)
    ensures LastWrite(history, id, |history|, j, Replay(history)[id])
  {
    var last := |history| - 1;
    if Overwrites(history[last].cmd, id) {
      j := last;
    } else {
      j := Provenance(history[..last], id);
      assert forall k | 0 <= k < last :: history[..last][k] == history[k];
    }
  }

  /** A put in the history is a thread's, and it reported success. */
  lemma PutStored(c: Config, s: State, j: nat)
    requires Inv(c, s) && j < |s.history| && s.history[j].cmd.PutCmd?
    ensures
      var writer := s.history[j].tid;
      writer in s.threads && s.threads[writer].cmd == s.history[j].cmd && s.threads[writer].pc == Done(Stored)
  {
    assert s.history[j].outcome == Answer(Replay(s.history[..j]), s.history[j].cmd) == Stored;
    var writer := s.history[j].tid;
    assert Recorded(s, writer, s.threads[writer]);
    hide Typed, Owns, Apart, Legal, Replay, Visible;
  }

  /** What a get found is what the map held where the get took effect. */
  lemma ReadAt(c: Config, s: State, t: Tid) returns (i: nat)
    requires Inv(c, s)
    requires t in s.threads && s.threads[t].cmd.GetCmd? && s.threads[t].pc.Done? && s.threads[t].pc.outcome.Found?
    ensures s.threads[t].lin == Some(i) && i < |s.history|
    ensures s.threads[t].cmd.id in Replay(s.history[..i])
    ensures Replay(s.history[..i])[s.threads[t].cmd.id] == s.threads[t].pc.outcome.bytes
  {
    assert Recorded(s, t, s.threads[t]);
    i := s.threads[t].lin.value;
    assert s.history[i].outcome == Answer(Replay(s.history[..i]), s.history[i].cmd);
    hide Inv, Replay, Recorded;
  }

  /** A get that found something returned the whole payload of one put that reported
      success: the last one on that identifier when the get took effect. */
  lemma GetReturnsOneWholePut(c: Config, s0: State, events: seq<Event>, s: State, t: Tid) returns (j: nat)
    requires Reached(c, s0, events, s)
    requires t in s.threads && s.threads[t].cmd.GetCmd? && s.threads[t].pc.Done? && s.threads[t].pc.outcome.Found?
    ensures s.threads[t].lin.Some?
    ensures LastWrite(s.history, s.threads[t].cmd.id, s.threads[t].lin.value, j, s.threads[t].pc.outcome.bytes)
    ensures
      var writer := s.history[j].tid;
      && writer in s.threads
      && s.threads[writer].cmd == PutCmd(s.threads[t].cmd.id, s.threads[t].pc.outcome.bytes)
      && s.threads[writer].pc == Done(Stored)
  {
    RunKeepsInv(c, s0, events, s);
    var i := ReadAt(c, s, t);
    hide Inv, Reached, Replay, Visible;
    j := Provenance(s.history[..i], s.threads[t].cmd.id);
    assert forall k | 0 <= k < i :: s.history[..i][k] == s.history[k];
    PutStored(c, s, j);
  }

  /** An operation that failed, or that stopped before taking effect, left no trace in
      the map: only a get can have an entry without having reported success. */
  lemma FailureHasNoEffect(c: Config, s0: State, events: seq<Event>, s: State, t: Tid, i: nat)
    requires Reached(c, s0, events, s)
    requires t in s.threads && !s.threads[t].cmd.GetCmd?
    requires i < |s.history| && s.history[i].tid == t
    ensures s.threads[t].pc == Done(s.history[i].outcome) && s.history[i].outcome != Failed
  {
    RunKeepsInv(c, s0, events, s);
    assert Recorded(s, t, s.threads[t]);
  }

  /** Every operation in a run was called in it. */
  lemma {:induction false} BegunInRun(c: Config, s0: State, events: seq<Event>, s: State, t: Tid)
    requires Reached(c, s0, events, s) && t in s.threads
    ensures Begin(t, s.threads[t].cmd) in events
  {
    var init, last := events[..|events| - 1], events[|events| - 1];
    var before := Run(c, s0, init).value;
    assert Enabled(c, before, last) && s == Step(c, before, last);
    if last != Begin(t, s.threads[t].cmd) {
      BegunInRun(c, s0, init, before, t);
    }
  }

  /** Every visible block is the payload of a put that was called in the run. */
  lemma VisibleWasPut(c: Config, s0: State, events: seq<Event>, s: State, id: BlockId) returns (writer: Tid)
    requires Reached(c, s0, events, s)
    requires WellFormed(s.fs) && id in Visible(c.root, s.fs)
    ensures Begin(writer, PutCmd(id, Visible(c.root, s.fs)[id])) in events
    ensures writer in s.threads && s.threads[writer].pc == Done(Stored)
  {
    RunKeepsInv(c, s0, events, s);
    var j := Provenance(s.history, id);
    hide Owns, Apart, Replay, Visible, Typed;
    PutStored(c, s, j);
    writer := s.history[j].tid;
    BegunInRun(c, s0, events, s, writer);
  }

  /** An inode some block path names, or some get has open. */
  ghost predicate Settled(c: Config, s: State, i: Inode) {
    || Published(c.root, s.fs, i)
    || exists t :: t in s.threads && s.threads[t].pc.Reading? && s.threads[t].pc.inode == i
  }

  lemma SettledIsNotWritten(c: Config, s: State, i: Inode, t: Tid)
    requires Inv(c, s) && Settled(c, s, i)
    ensures i in s.fs.data && i < s.fs.next
    ensures t in s.threads && HoldsInode(s.threads[t]) ==> s.threads[t].pc.inode != i
  {
    hide Replay, Legal, Visible, BlockPath, TempPath, ValidId, Recorded;
    if t in s.threads {
      assert Owns(c, s.fs, s.threads[t]);
    }
    if !Published(c.root, s.fs, i) {
      var reader :| reader in s.threads && s.threads[reader].pc.Reading? && s.threads[reader].pc.inode == i;
      assert Owns(c, s.fs, s.threads[reader]);
      if t in s.threads && t != reader {
        assert Apart(c, s.threads[t], s.threads[reader]);
      }
    }
  }

  /** The reason no reader sees a mixture: the bytes of a settled inode never change
      again, whatever any operation does next. */
  lemma SettledNeverChanges(c: Config, s: State, e: Event, i: Inode)
    requires Inv(c, s) && Enabled(c, s, e) && Settled(c, s, i)
    ensures i in s.fs.data
    ensures i in Step(c, s, e).fs.data && Step(c, s, e).fs.data[i] == s.fs.data[i]
  {
    SettledIsNotWritten(c, s, i, e.t);
    hide Inv, Settled, BlockPath, TempPath, ValidId;
  }

  /** The guards of the machine hide no behaviour: whatever the others have done, an
      operation that has not finished can take its next step without failing. */
  lemma NeverStuck(c: Config, s: State, t: Tid, free: string) returns (e: Event)
    requires Inv(c, s) && t in s.threads
    requires !s.threads[t].pc.Done? && !s.threads[t].pc.Stopped?
    requires s.threads[t].pc.ShardReady? ==>
               ValidId(s.threads[t].cmd.id) && TempPath(c.root, s.threads[t].cmd.id, free) !in s.fs.names
    ensures Enabled(c, s, e) && e.t == t && !e.FailCall? && !e.Stop?
  {
    var th := s.threads[t];
    assert Typed(c, th) && Owns(c, s.fs, th) && Recorded(s, t, th) && WellFormed(s.fs);
    hide Inv, Replay, Legal, Visible, BlockPath, TempPath, Published;
    match th.pc
    case Start =>
      e := match th.cmd
        case GetCmd(_) => Open(t)
        case PutCmd(_, _) => MakeDirs(t)
        case DeleteCmd(_) => Remove(t)
        case ExistsCmd(_) => Probe(t);
    case ShardReady => e := CreateTemp(t, free);
    case Writing(_, _, written) =>
      e := if written < |th.cmd.payload| then WriteUpTo(t, written + 1) else Sync(t);
    case Synced(_, _) => e := Persist(t);
    case CleanUp(_) => e := DropTemp(t, true);
    case Reading(i, buffer) =>
      e := if |buffer| < |s.fs.data[i]| then ReadUpTo(t, |buffer| + 1) else ReadEnd(t);
  }

  // ---- real-time order ----

  ghost predicate Extends(s: State, after: State) {
    && |s.history| <= |after.history|
    && (forall t | t in s.threads ::
          && t in after.threads
          && after.threads[t].begun == s.threads[t].begun
          && (s.threads[t].lin.Some? ==> after.threads[t].lin == s.threads[t].lin))
  }

  lemma StepExtends(c: Config, s: State, e: Event)
    requires Inv(c, s) && Enabled(c, s, e)
    ensures Extends(s, Step(c, s, e))
  {
    assert e.t in s.threads ==> Recorded(s, e.t, s.threads[e.t]);
    hide Inv, Enabled, Step, Recorded;
    ShapeOfStep(c, s, e);
  }

  lemma {:induction false} RunExtends(c: Config, s: State, events: seq<Event>, after: State)
    requires Inv(c, s) && Run(c, s, events) == Some(after)
    ensures Inv(c, after) && Extends(s, after)
  {
    if events != [] {
      var before := Run(c, s, events[..|events| - 1]).value;
      var last := events[|events| - 1];
      assert Enabled(c, before, last) && after == Step(c, before, last);
      hide Inv, Enabled, Step;
      RunExtends(c, s, events[..|events| - 1], before);
      StepKeepsInv(c, before, last);
      StepExtends(c, before, last);
    }
  }

  /** An operation that returned before another was called takes effect before it. */
  lemma RealTimeOrder(c: Config, s0: State, first: seq<Event>, mid: State,
                      begin: Event, rest: seq<Event>, s: State, t: Tid)
    requires Reached(c, s0, first, mid)
    requires t in mid.threads && mid.threads[t].pc.Done? && mid.threads[t].pc.outcome != Failed
    requires begin.Begin? && Enabled(c, mid, begin) && Run(c, Step(c, mid, begin), rest) == Some(s)
    ensures t in s.threads && s.threads[t].lin.Some? && begin.t in s.threads
    ensures s.threads[begin.t].lin.Some? ==> s.threads[t].lin.value < s.threads[begin.t].lin.value
  {
    RunKeepsInv(c, s0, first, mid);
    assert Recorded(mid, t, mid.threads[t]);
    StepKeepsInv(c, mid, begin);
    RunExtends(c, Step(c, mid, begin), rest, s);
    assert t in Step(c, mid, begin).threads;
    assert Recorded(s, begin.t, s.threads[begin.t]);
  }
}
