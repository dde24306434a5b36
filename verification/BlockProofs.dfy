/** The refinement invariant of `BlockRuns`: who may write which inode, who has which
    temporary name, what has taken effect; and that every step keeps it. */
module BlockProofs {
  import opened Prelude
  import opened BlockNames
  import opened FileSystem
  import opened BlockRuns

  predicate HoldsTemp(th: Thread) { th.pc.Writing? || th.pc.Synced? || th.pc.CleanUp? }

  predicate HoldsInode(th: Thread) { th.pc.Writing? || th.pc.Synced? }

  function WrittenPart(th: Thread): Bytes
    requires th.cmd.PutCmd? && HoldsInode(th)
  {
    if th.pc.Writing? && th.pc.written <= |th.cmd.payload| then th.cmd.payload[..th.pc.written] else th.cmd.payload
  }

  predicate Typed(c: Config, th: Thread) {
    && ValidId(th.cmd.id)
    && (HoldsTemp(th) || th.pc.ShardReady? ==> th.cmd.PutCmd?)
    && (th.pc.Reading? ==> th.cmd.GetCmd?)
    && (th.pc.Writing? ==> th.pc.written <= |th.cmd.payload|)
  }

  /** A put in progress owns its temporary name and, until it gives up, the unpublished
      inode behind it; a get in progress has read a prefix of its inode. */
  ghost predicate Owns(c: Config, fs: Fs, th: Thread)
    requires Typed(c, th)
  {
    && (th.pc.ShardReady? ==> ShardDir(c.root, th.cmd.id) in fs.dirs)
    && (HoldsTemp(th) ==> Tmp(c, th) in fs.names)
    && (HoldsInode(th) ==>
          && fs.names[Tmp(c, th)] == th.pc.inode
          && th.pc.inode in fs.data
          && fs.data[th.pc.inode] == WrittenPart(th)
          && !Published(c.root, fs, th.pc.inode))
    && (th.pc.Reading? ==> th.pc.inode in fs.data && th.pc.buffer <= fs.data[th.pc.inode])
  }

  /** The thread and the history agree on whether, when and how it took effect. */
  ghost predicate Recorded(s: State, t: Tid, th: Thread) {
    && th.begun <= |s.history|
    && (th.lin.Some? ==>
          && th.begun <= th.lin.value < |s.history|
          && s.history[th.lin.value].tid == t
          && s.history[th.lin.value].cmd == th.cmd
          && (!th.cmd.GetCmd? ==> th.pc.Done? && th.pc.outcome != Failed)
          && (th.pc.Reading? && th.pc.inode in s.fs.data ==>
                s.history[th.lin.value].outcome == Found(s.fs.data[th.pc.inode])))
    && (th.pc.Reading? ==> th.lin.Some?)
    && (th.pc.Start? ==> th.lin.None?)
    && (th.pc.Done? && th.pc.outcome != Failed ==>
          th.lin.Some? && s.history[th.lin.value].outcome == th.pc.outcome)
  }

  /** Two operations never share a temporary name, nor an inode one of them writes. */
  predicate Apart(c: Config, a: Thread, b: Thread)
    requires Typed(c, a) && Typed(c, b)
  {
    && (HoldsTemp(a) && HoldsTemp(b) ==> Tmp(c, a) != Tmp(c, b))
    && (HoldsInode(a) && (HoldsInode(b) || b.pc.Reading?) ==> a.pc.inode != b.pc.inode)
    && (HoldsInode(b) && (HoldsInode(a) || a.pc.Reading?) ==> a.pc.inode != b.pc.inode)
  }

  /** What clients see is the map that the history builds, and the history is legal. */
  ghost predicate Refines(c: Config, s: State) {
    && WellFormed(s.fs)
    && Visible(c.root, s.fs) == Replay(s.history)
    && Legal(s.history)
  }

  ghost predicate Inv(c: Config, s: State) {
    && Refines(c, s)
    && (forall t | t in s.threads :: Typed(c, s.threads[t]))
    && (forall t | t in s.threads :: Owns(c, s.fs, s.threads[t]))
    && (forall t | t in s.threads :: Recorded(s, t, s.threads[t]))
    && (forall t, u | t in s.threads && u in s.threads && t != u :: Apart(c, s.threads[t], s.threads[u]))
    && (forall i | 0 <= i < |s.history| ::
          s.history[i].tid in s.threads && s.threads[s.history[i].tid].lin == Some(i))
  }

  lemma InitialInv(c: Config, s: State)
    requires Initial(c, s)
    ensures Inv(c, s)
  {
  }

  // ---- the history ----

  lemma ReplayAppend(history: seq<Entry>, e: Entry)
    ensures Replay(history + [e]) == Effect(Replay(history), e.cmd)
  {
    assert (history + [e])[..|history|] == history;
  }

  lemma LegalAppend(history: seq<Entry>, e: Entry)
    requires Legal(history) && e.outcome == Answer(Replay(history), e.cmd)
    ensures Legal(history + [e])
  {
    var h := history + [e];
    forall i | 0 <= i < |h| ensures h[i].outcome == Answer(Replay(h[..i]), h[i].cmd) {
      assert h[..i] == history[..i];
      assert history[..|history|] == history;
    }
  }

  // ---- every event keeps the invariant ----

  /** A change of the file system that leaves alone what `th` relies on. */
  ghost predicate Undisturbed(c: Config, fs: Fs, after: Fs, th: Thread)
    requires Typed(c, th) && Owns(c, fs, th)
  {
    && fs.dirs <= after.dirs
    && (HoldsTemp(th) ==> Tmp(c, th) in after.names && after.names[Tmp(c, th)] == fs.names[Tmp(c, th)])
    && (HoldsInode(th) || th.pc.Reading? ==>
          th.pc.inode in after.data && after.data[th.pc.inode] == fs.data[th.pc.inode])
    && (HoldsInode(th) && Published(c.root, after, th.pc.inode) ==> Published(c.root, fs, th.pc.inode))
  }

  /** What an event may do outside the file system: change its own thread, and
      extend the history by an entry of that thread. */
  ghost predicate Shaped(s: State, after: State, t: Tid) {
    && t in after.threads
    && after.threads == s.threads[t := after.threads[t]]
    && (|| (after.history == s.history && after.threads[t].lin == (if t in s.threads then s.threads[t].lin else None))
        || (&& t in s.threads && s.threads[t].lin.None?
            && |after.history| == |s.history| + 1
            && after.history[..|s.history|] == s.history
            && after.history[|s.history|].tid == t
            && after.threads[t].lin == Some(|s.history|)))
  }

  /** The event's own thread satisfies what the invariant says about it. */
  ghost predicate Good(c: Config, s: State, t: Tid) {
    t in s.threads && Typed(c, s.threads[t]) && Owns(c, s.fs, s.threads[t]) && Recorded(s, t, s.threads[t])
  }

  lemma ShapeOfStep(c: Config, s: State, e: Event)
    requires Enabled(c, s, e) && (e.t in s.threads ==> Recorded(s, e.t, s.threads[e.t]))
    ensures Shaped(s, Step(c, s, e), e.t)
    ensures e.t in s.threads ==> Step(c, s, e).threads[e.t].cmd == s.threads[e.t].cmd
    ensures e.t in s.threads ==> Step(c, s, e).threads[e.t].begun == s.threads[e.t].begun
  {
    hide BlockPath, TempPath, ValidId;
  }

  // ---- the event's own thread ----

  lemma BeginGood(c: Config, s: State, e: Event)
    requires Enabled(c, s, e) && e.Begin?
    ensures Good(c, Step(c, s, e), e.t)
  {
  }

  lemma LocalGood(c: Config, s: State, e: Event)
    requires Good(c, s, e.t) && Enabled(c, s, e)
    requires e.MakeDirs? || e.Sync? || e.FailCall? || e.Stop? || e.ReadUpTo? || e.ReadEnd? || e.DropTemp?
    ensures Good(c, Step(c, s, e), e.t)
  {
    hide BlockPath, TempPath, ValidId, Published;
  }

  lemma CreateGood(c: Config, s: State, e: Event)
    requires WellFormed(s.fs) && Good(c, s, e.t) && Enabled(c, s, e) && e.CreateTemp?
    ensures Good(c, Step(c, s, e), e.t)
  {
    hide BlockPath, TempPath, ValidId, Published;
    CreatePublishesNothing(c.root, s.fs, s.threads[e.t].cmd.id, e.random, s.fs.next);
  }

  lemma WriteGood(c: Config, s: State, e: Event)
    requires WellFormed(s.fs) && Good(c, s, e.t) && Enabled(c, s, e) && e.WriteUpTo?
    ensures Good(c, Step(c, s, e), e.t)
  {
    hide BlockPath, TempPath, ValidId, Published;
    var th := s.threads[e.t];
    assert th.cmd.payload[..th.pc.written] + th.cmd.payload[th.pc.written..e.upTo] == th.cmd.payload[..e.upTo];
    SameNamesPublishSame(c.root, s.fs, Append(s.fs, th.pc.inode, th.cmd.payload[th.pc.written..e.upTo]), th.pc.inode);
  }

  lemma EffectGood(c: Config, s: State, e: Event)
    requires WellFormed(s.fs) && Good(c, s, e.t) && Enabled(c, s, e)
    requires e.Persist? || e.Remove? || e.Probe? || e.Open?
    ensures Good(c, Step(c, s, e), e.t)
  {
    hide BlockPath, TempPath, ValidId, Published, Visible;
  }

  lemma OwnThread(c: Config, s: State, e: Event)
    requires WellFormed(s.fs) && Enabled(c, s, e) && (e.t in s.threads ==> Good(c, s, e.t))
    ensures Good(c, Step(c, s, e), e.t)
  {
    assert !e.Begin? ==> e.t in s.threads;
    hide *;
    match e
    case Begin(_, _) => BeginGood(c, s, e);
    case CreateTemp(_, _) => CreateGood(c, s, e);
    case WriteUpTo(_, _) => WriteGood(c, s, e);
    case Persist(_) => EffectGood(c, s, e);
    case Remove(_) => EffectGood(c, s, e);
    case Probe(_) => EffectGood(c, s, e);
    case Open(_) => EffectGood(c, s, e);
    case _ => LocalGood(c, s, e);
  }

  // ---- every other thread ----

  /** One other thread next to the event's thread: neither disturbs the other. */
  ghost predicate Neighbours(c: Config, s: State, t: Tid, other: Thread) {
    && Typed(c, other) && Owns(c, s.fs, other)
    && (t in s.threads ==> Typed(c, s.threads[t]) && Owns(c, s.fs, s.threads[t]) && Apart(c, s.threads[t], other))
  }

  ghost predicate StaysFine(c: Config, s: State, after: State, t: Tid, other: Thread) {
    && Typed(c, other) && Owns(c, s.fs, other) && Undisturbed(c, s.fs, after.fs, other)
    && t in after.threads && Typed(c, after.threads[t]) && Apart(c, after.threads[t], other)
  }

  lemma LocalOther(c: Config, s: State, e: Event, other: Thread)
    requires Enabled(c, s, e) && Neighbours(c, s, e.t, other)
    requires e.Begin? || e.MakeDirs? || e.Sync? || e.FailCall? || e.Stop? || e.ReadUpTo? || e.ReadEnd? || e.Probe?
    ensures StaysFine(c, s, Step(c, s, e), e.t, other)
  {
    hide BlockPath, TempPath, ValidId, Published;
    if HoldsInode(other) {
      SameNamesPublishSame(c.root, s.fs, Step(c, s, e).fs, other.pc.inode);
    }
  }

  lemma CreateOther(c: Config, s: State, e: Event, other: Thread)
    requires WellFormed(s.fs) && Enabled(c, s, e) && Neighbours(c, s, e.t, other) && e.CreateTemp?
    ensures StaysFine(c, s, Step(c, s, e), e.t, other)
  {
    hide BlockPath, TempPath, ValidId, Published;
    if HoldsInode(other) {
      CreatePublishesNothing(c.root, s.fs, s.threads[e.t].cmd.id, e.random, other.pc.inode);
    }
  }

  lemma WriteOther(c: Config, s: State, e: Event, other: Thread)
    requires Enabled(c, s, e) && Neighbours(c, s, e.t, other) && e.WriteUpTo?
    ensures StaysFine(c, s, Step(c, s, e), e.t, other)
  {
    hide BlockPath, TempPath, ValidId, Published;
    if HoldsInode(other) {
      SameNamesPublishSame(c.root, s.fs, Step(c, s, e).fs, other.pc.inode);
    }
  }

  lemma PersistOther(c: Config, s: State, e: Event, other: Thread)
    requires Enabled(c, s, e) && Neighbours(c, s, e.t, other) && e.Persist?
    ensures StaysFine(c, s, Step(c, s, e), e.t, other)
  {
    hide BlockPath, TempPath, ValidId, Published;
    var th := s.threads[e.t];
    if HoldsInode(other) {
      RenamePublishesOne(c.root, s.fs, Tmp(c, th), BlockPath(c.root, th.cmd.id), other.pc.inode);
    }
    if HoldsTemp(other) {
      ScratchNamesAreNoBlocks(c.root, th.cmd.id, other.cmd.id, other.pc.random);
    }
  }

  lemma DropOther(c: Config, s: State, e: Event, other: Thread)
    requires Enabled(c, s, e) && Neighbours(c, s, e.t, other) && e.DropTemp?
    ensures StaysFine(c, s, Step(c, s, e), e.t, other)
  {
    hide BlockPath, TempPath, ValidId, Published;
    if HoldsInode(other) {
      UnlinkPublishesNothing(c.root, s.fs, Tmp(c, s.threads[e.t]), other.pc.inode);
    }
  }

  lemma RemoveOther(c: Config, s: State, e: Event, other: Thread)
    requires Enabled(c, s, e) && Neighbours(c, s, e.t, other) && e.Remove?
    ensures StaysFine(c, s, Step(c, s, e), e.t, other)
  {
    hide BlockPath, TempPath, ValidId, Published;
    var th := s.threads[e.t];
    if HoldsInode(other) {
      UnlinkPublishesNothing(c.root, s.fs, BlockPath(c.root, th.cmd.id), other.pc.inode);
    }
    if HoldsTemp(other) {
      ScratchNamesAreNoBlocks(c.root, th.cmd.id, other.cmd.id, other.pc.random);
    }
  }

  /** An inode that can be opened is published, so no put in progress holds it. */
  lemma OpenOther(c: Config, s: State, e: Event, other: Thread)
    requires WellFormed(s.fs) && Enabled(c, s, e) && Neighbours(c, s, e.t, other) && e.Open?
    ensures StaysFine(c, s, Step(c, s, e), e.t, other)
  {
    hide BlockPath, TempPath, ValidId, Visible;
  }

  lemma OtherThread(c: Config, s: State, e: Event, other: Thread)
    requires WellFormed(s.fs) && Enabled(c, s, e) && Neighbours(c, s, e.t, other)
    ensures StaysFine(c, s, Step(c, s, e), e.t, other)
  {
    hide *;
    match e
    case CreateTemp(_, _) => CreateOther(c, s, e, other);
    case WriteUpTo(_, _) => WriteOther(c, s, e, other);
    case Persist(_) => PersistOther(c, s, e, other);
    case DropTemp(_, _) => DropOther(c, s, e, other);
    case Remove(_) => RemoveOther(c, s, e, other);
    case Open(_) => OpenOther(c, s, e, other);
    case _ => LocalOther(c, s, e, other);
  }

  // ---- the observable map ----

  lemma EffectRefines(c: Config, s: State, e: Event)
    requires Refines(c, s) && Good(c, s, e.t) && Enabled(c, s, e)
    requires e.Persist? || e.Remove? || e.Probe? || e.Open?
    ensures Refines(c, Step(c, s, e))
  {
    hide BlockPath, TempPath, ValidId, Replay, Legal, Published;
    var th := s.threads[e.t];
    var after := Step(c, s, e);
    var entry := after.history[|s.history|];
    ReplayAppend(s.history, entry);
    LegalAppend(s.history, entry);
    if e.Persist? {
      RenamePublishes(c.root, s.fs, th.cmd.id, th.pc.random);
    } else if e.Remove? {
      UnlinkRemoves(c.root, s.fs, th.cmd.id);
    }
    assert Visible(c.root, after.fs) == Replay(after.history);
  }

  lemma SilentRefines(c: Config, s: State, e: Event)
    requires Refines(c, s) && Enabled(c, s, e) && (!e.Begin? ==> Good(c, s, e.t))
    requires !(e.Persist? || e.Remove? || e.Probe? || e.Open?)
    ensures Refines(c, Step(c, s, e))
  {
    hide BlockPath, TempPath, ValidId, Replay, Legal, Published;
    if e.CreateTemp? {
      CreateKeepsVisible(c.root, s.fs, s.threads[e.t].cmd.id, e.random);
    } else if e.WriteUpTo? {
      var th := s.threads[e.t];
      AppendKeepsVisible(c.root, s.fs, th.pc.inode, th.cmd.payload[th.pc.written..e.upTo]);
    } else if e.DropTemp? {
      UnlinkTempKeepsVisible(c.root, s.fs, s.threads[e.t].cmd.id, s.threads[e.t].pc.random);
    }
  }

  // ---- putting an event together ----

  lemma StepKeepsInv(c: Config, s: State, e: Event)
    requires Inv(c, s) && Enabled(c, s, e)
    ensures Inv(c, Step(c, s, e))
  {
    var after := Step(c, s, e);
    var t := e.t;
    assert !e.Begin? ==> t in s.threads;
    assert WellFormed(s.fs);
    assert t in s.threads ==> Good(c, s, t);
    forall u | u in s.threads && u != t ensures StaysFine(c, s, after, t, s.threads[u]) {
      assert Neighbours(c, s, t, s.threads[u]);
      hide *;
      OtherThread(c, s, e, s.threads[u]);
    }
    assert Refines(c, after) && Shaped(s, after, t) && Good(c, after, t) by {
      hide *;
      ShapeOfStep(c, s, e);
      OwnThread(c, s, e);
      if e.Persist? || e.Remove? || e.Probe? || e.Open? {
        EffectRefines(c, s, e);
      } else {
        SilentRefines(c, s, e);
      }
    }
    hide *;
    Assemble(c, s, after, t);
  }

  lemma Assemble(c: Config, s: State, after: State, t: Tid)
    requires Inv(c, s) && Refines(c, after) && Shaped(s, after, t) && Good(c, after, t)
    requires forall u | u in s.threads && u != t :: StaysFine(c, s, after, t, s.threads[u])
    ensures Inv(c, after)
  {
    hide Replay, Legal, Visible, WellFormed, Tmp, BlockPath, TempPath, ValidId, Published;
    assert forall i | 0 <= i < |s.history| :: after.history[i] == s.history[i] by {
      if |after.history| == |s.history| + 1 {
        assert forall i | 0 <= i < |s.history| :: after.history[..|s.history|][i] == after.history[i];
      }
    }
    forall u | u in after.threads
      ensures Typed(c, after.threads[u]) && Owns(c, after.fs, after.threads[u]) && Recorded(after, u, after.threads[u])
    {
      if u != t {
        assert Owns(c, s.fs, s.threads[u]) && Recorded(s, u, s.threads[u]) && StaysFine(c, s, after, t, s.threads[u]);
      }
    }
    forall u, v | u in after.threads && v in after.threads && u != v
      ensures Apart(c, after.threads[u], after.threads[v])
    {
      if u != t && v != t {
        assert Apart(c, s.threads[u], s.threads[v]);
      } else if u == t {
        assert StaysFine(c, s, after, t, s.threads[v]);
      } else {
        assert StaysFine(c, s, after, t, s.threads[u]);
      }
    }
  }
}
