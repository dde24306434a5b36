/** That operations of `BlockRuns` succeed: none fails unless a call of its own failed,
    and one left to itself finishes with its effect and its answer. */
module BlockProgress {
  import opened Prelude
  import opened BlockNames
  import opened FileSystem
  import opened BlockRuns
  import opened BlockProofs
  import opened BlockTheorems

  /** Past the point of failing. */
  predicate HasFailed(th: Thread) { th.pc.CleanUp? || th.pc == Done(Failed) }

  lemma FailsOnlyThen(c: Config, s: State, e: Event, t: Tid)
    requires Inv(c, s) && Enabled(c, s, e) && t in Step(c, s, e).threads && HasFailed(Step(c, s, e).threads[t])
    ensures e == FailCall(t) || (t in s.threads && HasFailed(s.threads[t]))
  {
    hide Refines, Owns, Apart, Recorded, BlockPath, TempPath, ShardDir, ValidId;
  }

  /** An operation reports failure, or abandons its temporary file, only after one of its
      own calls has failed. */
  lemma {:induction false} FailureIsProvoked(c: Config, s0: State, events: seq<Event>, s: State, t: Tid)
    requires Reached(c, s0, events, s) && t in s.threads && HasFailed(s.threads[t])
    ensures FailCall(t) in events
  {
    var init, last := events[..|events| - 1], events[|events| - 1];
    var before := Run(c, s0, init).value;
    assert Enabled(c, before, last) && s == Step(c, before, last);
    RunKeepsInv(c, s0, init, before);
    FailsOnlyThen(c, before, last, t);
    hide Inv, Enabled, Step, Initial;
    if last != FailCall(t) {
      FailureIsProvoked(c, s0, init, before, t);
    }
  }

  /** An operation that can still succeed. */
  predicate UnderWay(th: Thread) { !th.pc.Done? && !th.pc.Stopped? && !th.pc.CleanUp? }

  function Stage(pc: Pc): nat {
    match pc
    case Start => 4
    case ShardReady => 3
    case Writing(_, _, _) => 2
    case Reading(_, _) => 2
    case Synced(_, _) => 1
    case _ => 0
  }

  /** How many bytes it still has to write or read. */
  function BytesLeft(fs: Fs, th: Thread): int {
    match th.pc
    case Writing(_, _, written) => if th.cmd.PutCmd? then |th.cmd.payload| - written else 0
    case Reading(i, buffer) => if i in fs.data then |fs.data[i]| - |buffer| else 0
    case _ => 0
  }

  predicate NotAtOdds(events: seq<Event>, t: Tid) {
    forall i | 0 <= i < |events| :: events[i].t == t && !events[i].FailCall? && !events[i].Stop?
  }

  /** The name `free` may still be drawn. */
  predicate NameFree(c: Config, s: State, t: Tid, free: string)
    requires t in s.threads && ValidId(s.threads[t].cmd.id)
  {
    s.threads[t].pc.Start? || s.threads[t].pc.ShardReady? ==> TempPath(c.root, s.threads[t].cmd.id, free) !in s.fs.names
  }

  /** What remains to be done, as a decreasing pair. */
  predicate Nearer(fs: Fs, th: Thread, fsAfter: Fs, thAfter: Thread) {
    || Stage(thAfter.pc) < Stage(th.pc)
    || (Stage(thAfter.pc) == Stage(th.pc) && 0 <= BytesLeft(fsAfter, thAfter) < BytesLeft(fs, th))
  }

  predicate Succeeded(th: Thread) { th.pc.Done? && th.pc.outcome != Failed }

  /** The put of `t` is what has taken effect since `s`. */
  predicate JustStored(s: State, after: State, t: Tid)
    requires t in s.threads && t in after.threads
  {
    && after.threads[t].pc == Done(Stored)
    && after.history == s.history + [Entry(t, s.threads[t].cmd, Stored)]
  }

  /** Every step of an operation's own that is no failure brings it nearer to its end. */
  lemma StepsBringNearer(c: Config, s: State, e: Event, free: string)
    requires Enabled(c, s, e) && e.t in s.threads && Good(c, s, e.t) && UnderWay(s.threads[e.t])
    requires NameFree(c, s, e.t, free) && !e.FailCall? && !e.Stop?
    ensures
      var th, after := s.threads[e.t], Step(c, s, e);
      && e.t in after.threads && after.threads[e.t].cmd == th.cmd && NameFree(c, after, e.t, free)
      && (UnderWay(after.threads[e.t]) || Succeeded(after.threads[e.t]))
      && Nearer(s.fs, th, after.fs, after.threads[e.t])
      && (th.cmd.PutCmd? ==>
            if Succeeded(after.threads[e.t]) then JustStored(s, after, e.t) else after.history == s.history)
  {
    hide BlockPath, TempPath, ShardDir, ValidId, Published;
  }

  lemma RunAppend(c: Config, s: State, events: seq<Event>, mid: State, e: Event)
    requires Run(c, s, events) == Some(mid) && Enabled(c, mid, e)
    ensures Run(c, s, events + [e]) == Some(Step(c, mid, e))
  {
    assert (events + [e])[..|events|] == events;
    hide Enabled, Step;
  }

  lemma {:induction false} RunPrepend(c: Config, s: State, e: Event, rest: seq<Event>, after: State)
    requires Enabled(c, s, e) && Run(c, Step(c, s, e), rest) == Some(after)
    ensures Run(c, s, [e] + rest) == Some(after)
  {
    hide Enabled, Step;
    if rest == [] {
      RunNothing(c, s);
      RunAppend(c, s, [], s, e);
      assert [e] + rest == [] + [e];
    } else {
      var init, last := rest[..|rest| - 1], rest[|rest| - 1];
      var before := Run(c, Step(c, s, e), init).value;
      RunPrepend(c, s, e, init, before);
      RunAppend(c, s, [e] + init, before, last);
      assert [e] + rest == [e] + init + [last];
    }
  }

  /** From every state that the invariant allows, an operation that has not failed or
      stopped can finish by its own steps alone, whatever the others have left behind, and
      then reports success. */
  lemma {:induction false} CanFinish(c: Config, s: State, t: Tid, free: string)
    returns (events: seq<Event>, after: State)
    requires Inv(c, s) && t in s.threads && UnderWay(s.threads[t])
    requires ValidId(s.threads[t].cmd.id) && NameFree(c, s, t, free)
    ensures NotAtOdds(events, t) && Run(c, s, events) == Some(after) && Inv(c, after)
    ensures t in after.threads && after.threads[t].cmd == s.threads[t].cmd && Succeeded(after.threads[t])
    ensures s.threads[t].cmd.PutCmd? ==> JustStored(s, after, t)
    decreases Stage(s.threads[t].pc), BytesLeft(s.fs, s.threads[t])
  {
    hide Enabled, Step, Run, Stage, BytesLeft, Refines, Owns, Apart, Recorded, Typed, ValidId;
    assert Good(c, s, t);
    var e := NeverStuck(c, s, t, free);
    StepsBringNearer(c, s, e, free);
    StepKeepsInv(c, s, e);
    hide Inv, NameFree;
    var next := Step(c, s, e);
    if UnderWay(next.threads[t]) {
      var rest, x := CanFinish(c, next, t, free);
      RunPrepend(c, s, e, rest, x);
      events, after := [e] + rest, x;
    } else {
      RunNothing(c, next);
      RunPrepend(c, s, e, [], next);
      events, after := [e] + [], next;
    }
  }

  lemma RunNothing(c: Config, s: State)
    ensures Run(c, s, []) == Some(s)
  {
  }

  lemma AfterHistory(c: Config, s: State)
    requires Inv(c, s)
    ensures WellFormed(s.fs) && Visible(c.root, s.fs) == Replay(s.history)
  {
    hide Visible, Replay, Legal, Typed, Owns, Apart, Recorded;
  }

  /** So a put left to itself stores its block: from every reachable state some run of its
      own steps, none of which fails, ends with the whole payload visible. */
  lemma PutCanFinish(c: Config, s0: State, before: seq<Event>, s: State, t: Tid, free: string)
    returns (events: seq<Event>, after: State)
    requires Reached(c, s0, before, s) && t in s.threads && s.threads[t].cmd.PutCmd? && UnderWay(s.threads[t])
    requires ValidId(s.threads[t].cmd.id) && NameFree(c, s, t, free)
    ensures NotAtOdds(events, t) && Run(c, s, events) == Some(after)
    ensures t in after.threads && after.threads[t].pc == Done(Stored)
    ensures
      var cmd := s.threads[t].cmd;
      WellFormed(after.fs) && cmd.id in Visible(c.root, after.fs) && Visible(c.root, after.fs)[cmd.id] == cmd.payload
  {
    RunKeepsInv(c, s0, before, s);
    hide Reached, Inv, Enabled, Step, Run, Visible, Replay;
    events, after := CanFinish(c, s, t, free);
    ReplayAppend(s.history, Entry(t, s.threads[t].cmd, Stored));
    AfterHistory(c, after);
  }
}
