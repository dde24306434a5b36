/** Any number of block operations interleaved at the granularity of system calls,
    including ones that fail or stop at any step, and the atomic map from identifiers
    to payloads that `BlockTheorems` shows them to refine. */
module BlockRuns {
  import opened Prelude
  import opened BlockNames
  import opened FileSystem

  type Tid = nat

  datatype Config = Config(root: Path)

  datatype Cmd =
    | GetCmd(id: BlockId)
    | PutCmd(id: BlockId, payload: Bytes)
    | DeleteCmd(id: BlockId)
    | ExistsCmd(id: BlockId)

  datatype Outcome = Stored | Deleted | Found(bytes: Bytes) | Missing | Present(yes: bool) | Failed

  /** Where an operation stands. `Writing` through `CleanUp` belong to `put`,
      whose temporary file is named by `random`; `Reading` belongs to `get`. */
  datatype Pc =
    | Start
    | ShardReady
    | Writing(random: string, inode: Inode, written: nat)
    | Synced(random: string, inode: Inode)
    | CleanUp(random: string)
    | Reading(inode: Inode, buffer: Bytes)
    | Done(outcome: Outcome)
    | Stopped

  /** `begun` is the length of the history when the operation was called; `lin` is
      the position of the history entry by which it takes effect. */
  datatype Thread = Thread(cmd: Cmd, pc: Pc, begun: nat, lin: Option<nat>)

  datatype Entry = Entry(tid: Tid, cmd: Cmd, outcome: Outcome)

  datatype State = State(fs: Fs, threads: map<Tid, Thread>, history: seq<Entry>)

  datatype Event =
    | Begin(t: Tid, cmd: Cmd)
    | MakeDirs(t: Tid)
    | CreateTemp(t: Tid, random: string)
    | WriteUpTo(t: Tid, upTo: nat)
    | Sync(t: Tid)
    | Persist(t: Tid)
    | FailCall(t: Tid)
    | DropTemp(t: Tid, unlinked: bool)
    | Open(t: Tid)
    | ReadUpTo(t: Tid, upTo: nat)
    | ReadEnd(t: Tid)
    | Remove(t: Tid)
    | Probe(t: Tid)
    | Stop(t: Tid)

  // ---- the atomic map ----

  function Effect(blocks: Blocks, cmd: Cmd): Blocks {
    match cmd
    case PutCmd(id, payload) => blocks[id := payload]
    case DeleteCmd(id) => blocks - {id}
    case _ => blocks
  }

  ghost function Answer(blocks: Blocks, cmd: Cmd): Outcome {
    match cmd
    case PutCmd(_, _) => Stored
    case DeleteCmd(_) => Deleted
    case GetCmd(id) => if id in blocks then Found(blocks[id]) else Missing
    case ExistsCmd(id) => Present(id in blocks)
  }

  /** The map after a sequence of operations on an empty store. */
  ghost function Replay(history: seq<Entry>): Blocks {
    if history == [] then imap[]
    else Effect(Replay(history[..|history| - 1]), history[|history| - 1].cmd)
  }

  /** Every entry carries the answer an atomic map would have given at its place. */
  ghost predicate Legal(history: seq<Entry>) {
    forall i :: 0 <= i < |history| ==> history[i].outcome == Answer(Replay(history[..i]), history[i].cmd)
  }

  // ---- the file-system machine ----

  function Tmp(c: Config, th: Thread): Path
    requires ValidId(th.cmd.id) && (th.pc.Writing? || th.pc.Synced? || th.pc.CleanUp?)
  {
    TempPath(c.root, th.cmd.id, th.pc.random)
  }

  predicate At(s: State, t: Tid) {
    t in s.threads && ValidId(s.threads[t].cmd.id)
  }

  predicate Enabled(c: Config, s: State, e: Event) {
    match e
    case Begin(t, cmd) => t !in s.threads && ValidId(cmd.id)
    case MakeDirs(t) => At(s, t) && s.threads[t].cmd.PutCmd? && s.threads[t].pc.Start?
    case CreateTemp(t, random) =>
      && At(s, t) && s.threads[t].cmd.PutCmd? && s.threads[t].pc.ShardReady?
      && ShardDir(c.root, s.threads[t].cmd.id) in s.fs.dirs
      && TempPath(c.root, s.threads[t].cmd.id, random) !in s.fs.names
    case WriteUpTo(t, upTo) =>
      && At(s, t) && s.threads[t].cmd.PutCmd? && s.threads[t].pc.Writing?
      && s.threads[t].pc.inode in s.fs.data
      && s.threads[t].pc.written < upTo <= |s.threads[t].cmd.payload|
    case Sync(t) =>
      && At(s, t) && s.threads[t].cmd.PutCmd? && s.threads[t].pc.Writing?
      && s.threads[t].pc.written == |s.threads[t].cmd.payload|
    case Persist(t) =>
      At(s, t) && s.threads[t].cmd.PutCmd? && s.threads[t].pc.Synced? && Tmp(c, s.threads[t]) in s.fs.names
    case FailCall(t) => At(s, t) && !s.threads[t].pc.CleanUp? && !s.threads[t].pc.Done? && !s.threads[t].pc.Stopped?
    case DropTemp(t, _) => At(s, t) && s.threads[t].pc.CleanUp?
    case Open(t) =>
      && At(s, t) && s.threads[t].cmd.GetCmd? && s.threads[t].pc.Start?
      && var p := BlockPath(c.root, s.threads[t].cmd.id);
      p in s.fs.names ==> s.fs.names[p] in s.fs.data
    case ReadUpTo(t, upTo) =>
      && At(s, t) && s.threads[t].pc.Reading? && s.threads[t].pc.inode in s.fs.data
      && |s.threads[t].pc.buffer| < upTo <= |s.fs.data[s.threads[t].pc.inode]|
    case ReadEnd(t) =>
      && At(s, t) && s.threads[t].pc.Reading? && s.threads[t].pc.inode in s.fs.data
      && |s.threads[t].pc.buffer| == |s.fs.data[s.threads[t].pc.inode]|
    case Remove(t) => At(s, t) && s.threads[t].cmd.DeleteCmd? && s.threads[t].pc.Start?
    case Probe(t) => At(s, t) && s.threads[t].cmd.ExistsCmd? && s.threads[t].pc.Start?
    case Stop(t) => At(s, t) && !s.threads[t].pc.Done? && !s.threads[t].pc.Stopped?
  }

  function Goto(s: State, t: Tid, pc: Pc): State
    requires t in s.threads
  {
    s.(threads := s.threads[t := s.threads[t].(pc := pc)])
  }

  /** Moves `t` to `pc` and records the operation as having taken effect. */
  function Linearize(s: State, t: Tid, pc: Pc, outcome: Outcome): State
    requires t in s.threads
  {
    s.(threads := s.threads[t := s.threads[t].(pc := pc, lin := Some(|s.history|))],
       history := s.history + [Entry(t, s.threads[t].cmd, outcome)])
  }

  function Step(c: Config, s: State, e: Event): State
    requires Enabled(c, s, e)
  {
    match e
    case Begin(t, cmd) => s.(threads := s.threads[t := Thread(cmd, Start, |s.history|, None)])
    case MakeDirs(t) => Goto(s.(fs := MakeShard(s.fs, c.root, s.threads[t].cmd.id)), t, ShardReady)
    case CreateTemp(t, random) =>
      Goto(s.(fs := CreateExclusive(s.fs, TempPath(c.root, s.threads[t].cmd.id, random))),
           t, Writing(random, s.fs.next, 0))
    case WriteUpTo(t, upTo) =>
      var th := s.threads[t];
      if th.pc.written <= upTo <= |th.cmd.payload| then
        Goto(s.(fs := Append(s.fs, th.pc.inode, th.cmd.payload[th.pc.written..upTo])), t,
             Writing(th.pc.random, th.pc.inode, upTo))
      else s
    case Sync(t) => Goto(s, t, Synced(s.threads[t].pc.random, s.threads[t].pc.inode))
    case Persist(t) =>
      var th := s.threads[t];
      Linearize(s.(fs := Rename(s.fs, Tmp(c, th), BlockPath(c.root, th.cmd.id))), t, Done(Stored), Stored)
    case FailCall(t) =>
      var pc := s.threads[t].pc;
      Goto(s, t, if pc.Writing? || pc.Synced? then CleanUp(pc.random) else Done(Failed))
    case DropTemp(t, unlinked) =>
      Goto(if unlinked then s.(fs := Unlink(s.fs, Tmp(c, s.threads[t]))) else s, t, Done(Failed))
    case Open(t) =>
      var p := BlockPath(c.root, s.threads[t].cmd.id);
      if p in s.fs.names then Linearize(s, t, Reading(s.fs.names[p], []), Found(s.fs.data[s.fs.names[p]]))
      else Linearize(s, t, Done(Missing), Missing)
    case ReadUpTo(t, upTo) =>
      var pc := s.threads[t].pc;
      Goto(s, t, Reading(pc.inode, pc.buffer + s.fs.data[pc.inode][|pc.buffer|..upTo]))
    case ReadEnd(t) => Goto(s, t, Done(Found(s.threads[t].pc.buffer)))
    case Remove(t) =>
      Linearize(s.(fs := Unlink(s.fs, BlockPath(c.root, s.threads[t].cmd.id))), t, Done(Deleted), Deleted)
    case Probe(t) =>
      var yes := BlockPath(c.root, s.threads[t].cmd.id) in s.fs.names;
      Linearize(s, t, Done(Present(yes)), Present(yes))
    case Stop(t) => Goto(s, t, Stopped)
  }

  /** A store whose file system holds no block yet. */
  ghost predicate Initial(c: Config, s: State) {
    WellFormed(s.fs) && Visible(c.root, s.fs) == imap[] && s.threads == map[] && s.history == []
  }

  /** The state after a run, if every event of it was enabled. */
  function Run(c: Config, s: State, events: seq<Event>): Option<State> {
    if events == [] then Some(s)
    else
      match Run(c, s, events[..|events| - 1])
      case None => None
      case Some(before) =>
        if Enabled(c, before, events[|events| - 1]) then Some(Step(c, before, events[|events| - 1])) else None
  }
}
