/** The two OIDC contexts under any number of token validations and scheduled
    refreshes (`server/src/auth/jwks.rs`, `server/src/auth/context.rs`,
    `server/src/auth/token.rs`), at the granularity of clock readings and atomic loads,
    compare-and-swaps and stores. Clock readings are arbitrary; a wait may end at any
    time; a task may vanish at any step. */
module Refresh {
  import opened Prelude
  import opened Crypto
  import opened Failure
  import opened Contexts
  import opened JwksIndex
  import Token

  type Tid = nat

  /** `interval` is `on_demand_refresh_min_interval_secs`, validated to be positive. */
  datatype Config = Config(sha256: Hash, interval: U64)

  datatype Request = Request(kid: Option<string>, verify: Token.Verifier)

  type Verdict = Result<(Jwk, Token.Claims), AuthFailure>

  /** A claimed on-demand refresh: its number in the context's list of claims, and the
      clock reading it was claimed with. */
  datatype Attempt = Attempt(index: nat, claim: U64)

  datatype Pc =
    | FirstTry
    | ReadClock
    | LoadClaim(now: U64)
    | Claim(now: U64, prev: U64)
    | Check(prev: U64)
    | Waiting(prev: U64)
    | Fetching
    | LoadOther(incoming: Jwks)
    | StoreOwn(incoming: Jwks, seen: Jwks, at: nat)
    | Complete(installed: bool)
    | Retry
    | Decided(verdict: Verdict)
    | Finished
    | Gone

  /** A token validation has a `request`, and remembers the key sets of its attempts; a
      scheduled refresh has none. */
  datatype Thread = Thread(
    tag: Tag,
    request: Option<Request>,
    first: Option<Jwks>,
    second: Option<Jwks>,
    refreshes: nat,
    attempt: Option<Attempt>,
    pc: Pc)

  /** When a key set was installed, and when its refresh had looked at the other context. */
  datatype Install = Install(loadedAt: nat, storedAt: nat)

  /** One context. `jwks`, `lastClaim` and `lastDone` are its atomics; the rest records
      the past: `claims` and `fetched` the on-demand attempts that were claimed and that
      went on to fetch, `ended` those that recorded completion, in that order. */
  datatype Cell = Cell(
    jwks: Jwks,
    lastClaim: U64,
    lastDone: U64,
    history: seq<Jwks>,
    install: Install,
    installs: seq<Install>,
    claims: seq<U64>,
    fetched: seq<nat>,
    ended: seq<nat>,
    overlapped: bool)

  datatype State = State(vault: Cell, admin: Cell, threads: map<Tid, Thread>, steps: nat)

  function CellOf(s: State, tag: Tag): Cell { if tag == Vault then s.vault else s.admin }

  function WithCell(s: State, tag: Tag, cell: Cell): State {
    if tag == Vault then s.(vault := cell) else s.(admin := cell)
  }

  datatype Event =
    | StartToken(t: Tid, tag: Tag, request: Request)
    | StartScheduled(t: Tid, tag: Tag)
    | TryFirst(t: Tid)
    | Clock(t: Tid, now: U64)
    | LoadLastClaim(t: Tid)
    | CompareAndSwap(t: Tid)
    | CheckCompletion(t: Tid)
    | FetchFails(t: Tid)
    | Fetched(t: Tid, keys: seq<RawJwk>)
    | LookAtOther(t: Tid, reachable: bool)
    | StoreNew(t: Tid)
    | RecordCompletion(t: Tid)
    | TryAgain(t: Tid)
    | Vanish(t: Tid)

  predicate Enabled(s: State, e: Event) {
    match e
    case StartToken(t, _, _) => t !in s.threads
    case StartScheduled(t, _) => t !in s.threads
    case TryFirst(t) => t in s.threads && s.threads[t].pc.FirstTry? && s.threads[t].request.Some?
    case Clock(t, _) => t in s.threads && s.threads[t].pc.ReadClock?
    case LoadLastClaim(t) => t in s.threads && s.threads[t].pc.LoadClaim?
    case CompareAndSwap(t) => t in s.threads && s.threads[t].pc.Claim?
    case CheckCompletion(t) => t in s.threads && (s.threads[t].pc.Check? || s.threads[t].pc.Waiting?)
    case FetchFails(t) => t in s.threads && s.threads[t].pc.Fetching?
    case Fetched(t, _) => t in s.threads && s.threads[t].pc.Fetching?
    case LookAtOther(t, _) => t in s.threads && s.threads[t].pc.LoadOther?
    case StoreNew(t) => t in s.threads && s.threads[t].pc.StoreOwn?
    case RecordCompletion(t) => t in s.threads && s.threads[t].pc.Complete? && s.threads[t].attempt.Some?
    case TryAgain(t) => t in s.threads && s.threads[t].pc.Retry? && s.threads[t].request.Some?
    case Vanish(t) =>
      t in s.threads && !s.threads[t].pc.Decided? && !s.threads[t].pc.Finished? && !s.threads[t].pc.Gone?
  }

  /** One attempt of a token validation against a key set. */
  function TryWith(th: Thread, jwks: Jwks): Verdict {
    if th.request.None? then Err(TokenSignatureInvalid)
    else Token.Attempt(jwks, th.request.value.kid, th.request.value.verify)
  }

  /** The verdict of a token validation when all else fails: that of its first attempt. */
  function FirstVerdict(th: Thread): Verdict {
    if th.first.None? then Err(TokenSignatureInvalid) else TryWith(th, th.first.value)
  }

  /** Where a refresh goes when its fetch and install are over. */
  function AfterInstall(th: Thread, installed: bool): Pc {
    if th.attempt.Some? then Complete(installed) else Finished
  }

  /** Where a token validation stands that has not claimed a refresh. */
  predicate BeforeClaim(pc: Pc) {
    pc.FirstTry? || pc.ReadClock? || pc.LoadClaim? || pc.Claim? || pc.Check? || pc.Waiting?
  }

  /** A refresh under way. */
  predicate Refreshing(pc: Pc) { pc.Fetching? || pc.LoadOther? || pc.StoreOwn? }

  /** An on-demand refresh that has been claimed and has not recorded completion. */
  predicate InFlight(th: Thread) {
    th.attempt.Some? && (Refreshing(th.pc) || th.pc.Complete?)
  }

  ghost predicate WinnerInFlight(s: State, tag: Tag) {
    exists t :: t in s.threads && s.threads[t].tag == tag && InFlight(s.threads[t])
  }

  /** A step of a thread that has started, as a change of the thread and of its own context. */
  ghost function Advance(c: Config, s: State, e: Event, th: Thread, cell: Cell): (Thread, Cell)
    requires Enabled(s, e) && e.t in s.threads && s.threads[e.t] == th
  {
    match e
    case TryFirst(_) =>
      var verdict := TryWith(th, cell.jwks);
      (th.(first := Some(cell.jwks), pc := if verdict.Ok? then Decided(verdict) else ReadClock), cell)
    case Clock(_, now) => (th.(refreshes := th.refreshes + 1, pc := LoadClaim(now)), cell)
    case LoadLastClaim(_) =>
      var now, prev := th.pc.now, cell.lastClaim;
      (th.(pc := if now < SaturatingAdd(prev, c.interval) then Check(prev) else Claim(now, prev)), cell)
    case CompareAndSwap(_) =>
      var now, prev := th.pc.now, th.pc.prev;
      if cell.lastClaim != prev then (th.(pc := Check(prev)), cell)
      else
        (th.(attempt := Some(Attempt(|cell.claims|, now)), pc := Fetching),
         cell.(lastClaim := now, claims := cell.claims + [now],
                overlapped := cell.overlapped || WinnerInFlight(s, th.tag)))
    case CheckCompletion(_) =>
      (th.(pc := if cell.lastDone >= th.pc.prev then Retry
                 else if th.pc.Check? then Waiting(th.pc.prev)
                 else Decided(FirstVerdict(th))), cell)
    case FetchFails(_) => (th.(pc := AfterInstall(th, false)), Fetches(cell, th))
    case Fetched(_, keys) =>
      var parsed := ParseJwksSpec(c.sha256, keys);
      (th.(pc := if parsed.Good? then LoadOther(parsed.value)
                 else if parsed.Bad? then AfterInstall(th, false) else Gone),
       Fetches(cell, th))
    case LookAtOther(_, reachable) =>
      var seen := CellOf(s, Other(th.tag)).jwks;
      var incoming := th.pc.incoming;
      (th.(pc := if reachable && Disjoint(seen, incoming) then StoreOwn(incoming, seen, s.steps)
                 else AfterInstall(th, false)),
       cell)
    case StoreNew(_) =>
      var install := Install(th.pc.at, s.steps);
      var incoming := th.pc.incoming;
      (th.(pc := AfterInstall(th, true)),
       cell.(jwks := incoming, history := cell.history + [incoming],
             install := install, installs := cell.installs + [install]))
    case RecordCompletion(_) =>
      var attempt := th.attempt.value;
      (th.(pc := if th.pc.installed then Retry else Decided(FirstVerdict(th))),
       cell.(lastDone := attempt.claim, ended := cell.ended + [attempt.index]))
    case TryAgain(_) =>
      var verdict := TryWith(th, cell.jwks);
      (th.(second := Some(cell.jwks), pc := Decided(if verdict.Ok? then verdict else FirstVerdict(th))), cell)
    case _ => (th.(pc := Gone), cell)
  }

  ghost function Act(c: Config, s: State, e: Event): (Thread, Cell)
    requires Enabled(s, e)
  {
    if e.StartToken? then
      (Thread(e.tag, Some(e.request), None, None, 0, None, FirstTry), CellOf(s, e.tag))
    else if e.StartScheduled? then
      (Thread(e.tag, None, None, None, 0, None, Fetching), CellOf(s, e.tag))
    else
      Advance(c, s, e, s.threads[e.t], CellOf(s, s.threads[e.t].tag))
  }

  /** An on-demand fetch is recorded with its attempt. */
  function Fetches(cell: Cell, th: Thread): Cell {
    if th.attempt.Some? then cell.(fetched := cell.fetched + [th.attempt.value.index]) else cell
  }

  ghost function Step(c: Config, s: State, e: Event): State
    requires Enabled(s, e)
  {
    var (th, cell) := Act(c, s, e);
    WithCell(s, th.tag, cell).(threads := s.threads[e.t := th], steps := s.steps + 1)
  }

  function FreshCell(jwks: Jwks): Cell {
    Cell(jwks, 0, 0, [jwks], Install(1, 0), [Install(1, 0)], [], [], [], false)
  }

  /** What `init_contexts` leaves behind when it succeeds: two parsed key sets that
      passed the disjointness check. Its load of both counts as step 1. */
  ghost predicate Initial(c: Config, s: State) {
    exists vault, admin ::
      && Parsed(c, vault) && Parsed(c, admin) && Disjoint(vault, admin)
      && s == State(FreshCell(vault), FreshCell(admin), map[], 2)
  }

  /** A key set that parsing let through. */
  ghost predicate Parsed(c: Config, jwks: Jwks) {
    exists keys :: ParseJwksSpec(c.sha256, keys) == Good(jwks)
  }

  /** The state after a run, if every event of it was enabled. */
  ghost function Run(c: Config, s: State, events: seq<Event>): Option<State> {
    if events == [] then Some(s)
    else
      match Run(c, s, events[..|events| - 1])
      case None => None
      case Some(before) =>
        if Enabled(before, events[|events| - 1]) then Some(Step(c, before, events[|events| - 1])) else None
  }
}
