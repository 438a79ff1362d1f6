/** The D-Bus activation engine: callers ask for a bus name, one job per name watches, rechecks,
    starts and waits, and publishes one result to everyone who joined it. The bus is part of the
    state: names gain and lose owners at any moment, every subscribed job has a queue of changes, and
    Owner answers the truth or fails. Resolver, starter, child and deadlines answer as they like
    (internal/dbusactivation/engine.go). */
module ActivationEngine {
  import opened Options

  type Name = string

  /** The result codes the engine can choose. */
  datatype Code =
    | Success | UnknownService | DuplicateService | UnitNotFound | ServiceInvalid | InvalidBusName
    | ExecFailed | ChildExited | ChildSignaled | Failed | Timeout | BackendUnavailable

  datatype ResolveError = ErrUnknownService | ErrDuplicateService | ErrUnitNotFound | ErrAmbiguousUnit | ErrOther

  /** resultFromError */
  function ResultFromError(e: ResolveError): Code
  {
    match e
    case ErrUnknownService => UnknownService
    case ErrDuplicateService => DuplicateService
    case ErrUnitNotFound => UnitNotFound
    case ErrAmbiguousUnit => ServiceInvalid
    case ErrOther => Failed
  }

  /** What the Exit channel gives: it was closed, or an error that may be nil or a signal. */
  datatype Exit = ExitClosed | ExitNil | ExitSignal | ExitError

  /** resultFromChildExit (native.go) */
  function ResultFromChildExit(e: Exit): Code { if e.ExitSignal? then ChildSignaled else ChildExited }

  /** NameOwnerChanged, with `hasOwner` for a non-empty new owner. */
  datatype Change = Change(name: Name, hasOwner: bool)

  /** What the name monitor answers to Owner. */
  datatype Answer = Owned | NoOwner | OwnerError

  datatype Asker = ByCaller(caller: nat) | ByJob(job: nat)

  /** The history: what the bus did and said, what was delivered, who joined, who was cancelled and
      what was published, whatever the engine made of it. */
  datatype Fact =
    | Owns(name: Name, owned: bool)
    | Answered(asker: Asker, name: Name, answer: Answer)
    | Delivered(job: nat, change: Change)
    | Called(caller: nat, name: Name, valid: bool, configured: bool)
    | ResolverSaid(job: nat, error: Option<ResolveError>)
    | WatchSaid(job: nat, ok: bool)
    | StarterSaid(job: nat, ok: bool)
    | DeadlineSaid(job: nat, exceeded: bool)
    | ChangesEnded(job: nat)
    | ExitSaid(job: nat, exit: Exit)
    | JoinedJob(caller: nat, job: nat)
    | Cancelled(caller: nat)
    | PublishedJob(job: nat, code: Code)

  datatype JobPhase =
    | Resolving
    | Watching
    | Rechecking
    | Starting
    | Waiting
    | ExitCheck(exit: Exit)      // the child exited; ask for the owner once more
    | Ending(code: Code)         // activateJob returns; the deferred Stop is still to run
    | Publishing(code: Code)
    | Published(code: Code)

  /** A job: its queue of changes, whether the starter succeeded and gave a Stop function, the
      variable `succeeded`, and how often Stop was called. */
  datatype Job = Job(name: Name, phase: JobPhase, queue: seq<Change>, started: bool, hasStop: bool,
                     succeeded: bool, stops: nat)

  datatype Caller =
    | Asking(name: Name)
    | Joining(name: Name)
    | Joined(name: Name, job: nat)
    | Returned(name: Name, code: Code, joined: Option<nat>)

  /** `table` is Engine.jobs; the job structs themselves live on for their joined callers. */
  datatype State = State(owners: set<Name>, table: map<Name, nat>, jobs: map<nat, Job>,
                         callers: map<nat, Caller>, log: seq<Fact>)

  const Init := State({}, map[], map[], map[], [])

  /** What one job does next. */
  datatype Act =
    | Resolve(error: Option<ResolveError>)
    | Watch(ok: bool)
    | Recheck(fails: bool)
    | StartReturns(ok: bool, hasStop: bool)
    | Deadline(timeout: bool)
    | TakeChange
    | ChangesClosed
    | ChildExit(exit: Exit)
    | ExitOwner(fails: bool)
    | RunDeferred

  datatype Step =
    | Bus(name: Name, owned: bool, others: set<nat>)  // `others`: subscribed jobs that get it too
    | Call(caller: nat, name: Name, valid: bool, configured: bool)
    | AskOwner(caller: nat, fails: bool)
    | Join(caller: nat, newJob: nat)
    | TakeResult(caller: nat)
    | CancelContext(caller: nat)
    | TakeCancel(caller: nat)
    | Do(job: nat, act: Act)
    | Publish(job: nat)

  predicate ActEnabled(job: Job, act: Act)
  {
    match act
    case Resolve(_) => job.phase.Resolving?
    case Watch(_) => job.phase.Watching?
    case Recheck(_) => job.phase.Rechecking?
    case StartReturns(_, _) => job.phase.Starting?
    case Deadline(_) => job.phase.Waiting?
    case TakeChange => job.phase.Waiting? && job.queue != []
    case ChangesClosed => job.phase.Waiting?
    case ChildExit(_) => job.phase.Waiting?
    case ExitOwner(_) => job.phase.ExitCheck?
    case RunDeferred => job.phase.Ending?
  }

  predicate Enabled(s: State, e: Step)
  {
    match e
    case Bus(_, _, _) => true
    case Call(c, _, _, _) => c !in s.callers
    case AskOwner(c, _) => c in s.callers && s.callers[c].Asking?
    case Join(c, f) => c in s.callers && s.callers[c].Joining? && f !in s.jobs
    case TakeResult(c) =>
      && c in s.callers && s.callers[c].Joined?
      && s.callers[c].job in s.jobs && s.jobs[s.callers[c].job].phase.Published?
    case CancelContext(c) => c in s.callers
    case TakeCancel(c) => c in s.callers && s.callers[c].Joined? && Cancelled(c) in s.log
    case Do(j, act) => j in s.jobs && ActEnabled(s.jobs[j], act)
    case Publish(j) => j in s.jobs && s.jobs[j].phase.Publishing?
  }

  /** Owner tells the truth of this moment, or fails. */
  function Ask(owners: set<Name>, name: Name, fails: bool): Answer
  {
    if fails then OwnerError else if name in owners then Owned else NoOwner
  }

  /** One act of job `j`: the job afterwards and what is known from it. */
  function Next(j: nat, job: Job, owners: set<Name>, act: Act): (Job, seq<Fact>)
    requires ActEnabled(job, act)
  {
    match act
    case Resolve(error) =>
      (job.(phase := if error.Some? then Ending(ResultFromError(error.value)) else Watching), [ResolverSaid(j, error)])
    case Watch(ok) =>
      (job.(phase := if ok then Rechecking else Ending(BackendUnavailable), queue := []), [WatchSaid(j, ok)])
    case Recheck(fails) =>
      var a := Ask(owners, job.name, fails);
      (job.(phase :=
              match a
              case Owned => Ending(Success)
              case NoOwner => Starting
              case OwnerError => Ending(BackendUnavailable)),
       [Answered(ByJob(j), job.name, a)])
    case StartReturns(ok, hasStop) =>
      (if ok then job.(phase := Waiting, started := true, hasStop := hasStop, succeeded := false)
       else job.(phase := Ending(ExecFailed)), [StarterSaid(j, ok)])
    case Deadline(timeout) => (job.(phase := Ending(if timeout then Timeout else Failed)), [DeadlineSaid(j, timeout)])
    case TakeChange =>
      var c := job.queue[0];
      (if c.name == job.name && c.hasOwner then
         job.(queue := job.queue[1..], succeeded := true, phase := Ending(Success))
       else job.(queue := job.queue[1..]), [Delivered(j, c)])
    case ChangesClosed => (job.(phase := Ending(BackendUnavailable)), [ChangesEnded(j)])
    case ChildExit(exit) => (job.(phase := ExitCheck(exit)), [ExitSaid(j, exit)])
    case ExitOwner(fails) =>
      var a := Ask(owners, job.name, fails);
      (match a
       case Owned => job.(succeeded := true, phase := Ending(Success))
       case NoOwner => job.(phase := Ending(ResultFromChildExit(job.phase.exit)))
       case OwnerError => job.(phase := Ending(BackendUnavailable)),
       [Answered(ByJob(j), job.name, a)])
    case RunDeferred =>
      (job.(phase := Publishing(job.phase.code),
            stops := if job.started && !job.succeeded && job.hasStop then job.stops + 1 else job.stops), [])
  }

  predicate Subscribed(p: JobPhase) { p.Rechecking? || p.Starting? || p.Waiting? || p.ExitCheck? }

  /** A change of ownership reaches every job subscribed to that name. */
  function Notified(j: nat, job: Job, change: Change, others: set<nat>): Job
  {
    if Subscribed(job.phase) && (job.name == change.name || j in others) then job.(queue := job.queue + [change])
    else job
  }

  function ApplyBus(s: State, name: Name, owned: bool, others: set<nat>): State
  {
    s.(owners := if owned then s.owners + {name} else s.owners - {name},
       jobs := map j | j in s.jobs :: Notified(j, s.jobs[j], Change(name, owned), others),
       log := s.log + [Owns(name, owned)])
  }

  function Return(s: State, c: nat, name: Name, code: Code, joined: Option<nat>): State
  {
    s.(callers := s.callers[c := Returned(name, code, joined)])
  }

  function ApplyCall(s: State, c: nat, name: Name, valid: bool, configured: bool): State
  {
    var told := s.(log := s.log + [Called(c, name, valid, configured)]);
    if !valid then Return(told, c, name, InvalidBusName, None)
    else if !configured then Return(told, c, name, BackendUnavailable, None)
    else told.(callers := s.callers[c := Asking(name)])
  }

  function ApplyAsk(s: State, c: nat, fails: bool): State
    requires c in s.callers
  {
    var name := s.callers[c].name;
    var a := Ask(s.owners, name, fails);
    var told := s.(log := s.log + [Answered(ByCaller(c), name, a)]);
    match a
    case Owned => Return(told, c, name, Success, None)
    case OwnerError => Return(told, c, name, BackendUnavailable, None)
    case NoOwner => told.(callers := s.callers[c := Joining(name)])
  }

  /** The lookup-or-create section of Activate. */
  function ApplyJoin(s: State, c: nat, f: nat): State
    requires c in s.callers
  {
    var name := s.callers[c].name;
    var j := if name in s.table then s.table[name] else f;
    var created :=
      if name in s.table then s
      else s.(table := s.table[name := f], jobs := s.jobs[f := Job(name, Resolving, [], false, false, false, 0)]);
    created.(callers := s.callers[c := Joined(name, j)], log := s.log + [JoinedJob(c, j)])
  }

  function ApplyDo(s: State, j: nat, act: Act): State
    requires j in s.jobs && ActEnabled(s.jobs[j], act)
  {
    var (job, facts) := Next(j, s.jobs[j], s.owners, act);
    s.(jobs := s.jobs[j := job], log := s.log + facts)
  }

  /** The last section of runJob: the result, the closed channel and the table entry at once. */
  function ApplyPublish(s: State, j: nat): State
    requires j in s.jobs && s.jobs[j].phase.Publishing?
  {
    var code := s.jobs[j].phase.code;
    s.(jobs := s.jobs[j := s.jobs[j].(phase := Published(code))], table := s.table - {s.jobs[j].name},
       log := s.log + [PublishedJob(j, code)])
  }

  function Apply(s: State, e: Step): State
    requires Enabled(s, e)
  {
    match e
    case Bus(name, owned, others) => ApplyBus(s, name, owned, others)
    case Call(c, name, valid, configured) => ApplyCall(s, c, name, valid, configured)
    case AskOwner(c, fails) => ApplyAsk(s, c, fails)
    case Join(c, f) => ApplyJoin(s, c, f)
    case TakeResult(c) =>
      var Joined(name, j) := s.callers[c];
      Return(s, c, name, s.jobs[j].phase.code, Some(j))
    case CancelContext(c) => s.(log := s.log + [Cancelled(c)])
    case TakeCancel(c) =>
      var Joined(name, j) := s.callers[c];
      Return(s, c, name, Failed, Some(j))
    case Do(j, act) => ApplyDo(s, j, act)
    case Publish(j) => ApplyPublish(s, j)
  }

  // ----- one live job per name -----

  predicate Live(job: Job) { !job.phase.Published? }

  ghost predicate TableOk(s: State) { TableNames(s.table, s.jobs) }

  /** The table names exactly the live jobs, so there is at most one per bus name. */
  ghost predicate TableNames(table: map<Name, nat>, jobs: map<nat, Job>)
  {
    && (forall n | n in table :: table[n] in jobs && jobs[table[n]].name == n && Live(jobs[table[n]]))
    && (forall j | j in jobs && Live(jobs[j]) :: jobs[j].name in table && table[jobs[j].name] == j)
  }

  /** The same jobs, with the same names and the same ones live. */
  ghost predicate SameLives(jobs: map<nat, Job>, jobs': map<nat, Job>)
  {
    && jobs'.Keys == jobs.Keys
    && forall j | j in jobs :: jobs'[j].name == jobs[j].name && Live(jobs'[j]) == Live(jobs[j])
  }

  lemma SameLivesKeepTable(table: map<Name, nat>, jobs: map<nat, Job>, jobs': map<nat, Job>)
    requires TableNames(table, jobs) && SameLives(jobs, jobs')
    ensures TableNames(table, jobs')
  {
    hide Live;
  }

  lemma NextKeepsLife(j: nat, job: Job, owners: set<Name>, act: Act)
    requires ActEnabled(job, act)
    ensures var job' := Next(j, job, owners, act).0; job'.name == job.name && Live(job') && Live(job)
  {
  }

  lemma DoKeepsLives(s: State, j: nat, act: Act)
    requires j in s.jobs && ActEnabled(s.jobs[j], act)
    ensures SameLives(s.jobs, ApplyDo(s, j, act).jobs) && ApplyDo(s, j, act).table == s.table
  {
    NextKeepsLife(j, s.jobs[j], s.owners, act);
    hide Next, Live, ActEnabled;
  }

  lemma TableJoin(s: State, c: nat, f: nat)
    requires TableOk(s) && c in s.callers && f !in s.jobs
    ensures TableOk(ApplyJoin(s, c, f))
  {
  }

  lemma TablePublish(s: State, j: nat)
    requires TableOk(s) && j in s.jobs && s.jobs[j].phase.Publishing?
    ensures TableOk(ApplyPublish(s, j))
  {
  }

  lemma TableStep(s: State, e: Step)
    requires TableOk(s) && Enabled(s, e)
    ensures TableOk(Apply(s, e))
  {
    hide TableNames, ApplyJoin, ApplyDo, ApplyPublish, Ask, SameLives, ActEnabled;
    match e
    case Join(c, f) => TableJoin(s, c, f);
    case Publish(j) => TablePublish(s, j);
    case Do(j, act) =>
      DoKeepsLives(s, j, act);
      SameLivesKeepTable(s.table, s.jobs, ApplyDo(s, j, act).jobs);
    case Bus(name, owned, others) =>
      BusKeepsLives(s, name, owned, others);
      SameLivesKeepTable(s.table, s.jobs, ApplyBus(s, name, owned, others).jobs);
    case _ =>
  }

  lemma BusKeepsLives(s: State, name: Name, owned: bool, others: set<nat>)
    ensures SameLives(s.jobs, ApplyBus(s, name, owned, others).jobs)
  {
  }

  // ----- what a job's history shows -----

  predicate BeforeStart(p: JobPhase) { p.Resolving? || p.Watching? || p.Rechecking? || p.Starting? }

  predicate Decided(p: JobPhase) { p.Ending? || p.Publishing? || p.Published? }

  predicate DeferredRan(p: JobPhase) { p.Publishing? || p.Published? }

  /** Past the recheck and before the decision. */
  predicate Depends(p: JobPhase) { p.Starting? || p.Waiting? || p.ExitCheck? }

  /** The job itself was told that its name has an owner. */
  ghost predicate Observed(log: seq<Fact>, j: nat, name: Name)
  {
    Answered(ByJob(j), name, Owned) in log || Delivered(j, Change(name, true)) in log
  }

  predicate StopsOk(job: Job)
  {
    && (BeforeStart(job.phase) ==> !job.started)
    && (job.phase.Waiting? || job.phase.ExitCheck? ==> job.started && !job.succeeded)
    && (Decided(job.phase) && job.started ==> (job.succeeded <==> job.phase.code.Success?))
    && job.stops == if DeferredRan(job.phase) && job.started && job.hasStop && !job.succeeded then 1 else 0
  }

  /** An owner that is there is queued. */
  predicate WakeupQueued(owners: set<Name>, job: Job)
  {
    Depends(job.phase) && job.name in owners ==> Change(job.name, true) in job.queue
  }

  /** What a job was told that accounts for its result. */
  ghost predicate Explained(log: seq<Fact>, j: nat, name: Name, code: Code)
  {
    match code
    case Success => Observed(log, j, name)
    case UnknownService => ResolverSaid(j, Some(ErrUnknownService)) in log
    case DuplicateService => ResolverSaid(j, Some(ErrDuplicateService)) in log
    case UnitNotFound => ResolverSaid(j, Some(ErrUnitNotFound)) in log
    case ServiceInvalid => ResolverSaid(j, Some(ErrAmbiguousUnit)) in log
    case InvalidBusName => false
    case ExecFailed => StarterSaid(j, false) in log
    case ChildExited =>
      && (ExitSaid(j, ExitClosed) in log || ExitSaid(j, ExitNil) in log || ExitSaid(j, ExitError) in log)
      && Answered(ByJob(j), name, NoOwner) in log
    case ChildSignaled => ExitSaid(j, ExitSignal) in log && Answered(ByJob(j), name, NoOwner) in log
    case Failed => DeadlineSaid(j, false) in log || ResolverSaid(j, Some(ErrOther)) in log
    case Timeout => DeadlineSaid(j, true) in log
    case BackendUnavailable =>
      WatchSaid(j, false) in log || ChangesEnded(j) in log || Answered(ByJob(j), name, OwnerError) in log
  }

  ghost predicate ResultShown(log: seq<Fact>, j: nat, job: Job)
  {
    && (Decided(job.phase) ==> Explained(log, j, job.name, job.phase.code))
    && (job.phase.ExitCheck? ==> ExitSaid(j, job.phase.exit) in log)
    && (job.phase.Published? ==> PublishedJob(j, job.phase.code) in log)
  }

  ghost predicate JobOk(owners: set<Name>, log: seq<Fact>, j: nat, job: Job)
  {
    StopsOk(job) && WakeupQueued(owners, job) && ResultShown(log, j, job)
  }

  ghost predicate JobsOk(s: State) { forall j | j in s.jobs :: JobOk(s.owners, s.log, j, s.jobs[j]) }

  lemma StillIn(log: seq<Fact>, more: seq<Fact>)
    ensures forall f | f in log :: f in log + more
    ensures forall f | f in more :: f in log + more
  {
  }

  lemma ShownGrows(log: seq<Fact>, more: seq<Fact>, j: nat, job: Job)
    requires ResultShown(log, j, job)
    ensures ResultShown(log + more, j, job)
  {
    StillIn(log, more);
  }

  lemma NextStops(j: nat, job: Job, owners: set<Name>, act: Act)
    requires ActEnabled(job, act) && StopsOk(job)
    ensures StopsOk(Next(j, job, owners, act).0)
  {
    hide Ask;
  }

  lemma NextWakeup(j: nat, job: Job, owners: set<Name>, act: Act)
    requires ActEnabled(job, act) && WakeupQueued(owners, job)
    ensures WakeupQueued(owners, Next(j, job, owners, act).0)
  {
    if act.TakeChange? {
      assert job.queue == [job.queue[0]] + job.queue[1..];
    }
  }

  /** A fact just learned explains the result it leads to. */
  lemma NextExplained(j: nat, job: Job, owners: set<Name>, act: Act, log: seq<Fact>)
    requires ActEnabled(job, act) && ResultShown(log, j, job) && !act.RunDeferred?
    ensures var (job', facts) := Next(j, job, owners, act); job'.phase.Ending? ==>
              Explained(log + facts, j, job.name, job'.phase.code)
  {
    var (job', facts) := Next(j, job, owners, act);
    StillIn(log, facts);
    assert |facts| == 1 && facts[0] in facts;
    if act.TakeChange? && job'.phase.Ending? { assert facts[0] == Delivered(j, Change(job.name, true)); }
  }

  lemma NextShown(j: nat, job: Job, owners: set<Name>, act: Act, log: seq<Fact>)
    requires ActEnabled(job, act) && ResultShown(log, j, job)
    ensures var (job', facts) := Next(j, job, owners, act); ResultShown(log + facts, j, job')
  {
    var (job', facts) := Next(j, job, owners, act);
    if act.RunDeferred? {
      assert log + facts == log;
    } else {
      NextExplained(j, job, owners, act, log);
      if act.ChildExit? { assert facts[0] in facts; StillIn(log, facts); }
      hide Explained;
    }
  }

  lemma NotifiedOk(s: State, j: nat, name: Name, owned: bool, others: set<nat>)
    requires j in s.jobs && JobOk(s.owners, s.log, j, s.jobs[j])
    ensures var s' := ApplyBus(s, name, owned, others); JobOk(s'.owners, s'.log, j, s'.jobs[j])
  {
    StillIn(s.log, [Owns(name, owned)]);
    var s' := ApplyBus(s, name, owned, others);
    assert StopsOk(s'.jobs[j]);
    assert ResultShown(s'.log, j, s'.jobs[j]);
    hide StopsOk, ResultShown;
  }

  lemma DoneOk(s: State, j: nat, act: Act)
    requires j in s.jobs && ActEnabled(s.jobs[j], act) && JobOk(s.owners, s.log, j, s.jobs[j])
    ensures var s' := ApplyDo(s, j, act); JobOk(s'.owners, s'.log, j, s'.jobs[j])
  {
    var job := s.jobs[j];
    NextStops(j, job, s.owners, act);
    NextWakeup(j, job, s.owners, act);
    NextShown(j, job, s.owners, act, s.log);
    hide Next, StopsOk, WakeupQueued, ResultShown, ActEnabled;
  }

  lemma PublishedOk(s: State, j: nat)
    requires j in s.jobs && s.jobs[j].phase.Publishing? && JobOk(s.owners, s.log, j, s.jobs[j])
    ensures var s' := ApplyPublish(s, j); JobOk(s'.owners, s'.log, j, s'.jobs[j])
  {
    var fact := PublishedJob(j, s.jobs[j].phase.code);
    assert fact in [fact];
    StillIn(s.log, [fact]);
  }

  lemma CarriedOk(owners: set<Name>, log: seq<Fact>, more: seq<Fact>, j: nat, job: Job)
    requires JobOk(owners, log, j, job)
    ensures JobOk(owners, log + more, j, job)
  {
    ShownGrows(log, more, j, job);
    hide ResultShown;
  }

  lemma NewJobOk(owners: set<Name>, log: seq<Fact>, j: nat, name: Name)
    ensures JobOk(owners, log, j, Job(name, Resolving, [], false, false, false, 0))
  {
  }

  /** Where a job of the next state comes from. */
  lemma JobStep(s: State, e: Step, j: nat)
    requires JobsOk(s) && Enabled(s, e) && j in Apply(s, e).jobs
    ensures var s' := Apply(s, e); JobOk(s'.owners, s'.log, j, s'.jobs[j])
  {
    var s' := Apply(s, e);
    if j in s.jobs { assert JobOk(s.owners, s.log, j, s.jobs[j]); }
    hide JobOk, JobsOk, Next, ActEnabled, Ask;
    match e
    case Bus(name, owned, others) => NotifiedOk(s, j, name, owned, others);
    case Do(j', act) =>
      if j == j' { DoneOk(s, j, act); }
      else { CarriedOk(s.owners, s.log, Next(j', s.jobs[j'], s.owners, act).1, j, s.jobs[j]); }
    case Publish(j') =>
      if j == j' { PublishedOk(s, j); } else { CarriedOk(s.owners, s.log, s'.log[|s.log|..], j, s.jobs[j]); }
    case Join(c, _) =>
      if j in s.jobs { CarriedOk(s.owners, s.log, s'.log[|s.log|..], j, s.jobs[j]); }
      else { NewJobOk(s.owners, s'.log, j, s.callers[c].name); }
    case Call(c, name, valid, configured) =>
      CarriedOk(s.owners, s.log, [Called(c, name, valid, configured)], j, s.jobs[j]);
    case AskOwner(c, fails) =>
      CarriedOk(s.owners, s.log, [Answered(ByCaller(c), s.callers[c].name, Ask(s.owners, s.callers[c].name, fails))],
          j, s.jobs[j]);
    case CancelContext(c) => CarriedOk(s.owners, s.log, [Cancelled(c)], j, s.jobs[j]);
    case _ =>
  }

  lemma JobsStep(s: State, e: Step)
    requires JobsOk(s) && Enabled(s, e)
    ensures JobsOk(Apply(s, e))
  {
    hide Apply, Enabled, JobOk;
    forall j | j in Apply(s, e).jobs
      ensures JobOk(Apply(s, e).owners, Apply(s, e).log, j, Apply(s, e).jobs[j])
    {
      JobStep(s, e, j);
    }
  }

  // ----- the bus tells the truth -----

  /** What is known of an owner goes back to the bus having given the name one. */
  ghost predicate Truthful(log: seq<Fact>, name: Name) { Owns(name, true) in log }

  ghost predicate OwnersTrue(s: State) { forall n | n in s.owners :: Truthful(s.log, n) }

  ghost predicate QueuesTrue(s: State)
  {
    forall j, c | j in s.jobs && c in s.jobs[j].queue && c.hasOwner :: Truthful(s.log, c.name)
  }

  ghost predicate LogTrue(log: seq<Fact>)
  {
    && (forall a, n | Answered(a, n, Owned) in log :: Truthful(log, n))
    && (forall j, n | Delivered(j, Change(n, true)) in log :: Truthful(log, n))
  }

  ghost predicate BusTrue(s: State) { OwnersTrue(s) && QueuesTrue(s) && LogTrue(s.log) }

  /** A step appends to the history. */
  lemma LogGrows(s: State, e: Step)
    requires Enabled(s, e)
    ensures s.log <= Apply(s, e).log
  {
    hide Next, Ask, ActEnabled;
  }

  lemma QueueStep(s: State, e: Step, j: nat, c: Change)
    requires Enabled(s, e) && j in Apply(s, e).jobs && c in Apply(s, e).jobs[j].queue
    ensures (j in s.jobs && c in s.jobs[j].queue) || (e.Bus? && c == Change(e.name, e.owned))
  {
    hide Ask, ActEnabled;
    if e.Do? && e.job == j { NextQueue(j, s.jobs[j], s.owners, e.act); }
    hide Next;
  }

  lemma NextQueue(j: nat, job: Job, owners: set<Name>, act: Act)
    requires ActEnabled(job, act)
    ensures forall c | c in Next(j, job, owners, act).0.queue :: c in job.queue
  {
    if act.TakeChange? {
      assert job.queue == [job.queue[0]] + job.queue[1..];
    }
  }

  /** What a step adds to the history is true at that moment. */
  lemma FactStep(s: State, e: Step, f: Fact)
    requires Enabled(s, e) && f in Apply(s, e).log && f !in s.log
    ensures f.Answered? && f.answer.Owned? ==> f.name in s.owners
    ensures f.Delivered? ==>
              && e.Do? && e.act.TakeChange? && f.job == e.job && e.job in s.jobs
              && f.change in s.jobs[e.job].queue
  {
    hide ActEnabled;
    if e.Do? {
      NextFact(e.job, s.jobs[e.job], s.owners, e.act);
      hide Next;
    }
  }

  lemma NextFact(j: nat, job: Job, owners: set<Name>, act: Act)
    requires ActEnabled(job, act)
    ensures forall f | f in Next(j, job, owners, act).1 ::
              && (f.Answered? && f.answer.Owned? ==> f.name in owners)
              && (f.Delivered? ==> act.TakeChange? && f.job == j && f.change in job.queue)
  {
  }

  lemma OwnersStep(s: State, e: Step, n: Name)
    requires Enabled(s, e) && n in Apply(s, e).owners
    ensures n in s.owners || Truthful(Apply(s, e).log, n)
  {
    hide Next, Ask, ActEnabled;
  }

  lemma BusStep(s: State, e: Step)
    requires BusTrue(s) && Enabled(s, e)
    ensures BusTrue(Apply(s, e))
  {
    var s' := Apply(s, e);
    LogGrows(s, e);
    assert s'.log == s.log + s'.log[|s.log|..];
    StillIn(s.log, s'.log[|s.log|..]);
    assert e.Bus? ==> Owns(e.name, e.owned) in s'.log;
    hide Apply, Enabled;
    forall n | n in s'.owners ensures Truthful(s'.log, n) { OwnersStep(s, e, n); }
    forall j, c | j in s'.jobs && c in s'.jobs[j].queue && c.hasOwner ensures Truthful(s'.log, c.name) {
      QueueStep(s, e, j, c);
    }
    forall a, n | Answered(a, n, Owned) in s'.log ensures Truthful(s'.log, n) {
      if Answered(a, n, Owned) !in s.log { FactStep(s, e, Answered(a, n, Owned)); }
    }
    forall j, n | Delivered(j, Change(n, true)) in s'.log ensures Truthful(s'.log, n) {
      if Delivered(j, Change(n, true)) !in s.log { FactStep(s, e, Delivered(j, Change(n, true))); }
    }
  }

  // ----- callers -----

  /** The caller joined job `j`, and that job's result came later. */
  ghost predicate ServedLater(log: seq<Fact>, c: nat, j: nat, code: Code)
  {
    exists i, k :: 0 <= i < k < |log| && log[i] == JoinedJob(c, j) && log[k] == PublishedJob(j, code)
  }

  /** A recorded join is one the caller still has, of a job that has not published or did so later. */
  ghost predicate JoinOk(s: State, c: nat, j: nat)
  {
    && c in s.callers && j in s.jobs
    && ((s.callers[c].Joined? && s.callers[c].job == j) || (s.callers[c].Returned? && s.callers[c].joined == Some(j)))
    && (s.jobs[j].phase.Published? ==> ServedLater(s.log, c, j, s.jobs[j].phase.code))
  }

  ghost predicate JoinsOk(s: State) { forall c, j | JoinedJob(c, j) in s.log :: JoinOk(s, c, j) }

  /** What accounts for the answer of a caller that joined no job. */
  ghost predicate Refused(log: seq<Fact>, c: nat, name: Name, code: Code)
  {
    match code
    case Success => Answered(ByCaller(c), name, Owned) in log
    case InvalidBusName => exists configured :: Called(c, name, false, configured) in log
    case BackendUnavailable => Called(c, name, true, false) in log || Answered(ByCaller(c), name, OwnerError) in log
    case _ => false
  }

  ghost predicate CallerOk(s: State, c: nat, caller: Caller)
  {
    match caller
    case Joined(name, j) => j in s.jobs && s.jobs[j].name == name && JoinedJob(c, j) in s.log
    case Returned(name, code, None) => Refused(s.log, c, name, code)
    case Returned(name, code, Some(j)) =>
      && j in s.jobs && s.jobs[j].name == name && JoinedJob(c, j) in s.log
      && (s.jobs[j].phase == Published(code) || (code == Failed && Cancelled(c) in s.log))
    case _ => true
  }

  ghost predicate CallersOk(s: State) { forall c | c in s.callers :: CallerOk(s, c, s.callers[c]) }

  /** A job never changes its name, and a published result is never written again. */
  lemma JobsPersist(s: State, e: Step, j: nat)
    requires Enabled(s, e) && j in s.jobs
    ensures j in Apply(s, e).jobs && Apply(s, e).jobs[j].name == s.jobs[j].name
    ensures s.jobs[j].phase.Published? ==> Apply(s, e).jobs[j] == s.jobs[j]
  {
    if e.Do? {
      NextKeepsLife(e.job, s.jobs[e.job], s.owners, e.act);
    }
    hide Next, Ask, ActEnabled;
  }

  lemma CallerCarries(s: State, s': State, c: nat, caller: Caller)
    requires CallerOk(s, c, caller) && s.log <= s'.log
    requires forall j | j in s.jobs ::
               && j in s'.jobs && s'.jobs[j].name == s.jobs[j].name
               && (s.jobs[j].phase.Published? ==> s'.jobs[j] == s.jobs[j])
    ensures CallerOk(s', c, caller)
  {
    assert s'.log == s.log + s'.log[|s.log|..];
    StillIn(s.log, s'.log[|s.log|..]);
  }

  lemma CallersStep(s: State, e: Step)
    requires TableOk(s) && CallersOk(s) && Enabled(s, e)
    ensures CallersOk(Apply(s, e))
  {
    var s' := Apply(s, e);
    LogGrows(s, e);
    forall j | j in s.jobs
      ensures j in s'.jobs && s'.jobs[j].name == s.jobs[j].name &&
                (s.jobs[j].phase.Published? ==> s'.jobs[j] == s.jobs[j])
    {
      JobsPersist(s, e, j);
    }
    hide Apply, Enabled, TableOk, CallerOk;
    forall c | c in s'.callers ensures CallerOk(s', c, s'.callers[c]) {
      if c in s.callers && s'.callers[c] == s.callers[c] {
        CallerCarries(s, s', c, s.callers[c]);
      } else {
        CallerMoves(s, e, c);
      }
    }
  }

  /** A caller that moves is in order. */
  lemma CallerMoves(s: State, e: Step, c: nat)
    requires TableOk(s) && CallersOk(s) && Enabled(s, e)
    requires c in Apply(s, e).callers && (c in s.callers ==> Apply(s, e).callers[c] != s.callers[c])
    ensures CallerOk(Apply(s, e), c, Apply(s, e).callers[c])
  {
    hide Next, ActEnabled;
    if c in s.callers { assert CallerOk(s, c, s.callers[c]); }
    hide CallersOk;
    match e
    case Call(_, name, valid, configured) => CallMoves(s, c, name, valid, configured);
    case AskOwner(_, fails) => AskMoves(s, c, fails);
    case Join(_, f) => JoinMoves(s, c, f);
    case _ => hide TableOk;
  }

  lemma CallMoves(s: State, c: nat, name: Name, valid: bool, configured: bool)
    ensures var s' := ApplyCall(s, c, name, valid, configured); CallerOk(s', c, s'.callers[c])
  {
    var s' := ApplyCall(s, c, name, valid, configured);
    assert s'.log[|s.log|] == Called(c, name, valid, configured);
  }

  lemma AskMoves(s: State, c: nat, fails: bool)
    requires c in s.callers && s.callers[c].Asking?
    ensures var s' := ApplyAsk(s, c, fails); CallerOk(s', c, s'.callers[c])
  {
    var s' := ApplyAsk(s, c, fails);
    assert s'.log[|s.log|] == Answered(ByCaller(c), s.callers[c].name, Ask(s.owners, s.callers[c].name, fails));
  }

  lemma JoinMoves(s: State, c: nat, f: nat)
    requires TableOk(s) && c in s.callers
    ensures var s' := ApplyJoin(s, c, f); CallerOk(s', c, s'.callers[c])
  {
    var s' := ApplyJoin(s, c, f);
    assert s'.log[|s.log|] == JoinedJob(c, s'.callers[c].job);
  }

  lemma ServedGrows(log: seq<Fact>, more: seq<Fact>, c: nat, j: nat, code: Code)
    requires ServedLater(log, c, j, code)
    ensures ServedLater(log + more, c, j, code)
  {
    var i, k :| 0 <= i < k < |log| && log[i] == JoinedJob(c, j) && log[k] == PublishedJob(j, code);
    assert (log + more)[i] == JoinedJob(c, j) && (log + more)[k] == PublishedJob(j, code);
  }

  lemma ServedNow(log: seq<Fact>, c: nat, j: nat, code: Code)
    requires JoinedJob(c, j) in log
    ensures ServedLater(log + [PublishedJob(j, code)], c, j, code)
  {
    var i :| 0 <= i < |log| && log[i] == JoinedJob(c, j);
    var all := log + [PublishedJob(j, code)];
    assert all[i] == JoinedJob(c, j) && all[|log|] == PublishedJob(j, code);
  }

  /** A caller stays with the job it joined. */
  lemma StaysJoined(s: State, e: Step, c: nat, j: nat)
    requires Enabled(s, e) && c in s.callers
    requires (s.callers[c].Joined? && s.callers[c].job == j) ||
              (s.callers[c].Returned? && s.callers[c].joined == Some(j))
    ensures c in Apply(s, e).callers
    ensures var r := Apply(s, e).callers[c]; (r.Joined? && r.job == j) || (r.Returned? && r.joined == Some(j))
  {
    hide Next, Ask, ActEnabled;
  }

  /** A job turns published by its own Publish step only. */
  lemma TurnsPublished(s: State, e: Step, j: nat)
    requires Enabled(s, e) && j in Apply(s, e).jobs && Apply(s, e).jobs[j].phase.Published?
    requires j in s.jobs ==> !s.jobs[j].phase.Published?
    ensures e == Publish(j) && Apply(s, e).log == s.log + [PublishedJob(j, Apply(s, e).jobs[j].phase.code)]
  {
    if e.Do? { NextKeepsLife(e.job, s.jobs[e.job], s.owners, e.act); }
    hide Next, Ask, ActEnabled;
  }

  lemma JoinStep(s: State, e: Step, c: nat, j: nat)
    requires JoinsOk(s) && Enabled(s, e) && JoinedJob(c, j) in s.log
    ensures JoinOk(Apply(s, e), c, j)
  {
    var s' := Apply(s, e);
    assert JoinOk(s, c, j);
    LogGrows(s, e);
    JobsPersist(s, e, j);
    StaysJoined(s, e, c, j);
    assert s'.log == s.log + s'.log[|s.log|..];
    if s.jobs[j].phase.Published? {
      ServedGrows(s.log, s'.log[|s.log|..], c, j, s.jobs[j].phase.code);
    } else if s'.jobs[j].phase.Published? {
      TurnsPublished(s, e, j);
      ServedNow(s.log, c, j, s'.jobs[j].phase.code);
    }
    hide Apply, Enabled, ServedLater;
  }

  /** A new join is of a live job. */
  lemma NewJoin(s: State, e: Step, c: nat, j: nat)
    requires TableOk(s) && Enabled(s, e) && JoinedJob(c, j) in Apply(s, e).log && JoinedJob(c, j) !in s.log
    ensures JoinOk(Apply(s, e), c, j)
  {
    hide Ask, ActEnabled;
    if e.Do? { NextFactKind(e.job, s.jobs[e.job], s.owners, e.act); }
    hide Next;
  }

  lemma NextFactKind(j: nat, job: Job, owners: set<Name>, act: Act)
    requires ActEnabled(job, act)
    ensures forall f | f in Next(j, job, owners, act).1 :: !f.JoinedJob?
  {
  }

  lemma JoinsStep(s: State, e: Step)
    requires TableOk(s) && JoinsOk(s) && Enabled(s, e)
    ensures JoinsOk(Apply(s, e))
  {
    hide Apply, Enabled, JoinOk, TableOk;
    forall c, j | JoinedJob(c, j) in Apply(s, e).log ensures JoinOk(Apply(s, e), c, j) {
      if JoinedJob(c, j) in s.log { JoinStep(s, e, c, j); } else { NewJoin(s, e, c, j); }
    }
  }

  // ----- every interleaving -----

  ghost predicate Inv(s: State) { TableOk(s) && JobsOk(s) && BusTrue(s) && JoinsOk(s) && CallersOk(s) }

  lemma InvStep(s: State, e: Step)
    requires Inv(s) && Enabled(s, e)
    ensures Inv(Apply(s, e))
  {
    hide Apply, Enabled, TableOk, JobsOk, BusTrue, JoinsOk, CallersOk;
    TableStep(s, e);
    JobsStep(s, e);
    BusStep(s, e);
    JoinsStep(s, e);
    CallersStep(s, e);
  }

  ghost predicate Runs(s: State, steps: seq<Step>)
    decreases |steps|
  {
    steps == [] || (Enabled(s, steps[0]) && Runs(Apply(s, steps[0]), steps[1..]))
  }

  function Run(s: State, steps: seq<Step>): State
    requires Runs(s, steps)
    decreases |steps|
  {
    if steps == [] then s else Run(Apply(s, steps[0]), steps[1..])
  }

  lemma {:induction false} InvRun(s: State, steps: seq<Step>)
    requires Inv(s) && Runs(s, steps)
    ensures Inv(Run(s, steps))
    decreases |steps|
  {
    hide Inv, Apply, Enabled;
    if steps != [] {
      InvStep(s, steps[0]);
      InvRun(Apply(s, steps[0]), steps[1..]);
    }
  }

  /** In every interleaving: one live job per name, and so never two starter calls for it. */
  lemma SingleFlight(steps: seq<Step>, i: nat, j: nat)
    requires Runs(Init, steps)
    requires var jobs := Run(Init, steps).jobs;
             i in jobs && j in jobs && jobs[i].name == jobs[j].name && Live(jobs[i]) && Live(jobs[j])
    ensures i == j
  {
    InvRun(Init, steps);
    hide Apply, Enabled, Run, Runs;
  }

  /** In every interleaving: a caller that joined job `j` and returned has that very job's result,
      published after it joined, or its own context was cancelled; and it joined no other job. */
  lemma CallersGetTheirResult(steps: seq<Step>, c: nat, j: nat)
    requires Runs(Init, steps) && JoinedJob(c, j) in Run(Init, steps).log
    requires c in Run(Init, steps).callers && Run(Init, steps).callers[c].Returned?
    ensures var s := Run(Init, steps); var code := s.callers[c].code;
            && s.callers[c].joined == Some(j)
            && (ServedLater(s.log, c, j, code) || (code == Failed && Cancelled(c) in s.log))
  {
    InvRun(Init, steps);
    hide Apply, Enabled, Run, Runs, ServedLater;
    var s := Run(Init, steps);
    assert JoinOk(s, c, j);
    assert CallerOk(s, c, s.callers[c]);
  }

  /** In every interleaving: Success means that the caller, or the job it joined, was told of an owner
      of the name by the bus, and that the bus had given the name one. */
  lemma SuccessMeansOwner(steps: seq<Step>, c: nat)
    requires Runs(Init, steps) && c in Run(Init, steps).callers
    requires Run(Init, steps).callers[c].Returned? && Run(Init, steps).callers[c].code.Success?
    ensures var s := Run(Init, steps); var r := s.callers[c];
            && Owns(r.name, true) in s.log
            && (if r.joined.Some? then Observed(s.log, r.joined.value, r.name)
                else Answered(ByCaller(c), r.name, Owned) in s.log)
  {
    InvRun(Init, steps);
    hide Apply, Enabled, Run, Runs;
    var s := Run(Init, steps);
    assert CallerOk(s, c, s.callers[c]);
    if s.callers[c].joined.Some? {
      var j := s.callers[c].joined.value;
      assert JobOk(s.owners, s.log, j, s.jobs[j]);
    }
  }

  /** In every interleaving: whatever a caller is told, success or error, has its cause in what the bus,
      the resolver, the starter, the child and the deadline said to it or to the job it joined. */
  lemma ResultsExplained(steps: seq<Step>, c: nat)
    requires Runs(Init, steps) && c in Run(Init, steps).callers && Run(Init, steps).callers[c].Returned?
    ensures var s := Run(Init, steps); var r := s.callers[c];
            if r.joined.Some? then
              Explained(s.log, r.joined.value, r.name, r.code) || (r.code == Failed && Cancelled(c) in s.log)
            else Refused(s.log, c, r.name, r.code)
  {
    InvRun(Init, steps);
    hide Apply, Enabled, Run, Runs, Explained, Refused;
    var s := Run(Init, steps);
    assert CallerOk(s, c, s.callers[c]);
    if s.callers[c].joined.Some? {
      var j := s.callers[c].joined.value;
      assert JobOk(s.owners, s.log, j, s.jobs[j]);
    }
  }

  /** In every interleaving: a published job called Stop exactly once if it had started a service
      that can be stopped and published anything but Success, and never otherwise. */
  lemma StopExactlyOnce(steps: seq<Step>, j: nat)
    requires Runs(Init, steps) && j in Run(Init, steps).jobs && Run(Init, steps).jobs[j].phase.Published?
    ensures var job := Run(Init, steps).jobs[j];
            job.stops == if job.started && job.hasStop && !job.phase.code.Success? then 1 else 0
  {
    InvRun(Init, steps);
    hide Apply, Enabled, Run, Runs;
    assert JobOk(Run(Init, steps).owners, Run(Init, steps).log, j, Run(Init, steps).jobs[j]);
  }

  /** A second job for a name is created only after every earlier one has published, that is, after
      its starter call and its Stop, if it owed one, are over. */
  lemma NewJobOnlyAfterPublish(s: State, e: Step, j: nat)
    requires Inv(s) && Enabled(s, e) && j !in s.jobs && j in Apply(s, e).jobs
    ensures forall i | i in s.jobs && s.jobs[i].name == Apply(s, e).jobs[j].name :: s.jobs[i].phase.Published?
  {
    hide Next, Ask, ActEnabled, JobsOk, BusTrue, JoinsOk, CallersOk;
  }

  // ----- watch, then recheck -----

  /** In every interleaving: when a job has rechecked and is not decided, an owner of its name that is
      there now is waiting in the job's queue. */
  lemma OwnerNotMissed(steps: seq<Step>, j: nat)
    requires Runs(Init, steps) && j in Run(Init, steps).jobs
    requires var s := Run(Init, steps); Depends(s.jobs[j].phase) && s.jobs[j].name in s.owners
    ensures Change(Run(Init, steps).jobs[j].name, true) in Run(Init, steps).jobs[j].queue
  {
    InvRun(Init, steps);
    hide Apply, Enabled, Run, Runs;
    assert JobOk(Run(Init, steps).owners, Run(Init, steps).log, j, Run(Init, steps).jobs[j]);
  }

  /** Taking changes alone then ends the job with Success. */
  ghost predicate DrainsToSuccess(s: State, j: nat, taken: nat)
    requires j in s.jobs
    decreases taken
  {
    if taken == 0 then s.jobs[j].phase == Ending(Success)
    else Enabled(s, Do(j, TakeChange)) && DrainsToSuccess(Apply(s, Do(j, TakeChange)), j, taken - 1)
  }

  lemma {:induction false} QueuedOwnerSucceeds(s: State, j: nat) returns (taken: nat)
    requires j in s.jobs && s.jobs[j].phase.Waiting? && Change(s.jobs[j].name, true) in s.jobs[j].queue
    ensures taken <= |s.jobs[j].queue| && DrainsToSuccess(s, j, taken)
    decreases |s.jobs[j].queue|
  {
    var job := s.jobs[j];
    var s' := Apply(s, Do(j, TakeChange));
    assert job.queue == [job.queue[0]] + job.queue[1..];
    if job.queue[0] == Change(job.name, true) {
      assert DrainsToSuccess(s', j, 0);
      taken := 1;
    } else {
      var rest := QueuedOwnerSucceeds(s', j);
      taken := rest + 1;
    }
  }
}
