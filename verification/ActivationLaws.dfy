/** Further laws of the activation engine over every interleaving: which facts decide a job's result,
    what the bus answers, and that jobs and callers get on. */
module ActivationLaws {
  import opened Options
  import opened ActivationEngine

  // ----- facts that decide a result -----

  /** A fact told to job `j`, whatever the engine makes of it. */
  predicate About(f: Fact, j: nat)
  {
    match f
    case Answered(asker, _, _) => asker == ByJob(j)
    case Delivered(i, _) => i == j
    case ResolverSaid(i, _) => i == j
    case WatchSaid(i, _) => i == j
    case StarterSaid(i, _) => i == j
    case DeadlineSaid(i, _) => i == j
    case ChangesEnded(i) => i == j
    case ExitSaid(i, _) => i == j
    case _ => false
  }

  /** A fact that settles the result of a job for `name`. */
  predicate Forces(f: Fact, name: Name, code: Code)
  {
    match f
    case Answered(_, _, a) => (a.Owned? && code.Success?) || (a.OwnerError? && code.BackendUnavailable?)
    case Delivered(_, c) => c == Change(name, true) && code.Success?
    case ResolverSaid(_, e) =>
      (e, code) in {(Some(ErrUnknownService), UnknownService), (Some(ErrDuplicateService), DuplicateService),
                    (Some(ErrUnitNotFound), UnitNotFound), (Some(ErrAmbiguousUnit), ServiceInvalid),
                    (Some(ErrOther), Failed)}
    case WatchSaid(_, ok) => !ok && code.BackendUnavailable?
    case StarterSaid(_, ok) => !ok && code.ExecFailed?
    case DeadlineSaid(_, exceeded) => if exceeded then code.Timeout? else code.Failed?
    case ChangesEnded(_) => code.BackendUnavailable?
    case _ => false
  }

  /** What a child's exit leaves open. */
  predicate AfterExit(exit: Exit, code: Code)
  {
    code.Success? || code.BackendUnavailable? || (if exit.ExitSignal? then code.ChildSignaled? else code.ChildExited?)
  }

  /** A decisive fact has decided the job it is about. */
  ghost predicate FactHeeded(job: Job, f: Fact)
  {
    && (forall code | Forces(f, job.name, code) :: Decided(job.phase) && job.phase.code == code)
    && (f.ExitSaid? ==>
          job.phase == ExitCheck(f.exit) || (Decided(job.phase) && AfterExit(f.exit, job.phase.code)))
  }

  ghost predicate Heeded(s: State)
  {
    forall f, j | f in s.log && About(f, j) :: j in s.jobs && FactHeeded(s.jobs[j], f)
  }

  lemma NextHeeds(j: nat, job: Job, owners: set<Name>, act: Act, f: Fact)
    requires ActEnabled(job, act) && f in Next(j, job, owners, act).1
    ensures About(f, j) && FactHeeded(Next(j, job, owners, act).0, f)
    ensures forall i | About(f, i) :: i == j
  {
  }

  lemma NextStillHeeds(j: nat, job: Job, owners: set<Name>, act: Act, f: Fact)
    requires ActEnabled(job, act) && FactHeeded(job, f)
    ensures FactHeeded(Next(j, job, owners, act).0, f)
  {
    hide Ask;
    var job' := Next(j, job, owners, act).0;
    assert job'.name == job.name;
    if Decided(job.phase) {
      assert Decided(job'.phase) && job'.phase.code == job.phase.code;
    } else if job.phase.ExitCheck? {
      assert Decided(job'.phase) && AfterExit(job.phase.exit, job'.phase.code);
    }
    hide Next, ActEnabled, Forces, AfterExit;
  }

  /** Phase and name of a job change by its own steps only. */
  lemma OtherStepKeeps(s: State, e: Step, j: nat)
    requires Enabled(s, e) && j in s.jobs && !(e.Do? && e.job == j) && e != Publish(j)
    ensures j in Apply(s, e).jobs
    ensures var job := Apply(s, e).jobs[j];
            || job == s.jobs[j]
            || (e.Bus? && exists more :: |more| == 1 && job == s.jobs[j].(queue := s.jobs[j].queue + more))
  {
    hide Next, Ask, ActEnabled;
    if e.Bus? {
      var more := [Change(e.name, e.owned)];
      assert Apply(s, e).jobs[j] == s.jobs[j] || Apply(s, e).jobs[j] == s.jobs[j].(queue := s.jobs[j].queue + more);
    }
  }

  lemma HeededOld(s: State, e: Step, f: Fact, j: nat)
    requires Enabled(s, e) && j in s.jobs && FactHeeded(s.jobs[j], f)
    ensures j in Apply(s, e).jobs && FactHeeded(Apply(s, e).jobs[j], f)
  {
    if e.Do? && e.job == j {
      NextStillHeeds(j, s.jobs[j], s.owners, e.act, f);
    } else if e != Publish(j) {
      OtherStepKeeps(s, e, j);
    }
    hide Next, ActEnabled, Forces, AfterExit, Ask;
  }

  lemma HeededNew(s: State, e: Step, f: Fact, j: nat)
    requires Enabled(s, e) && f in Apply(s, e).log && f !in s.log && About(f, j)
    ensures j in Apply(s, e).jobs && FactHeeded(Apply(s, e).jobs[j], f)
  {
    if e.Do? { NextHeeds(e.job, s.jobs[e.job], s.owners, e.act, f); }
    hide Next, ActEnabled, Forces, AfterExit, Ask, FactHeeded;
  }

  lemma HeededStep(s: State, e: Step)
    requires Heeded(s) && Enabled(s, e)
    ensures Heeded(Apply(s, e))
  {
    hide Apply, Enabled, About, FactHeeded;
    forall f, j | f in Apply(s, e).log && About(f, j)
      ensures j in Apply(s, e).jobs && FactHeeded(Apply(s, e).jobs[j], f)
    {
      if f in s.log { HeededOld(s, e, f, j); } else { HeededNew(s, e, f, j); }
    }
  }

  lemma {:induction false} HeededRun(s: State, steps: seq<Step>)
    requires Heeded(s) && Runs(s, steps)
    ensures Heeded(Run(s, steps))
    decreases |steps|
  {
    hide Heeded, Apply, Enabled;
    if steps != [] {
      HeededStep(s, steps[0]);
      HeededRun(Apply(s, steps[0]), steps[1..]);
    }
  }

  /** Job `j` was told something that settles its result as `code`. */
  ghost predicate Settles(log: seq<Fact>, j: nat, name: Name, code: Code)
  {
    exists f :: f in log && About(f, j) && Forces(f, name, code)
  }

  /** In every interleaving the result of a decided job is exactly what it was told: a decisive fact gives
      its code and no other, and without one the child has exited, by a signal or not as the code says. */
  lemma ResultExact(steps: seq<Step>, j: nat, code: Code)
    requires Runs(Init, steps) && j in Run(Init, steps).jobs && Decided(Run(Init, steps).jobs[j].phase)
    ensures var s := Run(Init, steps); var job := s.jobs[j];
            if code.ChildSignaled? then
              job.phase.code == code <==>
                ExitSaid(j, ExitSignal) in s.log && forall other :: !Settles(s.log, j, job.name, other)
            else if code.ChildExited? then
              job.phase.code == code <==>
                && (exists x :: x != ExitSignal && ExitSaid(j, x) in s.log)
                && forall other :: !Settles(s.log, j, job.name, other)
            else job.phase.code == code <==> Settles(s.log, j, job.name, code)
  {
    InvRun(Init, steps);
    HeededRun(Init, steps);
    var s := Run(Init, steps);
    hide Apply, Enabled, Run, Runs;
    assert JobOk(s.owners, s.log, j, s.jobs[j]);
    var job := s.jobs[j];
    hide Inv, StopsOk, WakeupQueued;
    if job.phase.code != ChildSignaled && job.phase.code != ChildExited {
      ExplainedSettles(s.log, j, job.name, job.phase.code);
    }
    forall other | Settles(s.log, j, job.name, other) ensures other == job.phase.code { }
    ExitLeaves(s, j);
    hide Forces, Heeded, FactHeeded;
  }

  lemma ExplainedSettles(log: seq<Fact>, j: nat, name: Name, code: Code)
    requires Explained(log, j, name, code) && code != ChildSignaled && code != ChildExited
    ensures Settles(log, j, name, code)
  {
  }

  lemma ExitLeaves(s: State, j: nat)
    requires Heeded(s) && j in s.jobs && Decided(s.jobs[j].phase)
    ensures forall x | ExitSaid(j, x) in s.log :: AfterExit(x, s.jobs[j].phase.code)
  {
    forall x | ExitSaid(j, x) in s.log ensures AfterExit(x, s.jobs[j].phase.code) {
      assert About(ExitSaid(j, x), j) && FactHeeded(s.jobs[j], ExitSaid(j, x));
    }
  }

  // ----- what the bus answers -----

  /** The bus gave the name an owner and has not taken it back since. */
  ghost predicate HasOwner(log: seq<Fact>, name: Name)
  {
    exists i :: 0 <= i < |log| && log[i] == Owns(name, true) && Owns(name, false) !in log[i..]
  }

  /** The answer number `i` of the history was the truth of its moment. */
  ghost predicate TrueAnswer(log: seq<Fact>, i: nat)
    requires i < |log|
  {
    log[i].Answered? ==>
      && (log[i].answer.Owned? ==> HasOwner(log[..i], log[i].name))
      && (log[i].answer.NoOwner? ==> !HasOwner(log[..i], log[i].name))
  }

  ghost predicate OwnersLogged(s: State)
  {
    && (forall n :: n in s.owners <==> HasOwner(s.log, n))
    && (forall i: nat | i < |s.log| :: TrueAnswer(s.log, i))
  }

  lemma OwnerSnoc(log: seq<Fact>, f: Fact, name: Name)
    ensures HasOwner(log + [f], name) <==>
              f == Owns(name, true) || (HasOwner(log, name) && f != Owns(name, false))
  {
    var all := log + [f];
    if f == Owns(name, true) {
      assert all[|log|] == f && all[|log|..] == [f];
    }
    if HasOwner(all, name) && f != Owns(name, true) {
      var i :| 0 <= i < |all| && all[i] == Owns(name, true) && Owns(name, false) !in all[i..];
      assert all[i..] == log[i..] + [f] && log[i] == Owns(name, true);
      assert f in all[i..];
      assert forall g | g in log[i..] :: g in all[i..];
    }
    if HasOwner(log, name) && f != Owns(name, false) {
      var i :| 0 <= i < |log| && log[i] == Owns(name, true) && Owns(name, false) !in log[i..];
      assert all[i..] == log[i..] + [f] && all[i] == Owns(name, true);
    }
  }

  /** A step adds at most one fact, and an owner changes only with it. */
  lemma OneFact(s: State, e: Step)
    requires Enabled(s, e)
    ensures var s' := Apply(s, e);
            || (s'.log == s.log && s'.owners == s.owners)
            || exists f :: && s'.log == s.log + [f]
                           && (f.Answered? && f.answer.Owned? ==> f.name in s.owners)
                           && (f.Answered? && f.answer.NoOwner? ==> f.name !in s.owners)
                           && s'.owners ==
                                if !f.Owns? then s.owners
                                else if f.owned then s.owners + {f.name}
                                else s.owners - {f.name}
  {
    hide ActEnabled;
    if e.Do? { NextOneFact(e.job, s.jobs[e.job], s.owners, e.act); hide Next, Ask; }
    hide Next;
    var s' := Apply(s, e);
    if |s'.log| > |s.log| { assert s'.log == s.log + [s'.log[|s.log|]]; }
  }

  lemma NextOneFact(j: nat, job: Job, owners: set<Name>, act: Act)
    requires ActEnabled(job, act)
    ensures var facts := Next(j, job, owners, act).1;
            facts == [] || (|facts| == 1 && !facts[0].Owns?
                            && (facts[0].Answered? && facts[0].answer.Owned? ==> facts[0].name in owners)
                            && (facts[0].Answered? && facts[0].answer.NoOwner? ==> facts[0].name !in owners))
  {
  }

  lemma LoggedStep(s: State, e: Step)
    requires OwnersLogged(s) && Enabled(s, e)
    ensures OwnersLogged(Apply(s, e))
  {
    var s' := Apply(s, e);
    OneFact(s, e);
    hide Apply, Enabled, HasOwner;
    if s'.log != s.log {
      var f := s'.log[|s.log|];
      assert s'.log == s.log + [f];
      forall n ensures n in s'.owners <==> HasOwner(s'.log, n) { OwnerSnoc(s.log, f, n); }
      forall i: nat | i < |s'.log| ensures TrueAnswer(s'.log, i) {
        if i < |s.log| {
          assert TrueAnswer(s.log, i) && s'.log[..i] == s.log[..i];
        } else {
          assert s'.log[..i] == s.log;
        }
      }
    }
  }

  lemma {:induction false} LoggedRun(s: State, steps: seq<Step>)
    requires OwnersLogged(s) && Runs(s, steps)
    ensures OwnersLogged(Run(s, steps))
    decreases |steps|
  {
    hide OwnersLogged, Apply, Enabled;
    if steps != [] {
      LoggedStep(s, steps[0]);
      LoggedRun(Apply(s, steps[0]), steps[1..]);
    }
  }

  /** In every interleaving each answer about an owner was the truth at its place in the history. */
  lemma AnswersTrue(steps: seq<Step>, i: nat)
    requires Runs(Init, steps) && i < |Run(Init, steps).log|
    ensures TrueAnswer(Run(Init, steps).log, i)
  {
    LoggedRun(Init, steps);
  }

  // ----- jobs and callers get on -----

  /** How far a job is from its end. */
  function PhaseRank(p: JobPhase): nat
  {
    match p
    case Resolving => 8
    case Watching => 7
    case Rechecking => 6
    case Starting => 5
    case Waiting => 4
    case ExitCheck(_) => 3
    case Ending(_) => 2
    case Publishing(_) => 1
    case Published(_) => 0
  }

  /** The steps job `j` can still take when the bus stays silent. */
  function Budget(s: State, j: nat): nat
  {
    if j in s.jobs then PhaseRank(s.jobs[j].phase) + |s.jobs[j].queue| else 8
  }

  predicate Own(e: Step, j: nat) { (e.Do? && e.job == j) || e == Publish(j) }

  function OwnSteps(steps: seq<Step>, j: nat): nat
  {
    if steps == [] then 0 else (if Own(steps[0], j) then 1 else 0) + OwnSteps(steps[1..], j)
  }

  function BusSteps(steps: seq<Step>): nat
  {
    if steps == [] then 0 else (if steps[0].Bus? then 1 else 0) + BusSteps(steps[1..])
  }

  lemma NextBudget(j: nat, job: Job, owners: set<Name>, act: Act)
    requires ActEnabled(job, act)
    ensures var job' := Next(j, job, owners, act).0;
            PhaseRank(job'.phase) + |job'.queue| < PhaseRank(job.phase) + |job.queue|
  {
    hide Ask;
  }

  lemma BudgetStep(s: State, e: Step, j: nat)
    requires Enabled(s, e)
    ensures Own(e, j) ==> Budget(Apply(s, e), j) < Budget(s, j)
    ensures !Own(e, j) ==> Budget(Apply(s, e), j) <= Budget(s, j) + if e.Bus? then 1 else 0
  {
    if e.Do? && e.job == j { NextBudget(j, s.jobs[j], s.owners, e.act); }
    if !Own(e, j) && j in s.jobs { OtherStepKeeps(s, e, j); }
    hide Next, Ask, ActEnabled;
  }

  /** In every run, of any length, a job takes at most eight steps and one more for every change of
      ownership the bus announces meanwhile. */
  lemma {:induction false} JobStepsBounded(s: State, steps: seq<Step>, j: nat)
    requires Runs(s, steps)
    ensures OwnSteps(steps, j) + Budget(Run(s, steps), j) <= Budget(s, j) + BusSteps(steps)
    decreases |steps|
  {
    hide Budget, Apply, Enabled;
    if steps != [] {
      BudgetStep(s, steps[0], j);
      JobStepsBounded(Apply(s, steps[0]), steps[1..], j);
    }
  }

  /** Until it has published, a job always has a next step. */
  lemma JobNotStuck(s: State, j: nat) returns (e: Step)
    requires j in s.jobs && Live(s.jobs[j])
    ensures Enabled(s, e) && Own(e, j)
  {
    match s.jobs[j].phase
    case Resolving => e := Do(j, Resolve(None));
    case Watching => e := Do(j, Watch(true));
    case Rechecking => e := Do(j, Recheck(false));
    case Starting => e := Do(j, StartReturns(true, true));
    case Waiting => e := Do(j, Deadline(true));
    case ExitCheck(_) => e := Do(j, ExitOwner(false));
    case Ending(_) => e := Do(j, RunDeferred);
    case Publishing(_) => e := Publish(j);
  }

  /** A caller always gets on: an admitted one is answered or looks for a job, joins it, and returns as soon
      as that job has published or its own context was cancelled. */
  lemma CallersGetOn(s: State, c: nat, fails: bool, f: nat)
    requires c in s.callers && f !in s.jobs
    ensures s.callers[c].Asking? ==>
              && Enabled(s, AskOwner(c, fails))
              && var next := Apply(s, AskOwner(c, fails)).callers[c];
                 next == if fails then Returned(s.callers[c].name, BackendUnavailable, None)
                         else if s.callers[c].name in s.owners then Returned(s.callers[c].name, Success, None)
                         else Joining(s.callers[c].name)
    ensures s.callers[c].Joining? ==>
              && Enabled(s, Join(c, f))
              && var next := Apply(s, Join(c, f)).callers[c];
                 && next.Joined? && next.name == s.callers[c].name
                 && next.job == if s.callers[c].name in s.table then s.table[s.callers[c].name] else f
    ensures s.callers[c].Joined? ==>
              var s1 := Apply(s, CancelContext(c));
              && Enabled(s1, TakeCancel(c))
              && Apply(s1, TakeCancel(c)).callers[c] == Returned(s.callers[c].name, Failed, Some(s.callers[c].job))
    ensures s.callers[c].Joined? && s.callers[c].job in s.jobs && s.jobs[s.callers[c].job].phase.Published? ==>
              && Enabled(s, TakeResult(c))
              && Apply(s, TakeResult(c)).callers[c] ==
                   Returned(s.callers[c].name, s.jobs[s.callers[c].job].phase.code, Some(s.callers[c].job))
  {
    var log := s.log + [Cancelled(c)];
    assert log[|s.log|] == Cancelled(c);
  }
}
