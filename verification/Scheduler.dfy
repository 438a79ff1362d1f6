/** sys-cgroupd's unit scheduler as atomic steps, one per lock-protected section: ready events,
    settle timers, the migration worker's query and update, stop and missing events, group
    reconciliation and source loss (cmd/sys-cgroupd/main.go). Any number of workers interleave. */
module Scheduler {
  import opened Options

  type Key = string
  type Source = nat

  /** InstanceIdentity */
  datatype Identity = Identity(key: Key, boot: string, mainPID: int, startTime: nat, epoch: string, generation: nat)

  /** InstanceIdentity.Validate, for a valid key. */
  predicate Valid(id: Identity)
  {
    id.key != "" && id.boot != "" && id.epoch != "" && id.mainPID > 0 && id.startTime != 0 && id.generation != 0
  }

  datatype Tracking = Pending | Tracked | Partial | Degraded | Stopped | Orphaned | UnknownUnit | SourceOffline

  /** unitWork: `ref` is its address, `timer` the settle timer it holds. */
  datatype Work = Work(ref: nat, id: Identity, state: Tracking, source: Option<Source>, timer: Option<nat>)

  /** A migration worker started by a timer. */
  datatype Job =
    | Fired(id: Identity)
    | HasSource(id: Identity, source: Option<Source>)
    | Queried(id: Identity)
    | Finished(id: Identity, result: Tracking)

  datatype PidsAnswer = PidsError | Populated | Empty

  /** A stop or missing event in progress, or a reconciliation looking at one group. */
  datatype Visit =
    | Retiring(key: Key, ref: nat)
    | Retired(key: Key, ref: nat, answer: PidsAnswer)
    | Unclaimed(key: Key)
    | SawStopped(key: Key, ref: nat)

  /** What a source answers: an error, or a snapshot with its lifecycle and, if valid, its identity. */
  datatype Answer = QueryError | Reported(ready: bool, identity: Option<Identity>)

  /** The history: what sources answered and what the backend made of an identity, whatever follows. */
  datatype Event =
    | Answered(job: nat, source: Source, answer: Answer)
    | Processed(job: nat, id: Identity, result: Tracking)

  /** `restored` holds the addresses of the records that the registry gave as Tracked. */
  datatype State = State(boot: string, units: map<Key, Work>, armed: map<nat, Identity>, jobs: map<nat, Job>,
                         visits: map<nat, Visit>, next: nat, restored: set<nat>, log: seq<Event>)

  datatype Step =
    | Ready(source: Option<Source>, id: Identity)
    | Fire(timer: nat)
    | Check(job: nat)
    | Query(job: nat, answer: Answer)
    | Migrate(job: nat, result: Tracking)
    | Update(job: nat)
    | Retire(key: Key)                            // first section of Stopped or Missing
    | ReadPids(visit: nat, pids: PidsAnswer)
    | Settle(visit: nat)                          // last section of Stopped or Missing
    | LookUp(key: Key, populated: bool)           // ReconcileGroups meets a group
    | Adopt(visit: nat)
    | Repend(key: Key)                            // ReconcileGroups did not meet this record's group
    | MarkOffline(source: Option<Source>)

  predicate Enabled(s: State, e: Step)
  {
    match e
    case Ready(_, id) => Valid(id) && id.boot == s.boot
    case Fire(t) => t in s.armed
    case Check(j) => j in s.jobs && s.jobs[j].Fired?
    case Query(j, _) => j in s.jobs && s.jobs[j].HasSource?
    case Migrate(j, r) => j in s.jobs && s.jobs[j].Queried? && (r.Tracked? || r.Partial? || r.Degraded?)
    case Update(j) => j in s.jobs && s.jobs[j].Finished?
    case Retire(_) => true
    case ReadPids(v, _) => v in s.visits && s.visits[v].Retiring?
    case Settle(v) => v in s.visits && s.visits[v].Retired?
    case LookUp(_, _) => true
    case Adopt(v) => v in s.visits && (s.visits[v].Unclaimed? || s.visits[v].SawStopped?)
    case Repend(_) => true
    case MarkOffline(_) => true
  }

  function Disarm(armed: map<nat, Identity>, timer: Option<nat>): map<nat, Identity>
  {
    if timer.Some? then armed - {timer.value} else armed
  }

  function SetState(s: State, k: Key, st: Tracking): State
    requires k in s.units
  {
    s.(units := s.units[k := s.units[k].(state := st)])
  }

  /** Ready: keep a live record of the same identity, otherwise start afresh with a new timer. */
  function ApplyReady(s: State, source: Option<Source>, id: Identity): State
  {
    if id.key in s.units && s.units[id.key].id == id && s.units[id.key].source.Some?
       && !s.units[id.key].state.SourceOffline? && !s.units[id.key].state.Degraded?
       && !s.units[id.key].state.Partial? then
      s.(units := s.units[id.key := s.units[id.key].(source := source)])
    else
      var armed := if id.key in s.units then Disarm(s.armed, s.units[id.key].timer) else s.armed;
      s.(units := s.units[id.key := Work(s.next, id, Pending, source, Some(s.next))],
         armed := armed[s.next := id], next := s.next + 1)
  }

  /** migrateCurrent up to the unlock: only a pending record of this very identity goes on. */
  function ApplyCheck(s: State, j: nat): State
    requires j in s.jobs
  {
    var id := s.jobs[j].id;
    if id.key in s.units && s.units[id.key].id == id && s.units[id.key].state.Pending? then
      s.(jobs := s.jobs[j := HasSource(id, s.units[id.key].source)])
    else s.(jobs := s.jobs - {j})
  }

  /** Without a source there is nothing to ask; otherwise only a ready snapshot of this very identity
      lets the worker go on. */
  function ApplyQuery(s: State, j: nat, answer: Answer): State
    requires j in s.jobs && s.jobs[j].HasSource?
  {
    var HasSource(id, source) := s.jobs[j];
    if source.None? then s.(jobs := s.jobs[j := Finished(id, Degraded)])
    else
      var told := s.(log := s.log + [Answered(j, source.value, answer)]);
      if answer.Reported? && answer.ready && answer.identity == Some(id) then told.(jobs := s.jobs[j := Queried(id)])
      else told.(jobs := s.jobs[j := Finished(id, Degraded)])
  }

  /** nativeDeclared, then verifyNative or Migrate: the result is the backend's. */
  function ApplyMigrate(s: State, j: nat, r: Tracking): State
    requires j in s.jobs
  {
    var id := s.jobs[j].id;
    s.(jobs := s.jobs[j := Finished(id, r)], log := s.log + [Processed(j, id, r)])
  }

  /** updateMigration: a result reaches the record only if the record still has this identity. */
  function ApplyUpdate(s: State, j: nat): State
    requires j in s.jobs && s.jobs[j].Finished?
  {
    var Finished(id, r) := s.jobs[j];
    var done := s.(jobs := s.jobs - {j});
    if id.key in s.units && s.units[id.key].id == id then SetState(done, id.key, r) else done
  }

  function ApplyRetire(s: State, k: Key): State
  {
    if k !in s.units then s
    else
      var w := s.units[k];
      s.(units := s.units[k := w.(timer := None)], armed := Disarm(s.armed, w.timer),
         visits := s.visits[s.next := Retiring(k, w.ref)], next := s.next + 1)
  }

  /** Drop the record of an emptied group; otherwise mark it, if it is still the same record. */
  function ApplySettle(s: State, v: nat): State
    requires v in s.visits && s.visits[v].Retired?
  {
    var Retired(k, ref, answer) := s.visits[v];
    var done := s.(visits := s.visits - {v});
    if k !in s.units || s.units[k].ref != ref then done
    else match answer
      case PidsError => SetState(done, k, Degraded)
      case Populated => SetState(done, k, Orphaned)
      case Empty => done.(units := s.units - {k})
  }

  function ApplyLookUp(s: State, k: Key, populated: bool): State
  {
    if !populated then s
    else if k !in s.units then s.(visits := s.visits[s.next := Unclaimed(k)], next := s.next + 1)
    else if s.units[k].state.Stopped? then
      s.(visits := s.visits[s.next := SawStopped(k, s.units[k].ref)], next := s.next + 1)
    else s
  }

  /** The second lock of ReconcileGroups; the record is not looked up again before it is replaced. */
  function ApplyAdopt(s: State, v: nat): State
    requires v in s.visits && (s.visits[v].Unclaimed? || s.visits[v].SawStopped?)
  {
    var k := s.visits[v].key;
    var done := s.(visits := s.visits - {v});
    match s.visits[v]
    case Unclaimed(_) =>
      done.(units := s.units[k := Work(s.next, Identity(k, s.boot, 0, 0, "", 0), UnknownUnit, None, None)],
            next := s.next + 1)
    case SawStopped(_, ref) =>
      if k in s.units && s.units[k].ref == ref then SetState(done, k, Orphaned) else done
  }

  predicate NeedsRepend(w: Work)
  {
    w.source.Some? && Valid(w.id) && w.state.Tracked?
  }

  /** The last section of ReconcileGroups, record by record: a tracked record whose group was not
      met is pending again, with a new timer. */
  function ApplyRepend(s: State, k: Key): State
  {
    if k in s.units && NeedsRepend(s.units[k]) then
      var w := s.units[k];
      s.(units := s.units[k := w.(state := Pending, timer := Some(s.next))],
         armed := Disarm(s.armed, w.timer)[s.next := w.id], next := s.next + 1)
    else s
  }

  function ApplyOffline(s: State, source: Option<Source>): State
  {
    s.(units := map k | k in s.units ::
         if s.units[k].source == source && !s.units[k].state.Stopped? && !s.units[k].state.Orphaned?
         then s.units[k].(state := SourceOffline) else s.units[k])
  }

  function Apply(s: State, e: Step): State
    requires Enabled(s, e)
  {
    match e
    case Ready(source, id) => ApplyReady(s, source, id)
    case Fire(t) => s.(armed := s.armed - {t}, jobs := s.jobs[t := Fired(s.armed[t])])
    case Check(j) => ApplyCheck(s, j)
    case Query(j, answer) => ApplyQuery(s, j, answer)
    case Migrate(j, r) => ApplyMigrate(s, j, r)
    case Update(j) => ApplyUpdate(s, j)
    case Retire(k) => ApplyRetire(s, k)
    case ReadPids(v, answer) => s.(visits := s.visits[v := Retired(s.visits[v].key, s.visits[v].ref, answer)])
    case Settle(v) => ApplySettle(s, v)
    case LookUp(k, populated) => ApplyLookUp(s, k, populated)
    case Adopt(v) => ApplyAdopt(s, v)
    case Repend(k) => ApplyRepend(s, k)
    case MarkOffline(source) => ApplyOffline(s, source)
  }

  // ----- the tracking invariant -----

  /** A source answered worker `job` that this very identity is ready. */
  ghost predicate ToldReady(e: Event, job: nat, id: Identity)
  {
    e.Answered? && e.job == job && e.answer == Reported(true, Some(id))
  }

  /** One worker was told by a source that this very identity is ready, and afterwards the backend
      tracked it. */
  ghost predicate Confirmed(log: seq<Event>, id: Identity)
  {
    exists i, j, job :: 0 <= i < j < |log| && ToldReady(log[i], job, id) && log[j] == Processed(job, id, Tracked)
  }

  ghost predicate Asked(log: seq<Event>, job: nat, id: Identity)
  {
    exists i :: 0 <= i < |log| && ToldReady(log[i], job, id)
  }

  /** A record may say Tracked only for these two reasons. */
  ghost predicate Justified(s: State, w: Work)
  {
    Confirmed(s.log, w.id) || (w.ref in s.restored && w.id.boot == s.boot && Valid(w.id))
  }

  ghost predicate UnitsOk(s: State)
  {
    forall k | k in s.units ::
      s.units[k].id.key == k && s.units[k].ref < s.next && (s.units[k].state.Tracked? ==> Justified(s, s.units[k]))
  }

  ghost predicate JobOk(s: State, j: nat, job: Job)
  {
    match job
    case Queried(id) => Asked(s.log, j, id)
    case Finished(id, r) => r.Tracked? ==> Confirmed(s.log, id)
    case _ => true
  }

  ghost predicate JobsOk(s: State) { forall j | j in s.jobs :: JobOk(s, j, s.jobs[j]) }

  ghost predicate RestoredOk(s: State) { forall r | r in s.restored :: r < s.next }

  ghost predicate Inv(s: State) { UnitsOk(s) && JobsOk(s) && RestoredOk(s) }

  /** LoadRegistry on a fresh scheduler: records of the running boot with a valid identity, in
      whatever state they were saved; everything else is dropped. */
  ghost predicate Loaded(s: State)
  {
    && s.armed == map[] && s.jobs == map[] && s.visits == map[] && s.log == []
    && RestoredOk(s)
    && forall k | k in s.units ::
         var w := s.units[k];
         w.id.key == k && w.id.boot == s.boot && Valid(w.id) && w.ref < s.next &&
             (w.state.Tracked? ==> w.ref in s.restored) && w.source.None? && w.timer.None?
  }

  lemma ConfirmedGrows(log: seq<Event>, more: seq<Event>, id: Identity)
    requires Confirmed(log, id)
    ensures Confirmed(log + more, id)
  {
    hide ToldReady;
    var i, j, job :| 0 <= i < j < |log| && ToldReady(log[i], job, id) && log[j] == Processed(job, id, Tracked);
    assert ToldReady((log + more)[i], job, id) && (log + more)[j] == Processed(job, id, Tracked);
  }

  lemma AskedGrows(log: seq<Event>, more: seq<Event>, job: nat, id: Identity)
    requires Asked(log, job, id)
    ensures Asked(log + more, job, id)
  {
    hide ToldReady;
    var i :| 0 <= i < |log| && ToldReady(log[i], job, id);
    assert ToldReady((log + more)[i], job, id);
  }

  lemma SuccessConfirms(log: seq<Event>, job: nat, id: Identity)
    requires Asked(log, job, id)
    ensures Confirmed(log + [Processed(job, id, Tracked)], id)
  {
    hide ToldReady;
    var i :| 0 <= i < |log| && ToldReady(log[i], job, id);
    var all := log + [Processed(job, id, Tracked)];
    assert ToldReady(all[i], job, id) && all[|log|] == Processed(job, id, Tracked);
  }

  /** What no step takes back. */
  ghost predicate Later(s: State, s': State)
  {
    s.log <= s'.log && s.next <= s'.next && s'.restored == s.restored && s'.boot == s.boot
  }

  lemma WorkerLater(s: State, j: nat, answer: Answer, r: Tracking)
    requires j in s.jobs
    ensures Later(s, ApplyCheck(s, j)) && Later(s, ApplyMigrate(s, j, r))
    ensures s.jobs[j].HasSource? ==> Later(s, ApplyQuery(s, j, answer))
    ensures s.jobs[j].Finished? ==> Later(s, ApplyUpdate(s, j))
  {
  }

  lemma VisitLater(s: State, v: nat)
    requires v in s.visits
    ensures s.visits[v].Retired? ==> Later(s, ApplySettle(s, v))
    ensures s.visits[v].Unclaimed? || s.visits[v].SawStopped? ==> Later(s, ApplyAdopt(s, v))
  {
  }

  lemma KeyLater(s: State, k: Key, populated: bool, source: Option<Source>, id: Identity)
    ensures Later(s, ApplyRetire(s, k)) && Later(s, ApplyLookUp(s, k, populated)) && Later(s, ApplyRepend(s, k))
    ensures Later(s, ApplyReady(s, source, id)) && Later(s, ApplyOffline(s, source))
  {
  }

  /** Steps only ever append to the history, and restored addresses are never reused. */
  lemma HistoryGrows(s: State, e: Step)
    requires Enabled(s, e)
    ensures Later(s, Apply(s, e))
  {
    hide ApplyReady, ApplyCheck, ApplyQuery, ApplyMigrate, ApplyUpdate, ApplyRetire, ApplySettle, ApplyLookUp,
        ApplyAdopt;
    hide ApplyRepend, ApplyOffline, Valid;
    var id := Identity("", "", 0, 0, "", 0);
    match e
    case Ready(source, id) => KeyLater(s, id.key, false, source, id);
    case Retire(k) => KeyLater(s, k, false, None, id);
    case LookUp(k, populated) => KeyLater(s, k, populated, None, id);
    case Repend(k) => KeyLater(s, k, false, None, id);
    case MarkOffline(source) => KeyLater(s, "", false, source, id);
    case Check(j) => WorkerLater(s, j, QueryError, Degraded);
    case Query(j, answer) => WorkerLater(s, j, answer, Degraded);
    case Migrate(j, r) => WorkerLater(s, j, QueryError, r);
    case Update(j) => WorkerLater(s, j, QueryError, Degraded);
    case Settle(v) => VisitLater(s, v);
    case Adopt(v) => VisitLater(s, v);
    case _ =>
  }

  lemma JustifiedStays(s: State, s': State, w: Work)
    requires s.log <= s'.log && s'.restored == s.restored && s'.boot == s.boot && Justified(s, w)
    ensures Justified(s', w)
  {
    if Confirmed(s.log, w.id) {
      ConfirmedGrows(s.log, s'.log[|s.log|..], w.id);
      assert s.log + s'.log[|s.log|..] == s'.log;
    }
  }

  /** The records of `s'` are well placed, and one that says Tracked said so before. */
  ghost predicate Inherits(s: State, s': State)
  {
    forall k | k in s'.units ::
      var w := s'.units[k];
      && w.id.key == k && w.ref < s'.next
      && (w.state.Tracked? ==>
            k in s.units && s.units[k].state.Tracked? && w.id == s.units[k].id && w.ref == s.units[k].ref)
  }

  ghost predicate Placed(s: State) { forall k | k in s.units :: s.units[k].id.key == k && s.units[k].ref < s.next }

  lemma ReadyInherits(s: State, source: Option<Source>, id: Identity)
    requires Placed(s)
    ensures Inherits(s, ApplyReady(s, source, id))
  {
  }

  lemma RetireInherits(s: State, k: Key)
    requires Placed(s)
    ensures Inherits(s, ApplyRetire(s, k)) && Inherits(s, ApplyRepend(s, k))
  {
  }

  lemma SettleInherits(s: State, v: nat)
    requires Placed(s) && v in s.visits
    ensures s.visits[v].Retired? ==> Inherits(s, ApplySettle(s, v))
    ensures s.visits[v].Unclaimed? || s.visits[v].SawStopped? ==> Inherits(s, ApplyAdopt(s, v))
  {
  }

  lemma OfflineInherits(s: State, source: Option<Source>)
    requires Placed(s)
    ensures Inherits(s, ApplyOffline(s, source))
  {
  }

  lemma SameUnitsInherit(s: State, s': State)
    requires Placed(s) && s'.units == s.units && s.next <= s'.next
    ensures Inherits(s, s')
  {
  }

  /** Apart from Update, no step makes a record say Tracked. */
  lemma OthersInherit(s: State, e: Step)
    requires Placed(s) && Enabled(s, e) && !e.Update?
    ensures Inherits(s, Apply(s, e))
  {
    hide Inherits, Placed, ApplyReady, ApplyRetire, ApplyRepend, ApplySettle, ApplyAdopt, ApplyOffline, Valid;
    match e
    case Ready(source, id) => ReadyInherits(s, source, id);
    case Retire(k) => RetireInherits(s, k);
    case Repend(k) => RetireInherits(s, k);
    case Settle(v) => SettleInherits(s, v);
    case Adopt(v) => SettleInherits(s, v);
    case MarkOffline(source) => OfflineInherits(s, source);
    case Update(_) =>
    case _ => SameUnitsInherit(s, Apply(s, e));
  }

  /** Where a record of the next state comes from. */
  lemma RecordStep(s: State, e: Step, k: Key)
    requires Placed(s) && Enabled(s, e) && k in Apply(s, e).units
    ensures var w := Apply(s, e).units[k];
            && w.id.key == k && w.ref < Apply(s, e).next
            && (w.state.Tracked? ==>
                 || (k in s.units && s.units[k].state.Tracked? && w.id == s.units[k].id && w.ref == s.units[k].ref)
                 || (e.Update? && s.jobs[e.job].result.Tracked? && w.id == s.jobs[e.job].id))
  {
    if !e.Update? {
      OthersInherit(s, e);
      hide Apply, Enabled, Placed;
    }
  }

  lemma UnitsStep(s: State, e: Step)
    requires Inv(s) && Enabled(s, e)
    ensures UnitsOk(Apply(s, e))
  {
    var s' := Apply(s, e);
    HistoryGrows(s, e);
    hide Apply, Justified, Enabled;
    forall k | k in s'.units
      ensures s'.units[k].id.key == k && s'.units[k].ref < s'.next &&
                (s'.units[k].state.Tracked? ==> Justified(s', s'.units[k]))
    {
      TrackedStep(s, e, k);
    }
  }

  lemma TrackedStep(s: State, e: Step, k: Key)
    requires Inv(s) && Enabled(s, e) && k in Apply(s, e).units
    ensures var w := Apply(s, e).units[k];
            w.id.key == k && w.ref < Apply(s, e).next && (w.state.Tracked? ==> Justified(Apply(s, e), w))
  {
    RecordStep(s, e, k);
    HistoryGrows(s, e);
    hide Apply, Confirmed;
    if k in s.units && s.units[k].state.Tracked? {
      JustifiedStays(s, Apply(s, e), s.units[k]);
    }
    if e.Update? {
      assert JobOk(s, e.job, s.jobs[e.job]);
    }
  }

  /** Where a worker of the next state comes from. */
  lemma JobOrigin(s: State, e: Step, j: nat)
    requires Enabled(s, e) && j in Apply(s, e).jobs
    ensures var s' := Apply(s, e); var job := s'.jobs[j];
            || job.Fired? || job.HasSource?
            || (j in s.jobs && s.jobs[j] == job)
            || (job.Queried? && Asked(s'.log, j, job.id))
            || (job.Finished? && !job.result.Tracked?)
            || (j in s.jobs && s.jobs[j] == Queried(job.id) && s'.log == s.log + [Processed(j, job.id, Tracked)])
  {
    hide ApplyReady, ApplyRetire, ApplyRepend, ApplySettle, ApplyAdopt, ApplyOffline, ApplyUpdate, ApplyLookUp, Valid;
    if !(e.Fire? || e.Check? || e.Query? || e.Migrate?) {
      KeepsJobs(s, e);
    }
    if e.Query? && e.job == j && s.jobs[j].source.Some? {
      assert Apply(s, e).log[|s.log|] == Answered(j, s.jobs[j].source.value, e.answer);
      assert Apply(s, e).jobs[j].Queried? ==> ToldReady(Apply(s, e).log[|s.log|], j, s.jobs[j].id);
    }
  }

  lemma KeepsJobs(s: State, e: Step)
    requires Enabled(s, e) && !(e.Fire? || e.Check? || e.Query? || e.Migrate?)
    ensures forall j | j in Apply(s, e).jobs :: j in s.jobs && Apply(s, e).jobs[j] == s.jobs[j]
  {
    hide ApplyCheck, ApplyQuery, ApplyMigrate, Valid;
  }

  lemma JobStep(s: State, e: Step, j: nat)
    requires JobsOk(s) && Enabled(s, e) && j in Apply(s, e).jobs
    ensures JobOk(Apply(s, e), j, Apply(s, e).jobs[j])
  {
    HistoryGrows(s, e);
    JobOrigin(s, e, j);
    hide Apply, Enabled, Confirmed, Asked;
    var s' := Apply(s, e);
    var more := s'.log[|s.log|..];
    assert s'.log == s.log + more;
    if j in s.jobs {
      assert JobOk(s, j, s.jobs[j]);
      if s.jobs[j].Finished? && s.jobs[j].result.Tracked? {
        ConfirmedGrows(s.log, more, s.jobs[j].id);
      } else if s.jobs[j].Queried? {
        SuccessConfirms(s.log, j, s.jobs[j].id);
        AskedGrows(s.log, more, j, s.jobs[j].id);
      }
    }
  }

  lemma InvStep(s: State, e: Step)
    requires Inv(s) && Enabled(s, e)
    ensures Inv(Apply(s, e))
  {
    UnitsStep(s, e);
    HistoryGrows(s, e);
    hide Apply, JobOk, UnitsOk;
    forall j | j in Apply(s, e).jobs ensures JobOk(Apply(s, e), j, Apply(s, e).jobs[j]) {
      JobStep(s, e, j);
    }
  }

  ghost predicate Runs(s: State, steps: seq<Step>)
    decreases |steps|
  {
    steps == [] || (Enabled(s, steps[0]) && Runs(Apply(s, steps[0]), steps[1..]))
  }

  function Run(s: State, steps: seq<Step>): State
    requires Runs(s, steps)
    decreases |steps|
  {
    if steps == [] then s else Run(Apply(s, steps[0]), steps[1..])
  }

  lemma {:induction false} InvRun(s: State, steps: seq<Step>)
    requires Inv(s) && Runs(s, steps)
    ensures Inv(Run(s, steps))
    decreases |steps|
  {
    if steps != [] {
      InvStep(s, steps[0]);
      InvRun(Apply(s, steps[0]), steps[1..]);
    }
  }

  /** Tracked is earned: in every interleaving, a record that says Tracked either was restored from
      the registry of this boot, or some worker was told by a source that exactly its present identity
      is ready, and then the backend tracked that identity for it. */
  lemma TrackedIsEarned(s: State, steps: seq<Step>, k: Key)
    requires Loaded(s) && Runs(s, steps) && k in Run(s, steps).units && Run(s, steps).units[k].state.Tracked?
    ensures Justified(Run(s, steps), Run(s, steps).units[k])
  {
    InvRun(s, steps);
  }

  /** No record is about `id`: it was replaced or dropped. */
  ghost predicate Superseded(s: State, id: Identity) { id.key in s.units ==> s.units[id.key].id != id }

  /** Only a ready event of that very identity brings it back. */
  lemma SupersededStep(s: State, e: Step, id: Identity)
    requires Valid(id) && Superseded(s, id) && Enabled(s, e) && !(e.Ready? && e.id == id)
    ensures Superseded(Apply(s, e), id)
  {
  }

  ghost predicate NeverReadyAgain(steps: seq<Step>, id: Identity)
  {
    forall e | e in steps :: !(e.Ready? && e.id == id)
  }

  /** A worker of a superseded identity is harmless for good: however long it takes and whatever else
      happens, unless the source reports that same identity ready again, its result changes no record. */
  lemma {:induction false} LateResultIgnored(s: State, steps: seq<Step>, j: nat)
    requires Runs(s, steps) && Enabled(Run(s, steps), Update(j))
    requires var id := Run(s, steps).jobs[j].id; Valid(id) && Superseded(s, id) && NeverReadyAgain(steps, id)
    ensures Apply(Run(s, steps), Update(j)).units == Run(s, steps).units
    decreases |steps|
  {
    if steps != [] {
      var id := Run(s, steps).jobs[j].id;
      assert steps[0] in steps && forall e | e in steps[1..] :: e in steps;
      SupersededStep(s, steps[0], id);
      LateResultIgnored(Apply(s, steps[0]), steps[1..], j);
    }
  }

  // ----- what the events leave behind -----

  /** All records but that of `k` are the same. */
  ghost predicate OthersSame(s: State, s': State, k: Key)
  {
    forall k' | k' != k :: (k' in s'.units <==> k' in s.units) && (k' in s.units ==> s'.units[k'] == s.units[k'])
  }

  /** Visit `v` still is about record `ref` of `k`, and if its group was read, one of the steps read it. */
  ghost predicate VisitStands(s: State, v: nat, k: Key, ref: nat, steps: seq<Step>)
  {
    && v in s.visits && v < s.next
    && (s.visits[v] == Retiring(k, ref)
        || (s.visits[v].Retired? && s.visits[v] == Retired(k, ref, s.visits[v].answer) &&
            ReadPids(v, s.visits[v].answer) in steps))
  }

  lemma VisitStep(s: State, e: Step, v: nat, k: Key, ref: nat, steps: seq<Step>)
    requires Enabled(s, e) && e != Settle(v) && VisitStands(s, v, k, ref, steps)
    ensures VisitStands(Apply(s, e), v, k, ref, steps + [e])
  {
    assert forall x | x in steps :: x in steps + [e];
    assert e in steps + [e];
  }

  lemma {:induction false} VisitRun(s: State, steps: seq<Step>, v: nat, k: Key, ref: nat, before: seq<Step>)
    requires Runs(s, steps) && Settle(v) !in steps && VisitStands(s, v, k, ref, before)
    ensures VisitStands(Run(s, steps), v, k, ref, before + steps)
    decreases |steps|
  {
    if steps == [] {
      assert before + steps == before;
    } else {
      assert steps == [steps[0]] + steps[1..];
      assert (before + [steps[0]]) + steps[1..] == before + steps;
      hide VisitStands, Apply, Enabled;
      VisitStep(s, steps[0], v, k, ref, before);
      VisitRun(Apply(s, steps[0]), steps[1..], v, k, ref, before + [steps[0]]);
    }
  }

  /** What a stop or missing event leaves of the record it retired, after reading the group. */
  ghost predicate Settled(s: State, s': State, k: Key, ref: nat, answer: PidsAnswer)
  {
    && OthersSame(s, s', k)
    && (if k in s.units && s.units[k].ref == ref then
          match answer
          case Empty => k !in s'.units
          case Populated => k in s'.units && s'.units[k] == s.units[k].(state := Orphaned)
          case PidsError => k in s'.units && s'.units[k] == s.units[k].(state := Degraded)
        else (k in s'.units <==> k in s.units) && (k in s.units ==> s'.units[k] == s.units[k]))
  }

  /** Stopped and Missing, with anything in between: if the record of `k` is still the one that was
      retired, it is gone when its group was read empty, orphaned when it was read populated and
      degraded when it could not be read; a replaced record and all other records stand. */
  lemma StopSettles(s: State, k: Key, steps: seq<Step>)
    requires k in s.units && Runs(Apply(s, Retire(k)), steps) && Settle(s.next) !in steps
    requires Enabled(Run(Apply(s, Retire(k)), steps), Settle(s.next))
    ensures var s1 := Run(Apply(s, Retire(k)), steps);
            exists answer :: ReadPids(s.next, answer) in steps &&
                Settled(s1, Apply(s1, Settle(s.next)), k, s.units[k].ref, answer)
  {
    var v, ref := s.next, s.units[k].ref;
    VisitRun(Apply(s, Retire(k)), steps, v, k, ref, []);
    assert [] + steps == steps;
    var s1 := Run(Apply(s, Retire(k)), steps);
    hide Run, Runs;
    SettleEffect(s1, v, k, ref);
    hide Settled, Apply;
  }

  lemma SettleEffect(s: State, v: nat, k: Key, ref: nat)
    requires v in s.visits && s.visits[v].Retired? && s.visits[v].key == k && s.visits[v].ref == ref
    ensures Settled(s, Apply(s, Settle(v)), k, ref, s.visits[v].answer)
  {
  }

  /** The first section of a stop takes the record's timer away and touches nothing else of it. */
  lemma RetireDisarms(s: State, k: Key)
    requires k in s.units
    ensures var s' := Apply(s, Retire(k));
            && OthersSame(s, s', k) && k in s'.units && s'.units[k] == s.units[k].(timer := None)
            && (s.units[k].timer.Some? ==> s.units[k].timer.value !in s'.armed)
  {
  }

  /** A source that goes offline: exactly its records that are neither stopped nor orphaned say so, and
      nothing else about any record changes. */
  lemma OfflineExact(s: State, source: Option<Source>, k: Key)
    ensures var s' := Apply(s, MarkOffline(source));
            && (k in s'.units <==> k in s.units)
            && (k in s.units ==>
                  var w := s.units[k];
                  if w.source == source && w.state != Stopped && w.state != Orphaned
                  then s'.units[k] == w.(state := SourceOffline)
                  else s'.units[k] == w)
  {
  }

  /** The record of a ready event: of this identity and source; one that was the same identity under a
      live source and neither offline, degraded nor partial is kept, anything else starts afresh, pending,
      with a timer armed for this identity, and the old timer is gone. */
  ghost predicate ReadyRecord(s: State, s': State, source: Option<Source>, id: Identity)
  {
    && OthersSame(s, s', id.key) && id.key in s'.units
    && (var w' := s'.units[id.key];
        && w'.id == id && w'.source == source
        && (if id.key in s.units && s.units[id.key].id == id && s.units[id.key].source != None &&
               s.units[id.key].state in {Pending, Tracked, Stopped, Orphaned, UnknownUnit}
            then w' == s.units[id.key].(source := source) && s'.armed == s.armed
            else && w'.state == Pending && w'.ref == s.next && w'.timer.Some? && w'.timer.value in s'.armed
                 && s'.armed[w'.timer.value] == id
                 && (id.key in s.units && s.units[id.key].timer.Some? && s.units[id.key].timer != w'.timer ==>
                       s.units[id.key].timer.value !in s'.armed)))
  }

  lemma ReadyExact(s: State, source: Option<Source>, id: Identity)
    requires Enabled(s, Ready(source, id))
    ensures ReadyRecord(s, Apply(s, Ready(source, id)), source, id)
  {
  }

  /** From a ready event to its result, when nothing else happens: the timer fires, the worker finds the
      record pending, the source confirms, the backend answers, and that is what the record says. */
  lemma ReadyIsMigrated(s: State, source: Source, id: Identity, r: Tracking) returns (steps: seq<Step>)
    requires Enabled(s, Ready(Some(source), id)) && r in {Tracked, Partial, Degraded}
    requires id.key in s.units && s.units[id.key].id == id ==>
              s.units[id.key].state in {Degraded, Partial, SourceOffline}
    ensures Runs(s, steps) && id.key in Run(s, steps).units
    ensures var w := Run(s, steps).units[id.key]; w.id == id && w.state == r && w.source == Some(source)
  {
    var t := s.next;
    var e1, e2, e3, e4 := Ready(Some(source), id), Fire(t), Check(t), Query(t, Reported(true, Some(id)));
    var e5, e6 := Migrate(t, r), Update(t);
    var s1 := Apply(s, e1);
    var w := Work(t, id, Pending, Some(source), Some(t));
    assert s1.units[id.key] == w && t in s1.armed && s1.armed[t] == id;
    var s2 := Apply(s1, e2);
    assert s2.units == s1.units && t in s2.jobs && s2.jobs[t] == Fired(id);
    var s3 := Apply(s2, e3);
    assert s3.units == s1.units && t in s3.jobs && s3.jobs[t] == HasSource(id, Some(source));
    var s4 := Apply(s3, e4);
    assert s4.units == s1.units && t in s4.jobs && s4.jobs[t] == Queried(id);
    var s5 := Apply(s4, e5);
    assert s5.units == s1.units && t in s5.jobs && s5.jobs[t] == Finished(id, r);
    var s6 := Apply(s5, e6);
    assert s6.units[id.key] == w.(state := r);
    hide Apply, Enabled;
    RunNone(s6);
    RunCons(s5, e6, []);
    RunCons(s4, e5, [e6] + []);
    RunCons(s3, e4, [e5] + ([e6] + []));
    RunCons(s2, e3, [e4] + ([e5] + ([e6] + [])));
    RunCons(s1, e2, [e3] + ([e4] + ([e5] + ([e6] + []))));
    RunCons(s, e1, [e2] + ([e3] + ([e4] + ([e5] + ([e6] + [])))));
    steps := [e1] + ([e2] + ([e3] + ([e4] + ([e5] + ([e6] + [])))));
  }

  lemma RunNone(s: State)
    ensures Runs(s, []) && Run(s, []) == s
  {
  }

  lemma RunCons(s: State, e: Step, rest: seq<Step>)
    requires Enabled(s, e) && Runs(Apply(s, e), rest)
    ensures Runs(s, [e] + rest) && Run(s, [e] + rest) == Run(Apply(s, e), rest)
  {
    assert ([e] + rest)[1..] == rest;
  }

  /** Reconciliation, group by group: a populated group without a record gets an unknown one, a stopped
      record with a populated group is orphaned if it is still the same, and no other record changes. */
  lemma ReconcileExact(s: State, k: Key)
    ensures var s1 := Apply(s, LookUp(k, true)); var v := s.next;
            && s1.units == s.units && Apply(s, LookUp(k, false)) == s
            && (if k !in s.units then
                  && Enabled(s1, Adopt(v))
                  && var s2 := Apply(s1, Adopt(v));
                     && OthersSame(s, s2, k) && k in s2.units
                     && s2.units[k].state == UnknownUnit && s2.units[k].source == None
                     && s2.units[k].id.key == k && s2.units[k].id.boot == s.boot
                else if s.units[k].state == Stopped then
                  && Enabled(s1, Adopt(v))
                  && var s2 := Apply(s1, Adopt(v));
                     OthersSame(s, s2, k) && k in s2.units && s2.units[k] == s.units[k].(state := Orphaned)
                else s1 == s)
  {
  }

  /** Adoption after anything happened in between: an unclaimed group gets a blank unknown record whatever
      is there by then; a stopped record is orphaned if it is still the same one, and stands otherwise. */
  lemma AdoptExact(s: State, v: nat)
    requires Enabled(s, Adopt(v))
    ensures var k := s.visits[v].key; var s' := Apply(s, Adopt(v));
            && OthersSame(s, s', k) && s'.armed == s.armed && s'.jobs == s.jobs
            && (s.visits[v].Unclaimed? ==>
                  && k in s'.units && s'.units[k].id == Identity(k, s.boot, 0, 0, "", 0) && s'.units[k].ref == s.next
                  && s'.units[k].state == UnknownUnit && s'.units[k].source == None && s'.units[k].timer == None)
            && (s.visits[v].SawStopped? && k in s.units ==>
                  && k in s'.units
                  && s'.units[k] ==
                       if s.units[k].ref == s.visits[v].ref then s.units[k].(state := Orphaned) else s.units[k])
            && (s.visits[v].SawStopped? && k !in s.units ==> s'.units == s.units)
  {
  }

  /** The end of a worker: its result is the record's state exactly if the record has its identity. */
  lemma UpdateExact(s: State, j: nat)
    requires Enabled(s, Update(j))
    ensures var Finished(id, r) := s.jobs[j]; var s' := Apply(s, Update(j));
            && OthersSame(s, s', id.key) && s'.armed == s.armed && s'.jobs == s.jobs - {j}
            && (id.key in s'.units <==> id.key in s.units)
            && (id.key in s.units ==>
                  s'.units[id.key] ==
                    if s.units[id.key].id == id then s.units[id.key].(state := r) else s.units[id.key])
  {
  }

  /** Timers, workers and visits have numbers of their own, none of them still to be given out. */
  ghost predicate Numbered(s: State)
  {
    TimersNumbered(s) && VisitsNumbered(s)
  }

  ghost predicate TimersNumbered(s: State)
  {
    (forall t | t in s.armed :: t < s.next && t !in s.jobs) && forall j | j in s.jobs :: j < s.next
  }

  ghost predicate VisitsNumbered(s: State) { forall v | v in s.visits :: v < s.next }

  /** A step that ends what its number stands for, and that was taken. */
  ghost predicate Spent(s: State, e: Step)
  {
    || (e.Fire? && e.timer < s.next && e.timer !in s.armed)
    || (e.Update? && e.job < s.next && e.job !in s.armed && e.job !in s.jobs)
    || ((e.Settle? || e.Adopt?) && e.visit < s.next && e.visit !in s.visits)
  }

  lemma NumberedStep(s: State, e: Step)
    requires Numbered(s) && Enabled(s, e)
    ensures Numbered(Apply(s, e))
  {
    TimersStep(s, e);
    VisitsStep(s, e);
    hide Apply, Enabled, TimersNumbered, VisitsNumbered;
  }

  lemma TimersStep(s: State, e: Step)
    requires TimersNumbered(s) && Enabled(s, e)
    ensures TimersNumbered(Apply(s, e))
  {
  }

  lemma VisitsStep(s: State, e: Step)
    requires VisitsNumbered(s) && Enabled(s, e)
    ensures VisitsNumbered(Apply(s, e))
  {
  }

  lemma StepSpends(s: State, e: Step)
    requires Numbered(s) && Enabled(s, e) && (e.Fire? || e.Update? || e.Settle? || e.Adopt?)
    ensures Spent(Apply(s, e), e)
  {
  }

  lemma SpentStep(s: State, e: Step, e': Step)
    requires Spent(s, e) && Enabled(s, e')
    ensures e' != e && Spent(Apply(s, e'), e)
  {
  }

  lemma {:induction false} SpentRun(s: State, steps: seq<Step>, e: Step)
    requires Spent(s, e) && Runs(s, steps)
    ensures e !in steps
    decreases |steps|
  {
    hide Apply, Enabled, Spent;
    if steps != [] {
      SpentStep(s, e, steps[0]);
      SpentRun(Apply(s, steps[0]), steps[1..], e);
      assert forall i | 0 < i < |steps| :: steps[i] == steps[1..][i - 1];
    }
  }

  /** In every run each timer fires at most once, each worker reports at most once, and each stop, missing
      or reconciliation visit ends at most once. */
  lemma {:induction false} OnceEach(s: State, steps: seq<Step>, i: nat, k: nat)
    requires Numbered(s) && Runs(s, steps) && i < k < |steps|
    requires var e := steps[i]; e.Fire? || e.Update? || e.Settle? || e.Adopt?
    ensures steps[k] != steps[i]
    decreases i
  {
    NumberedStep(s, steps[0]);
    hide Apply, Enabled, Numbered;
    if i == 0 {
      StepSpends(s, steps[0]);
      SpentRun(Apply(s, steps[0]), steps[1..], steps[0]);
      assert steps[k] == steps[1..][k - 1];
    } else {
      OnceEach(Apply(s, steps[0]), steps[1..], i - 1, k - 1);
    }
  }

  lemma LoadedNumbered(s: State)
    requires Loaded(s)
    ensures Numbered(s)
  {
  }

  /** A tracked record with a source whose group was not met waits again, with a new timer; any other
      record stands. */
  lemma RependExact(s: State, k: Key)
    ensures var s' := Apply(s, Repend(k));
            && OthersSame(s, s', k) && (k in s'.units <==> k in s.units)
            && (k in s.units ==>
                  var w, w' := s.units[k], s'.units[k];
                  if && w.state == Tracked && w.source != None
                     && w.id.mainPID > 0 && w.id.startTime != 0 && w.id.generation != 0
                     && w.id.key != "" && w.id.boot != "" && w.id.epoch != ""
                  then && w'.state == Pending && w'.id == w.id && w'.ref == w.ref && w'.source == w.source
                       && w'.timer.Some? && w'.timer.value in s'.armed && s'.armed[w'.timer.value] == w.id
                       && (w.timer.Some? && w.timer != w'.timer ==> w.timer.value !in s'.armed)
                  else w' == w)
  {
  }

  /** A worker goes on exactly if the record of its key is of its identity and pending; it touches no record. */
  lemma CheckExact(s: State, j: nat)
    requires Enabled(s, Check(j))
    ensures var id := s.jobs[j].id; var s' := Apply(s, Check(j));
            && s'.units == s.units && s'.armed == s.armed
            && (if id.key in s.units && s.units[id.key].id == id && s.units[id.key].state == Pending
                then j in s'.jobs && s'.jobs[j] == HasSource(id, s.units[id.key].source)
                else j !in s'.jobs)
  {
  }

  /** It reaches the backend exactly if its source answered that this very identity is ready, and is
      degraded otherwise. */
  lemma QueryExact(s: State, j: nat, answer: Answer)
    requires Enabled(s, Query(j, answer))
    ensures var id := s.jobs[j].id; var s' := Apply(s, Query(j, answer));
            && s'.units == s.units && j in s'.jobs
            && s'.jobs[j] ==
                 if s.jobs[j].source != None && answer == Reported(true, Some(id)) then Queried(id)
                 else Finished(id, Degraded)
  {
  }
}
