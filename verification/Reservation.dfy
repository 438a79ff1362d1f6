/** Native cgroup reservations in sys-cgroupd: Prepare, Release, the reclaiming of empty groups by
    Stopped, Missing and ReconcileGroups, and the migration of legacy group directories, as atomic
    steps of any number of threads on one backend (cmd/sys-cgroupd/native.go, main.go,
    internal/cgrouptrack/cgroupfs.go). */
module Reservation {
  import opened Options
  import opened UnitNames
  import Text

  type Tid = nat
  type Pid = int

  /** Where a thread stands; every phase but the waiting ones is inside nativeMu. */
  datatype Phase =
    | PrepareWait(key: Key)
    | PrepareEnsure(key: Key)
    | PrepareDeclare(key: Key)
    | PrepareSave(key: Key)
    | ReleaseWait(key: Key)
    | ReleaseCheck(key: Key)
    | ReleaseDrop(key: Key)
    | ReleaseSave(key: Key, declared: bool)
    | ReleaseRemove(key: Key)
    | ReclaimWait(key: Key)
    | ReclaimCheck(key: Key)
    | ReclaimRemove(key: Key)

  predicate Waiting(p: Phase) { p.PrepareWait? || p.ReleaseWait? || p.ReclaimWait? }

  /** The backend's groups with their members, the native set, nativeMu and the threads; `held` is
      the history of keys whose Prepare succeeded and whose Release has not committed since. */
  datatype State = State(groups: map<Dir, set<Pid>>, native: set<Key>, lock: set<Tid>,
                         threads: map<Tid, Phase>, held: set<Key>)

  datatype Step =
    | Start(tid: Tid, phase: Phase)      // a call to Prepare, Release or removeUndeclaredEmpty
    | Advance(tid: Tid, ok: bool)        // the thread's next atomic section; `ok` is the oracle's answer
    | EnsureGroup(key: Key)              // the migrator or Attach creates a group
    | Churn(dir: Dir, pids: set<Pid>)    // processes fork, exit and move
    | MigrateLegacy(key: Key)            // migrateLegacyGroup, outside nativeMu

  predicate Enabled(s: State, e: Step)
  {
    match e
    case Start(t, p) => t !in s.threads && Waiting(p) && ValidKey(p.key)
    case Advance(t, ok) => t in s.threads && (Waiting(s.threads[t]) ==> s.lock == {})
    case EnsureGroup(k) => ValidKey(k)
    case Churn(d, pids) => d in s.groups
    case MigrateLegacy(k) => ValidKey(k)
  }

  /** RemoveIfEmpty: a populated or busy group stays. */
  function RemoveIfEmpty(groups: map<Dir, set<Pid>>, d: Dir, ok: bool): map<Dir, set<Pid>>
  {
    if d in groups && groups[d] == {} && ok then groups - {d} else groups
  }

  function Ensured(groups: map<Dir, set<Pid>>, d: Dir): map<Dir, set<Pid>>
  {
    if d in groups then groups else groups[d := {}]
  }

  /** Rename the legacy directory, or, when the canonical one exists, move its members over and drop it. */
  function LegacyMigrated(groups: map<Dir, set<Pid>>, k: Key): map<Dir, set<Pid>>
  {
    var from, to := Legacy(k), Leaf(k);
    if from !in groups then groups
    else (groups - {from})[to := (if to in groups then groups[to] else {}) + groups[from]]
  }

  function At(s: State, t: Tid, p: Phase): State { s.(threads := s.threads[t := p]) }

  /** Leave the critical section and the call. */
  function Done(s: State, t: Tid): State { s.(threads := s.threads - {t}, lock := {}) }

  function Apply(s: State, e: Step): State
    requires Enabled(s, e)
  {
    match e
    case Start(t, p) => At(s, t, p)
    case EnsureGroup(k) => s.(groups := Ensured(s.groups, Leaf(k)))
    case Churn(d, pids) => s.(groups := s.groups[d := pids])
    case MigrateLegacy(k) => s.(groups := LegacyMigrated(s.groups, k))
    case Advance(t, ok) => AdvanceThread(s, t, ok)
  }

  function AdvanceThread(s: State, t: Tid, ok: bool): State
    requires t in s.threads
  {
    match s.threads[t]
    case PrepareWait(k) => At(s, t, PrepareEnsure(k)).(lock := {t})
    case PrepareEnsure(k) => if ok then At(s, t, PrepareDeclare(k)).(groups := Ensured(s.groups, Leaf(k)))
        else Done(s, t)
    case PrepareDeclare(k) => if ok then At(s, t, PrepareSave(k)).(native := s.native + {k}) else Done(s, t)
    case PrepareSave(k) => if ok then Done(s, t).(held := s.held + {k}) else Done(s, t)
    case ReleaseWait(k) => At(s, t, ReleaseCheck(k)).(lock := {t})
    case ReleaseCheck(k) =>
      if ok && (Leaf(k) in s.groups ==> s.groups[Leaf(k)] == {}) then At(s, t, ReleaseDrop(k)) else Done(s, t)
    case ReleaseDrop(k) => At(s, t, ReleaseSave(k, k in s.native)).(native := s.native - {k})
    case ReleaseSave(k, declared) =>
      if ok then At(s, t, ReleaseRemove(k)).(held := s.held - {k})
      else Done(s, t).(native := if declared then s.native + {k} else s.native)
    case ReleaseRemove(k) => Done(s, t).(groups := RemoveIfEmpty(s.groups, Leaf(k), ok))
    case ReclaimWait(k) => At(s, t, ReclaimCheck(k)).(lock := {t})
    case ReclaimCheck(k) => if k in s.native then Done(s, t) else At(s, t, ReclaimRemove(k))
    case ReclaimRemove(k) => Done(s, t).(groups := RemoveIfEmpty(s.groups, Leaf(k), ok))
  }

  /** The group of `k` is not, at the same time, a legacy directory: the reader of legacy directories
      refuses it. */
  predicate Unambiguous(k: Key) { DecodeLegacy(Leaf(k)).None? }

  lemma UnambiguousMeans(k: Key, other: Key)
    requires Unambiguous(k) && ValidKey(other)
    ensures Legacy(other) != Leaf(k)
  {
    DecodeLegacyExact(Leaf(k), other);
    hide DecodeLegacy, Leaf, Legacy, ValidKey;
  }

  /** What a thread in a critical phase may rely on. */
  predicate PhaseFacts(p: Phase, native: set<Key>, held: set<Key>)
  {
    match p
    case PrepareSave(k) => k in native
    case ReleaseSave(k, _) => k !in native
    case ReleaseRemove(k) => k !in native && k !in held
    case ReclaimRemove(k) => k !in native && k !in held
    case _ => true
  }

  ghost predicate KeysValid(s: State)
  {
    (forall t | t in s.threads :: ValidKey(s.threads[t].key)) &&
        (forall k | k in s.native || k in s.held :: ValidKey(k))
  }

  ghost predicate Exclusive(s: State)
  {
    forall t | t in s.threads && !Waiting(s.threads[t]) :: s.lock == {t}
  }

  ghost predicate FactsHold(s: State)
  {
    forall t | t in s.threads :: PhaseFacts(s.threads[t], s.native, s.held)
  }

  ghost predicate Releasing(s: State, k: Key)
  {
    exists t :: t in s.threads && s.threads[t] == ReleaseSave(k, true)
  }

  /** A held key is native, except while its own Release is about to commit. */
  ghost predicate HeldIsNative(s: State)
  {
    forall k | k in s.held :: k in s.native || Releasing(s, k)
  }

  ghost predicate Inv(s: State)
  {
    KeysValid(s) && Exclusive(s) && FactsHold(s) && HeldIsNative(s)
  }

  predicate Preparing(p: Phase) { p.PrepareDeclare? || p.PrepareSave? }

  /** The reservations are in place: a held group, or one just created by a running Prepare. */
  ghost predicate LeavesStand(s: State)
  {
    && (forall k | k in s.held && Unambiguous(k) :: Leaf(k) in s.groups)
    && (forall t | t in s.threads && Preparing(s.threads[t]) &&
        Unambiguous(s.threads[t].key) :: Leaf(s.threads[t].key) in s.groups)
  }

  const Init := State(map[], {}, {}, map[], {})

  /** A daemon start: some groups and native keys were left by an earlier run, nothing runs yet. */
  ghost predicate Initial(s: State)
  {
    s.lock == {} && s.threads == map[] && s.held == {} && forall k | k in s.native :: ValidKey(k)
  }

  lemma KeysStep(s: State, e: Step)
    requires KeysValid(s) && Enabled(s, e)
    ensures KeysValid(Apply(s, e))
  {
    hide Leaf, Legacy, ValidKey;
  }

  lemma ExclusiveStep(s: State, e: Step)
    requires Exclusive(s) && Enabled(s, e)
    ensures Exclusive(Apply(s, e))
  {
    hide Leaf, Legacy, ValidKey;
  }

  /** nativeMu: beside a thread in its critical section all others wait. */
  lemma OnlyOne(s: State, t: Tid, t': Tid)
    requires Exclusive(s) && t in s.threads && t' in s.threads && t != t' && !Waiting(s.threads[t])
    ensures Waiting(s.threads[t'])
  {
    assert s.lock == {t};
    assert t' !in s.lock;
  }

  lemma CheckedIsFree(s: State, t: Tid, k: Key)
    requires Exclusive(s) && HeldIsNative(s) && t in s.threads && s.threads[t] == ReclaimCheck(k) && k !in s.native
    ensures k !in s.held
  {
    forall t' | t' in s.threads && t' != t ensures Waiting(s.threads[t']) { OnlyOne(s, t, t'); }
    assert !Releasing(s, k);
  }

  /** Only the thread that holds nativeMu changes the native or the held set, so the others keep their facts. */
  lemma FactsStep(s: State, e: Step)
    requires Exclusive(s) && FactsHold(s) && HeldIsNative(s) && Enabled(s, e)
    ensures FactsHold(Apply(s, e))
  {
    hide Leaf, Legacy, ValidKey;
    var s' := Apply(s, e);
    if e.Advance? {
      var t := e.tid;
      assert PhaseFacts(s.threads[t], s.native, s.held);
      if s.threads[t].ReclaimCheck? && s.threads[t].key !in s.native {
        CheckedIsFree(s, t, s.threads[t].key);
      }
      if !Waiting(s.threads[t]) {
        forall t' | t' in s.threads && t' != t ensures Waiting(s.threads[t']) { OnlyOne(s, t, t'); }
      }
    }
    forall t | t in s'.threads ensures PhaseFacts(s'.threads[t], s'.native, s'.held) {
      assert t in s.threads ==> PhaseFacts(s.threads[t], s.native, s.held);
    }
  }

  lemma HeldStep(s: State, e: Step)
    requires FactsHold(s) && HeldIsNative(s) && Enabled(s, e)
    ensures HeldIsNative(Apply(s, e))
  {
    hide *;
    forall k | k in Apply(s, e).held ensures k in Apply(s, e).native || Releasing(Apply(s, e), k) {
      HeldKeyStep(s, e, k);
    }
    HeldByKey(Apply(s, e));
  }

  lemma HeldByKey(s: State)
    requires forall k | k in s.held :: k in s.native || Releasing(s, k)
    ensures HeldIsNative(s)
  {
  }

  lemma HeldKeyStep(s: State, e: Step, k: Key)
    requires FactsHold(s) && HeldIsNative(s) && Enabled(s, e) && k in Apply(s, e).held
    ensures k in Apply(s, e).native || Releasing(Apply(s, e), k)
  {
    hide Leaf, Legacy, ValidKey;
    if e.Advance? {
      assert PhaseFacts(s.threads[e.tid], s.native, s.held);
      if k in s.held {
        assert k in s.native || Releasing(s, k);
        hide FactsHold, HeldIsNative;
        HeldAdvance(s, e.tid, e.ok, k);
      }
    } else {
      assert k in s.native || Releasing(s, k);
      hide FactsHold, HeldIsNative;
      if k !in s.native {
        var t :| t in s.threads && s.threads[t] == ReleaseSave(k, true);
        assert Apply(s, e).threads[t] == ReleaseSave(k, true);
      }
    }
  }

  lemma HeldAdvance(s: State, t: Tid, ok: bool, k: Key)
    requires t in s.threads && PhaseFacts(s.threads[t], s.native, s.held)
    requires k in s.native || Releasing(s, k)
    requires k in AdvanceThread(s, t, ok).held
    ensures k in AdvanceThread(s, t, ok).native || Releasing(AdvanceThread(s, t, ok), k)
  {
    hide Leaf, Ensured, RemoveIfEmpty;
    var s' := AdvanceThread(s, t, ok);
    if k in s.native {
      if s.threads[t] == ReleaseDrop(k) {
        assert s'.threads[t] == ReleaseSave(k, true);
      }
    } else {
      var t' :| t' in s.threads && s.threads[t'] == ReleaseSave(k, true);
      if t' != t {
        assert s'.threads[t'] == ReleaseSave(k, true);
      }
    }
  }

  lemma InvStep(s: State, e: Step)
    requires Inv(s) && Enabled(s, e)
    ensures Inv(Apply(s, e))
  {
    KeysStep(s, e);
    ExclusiveStep(s, e);
    FactsStep(s, e);
    HeldStep(s, e);
  }

  // ----- what a step may do to a group -----

  /** `e` renames the directory `d` away as a legacy directory. */
  predicate RenamesAway(e: Step, d: Dir) { e.MigrateLegacy? && Legacy(e.key) == d }

  /** No step but a legacy rename removes the group of a native key, or of one whose Prepare
      succeeded and whose Release has not committed. */
  lemma ReservationKept(s: State, e: Step, k: Key)
    requires Inv(s) && Enabled(s, e) && ValidKey(k) && Leaf(k) in s.groups
    requires k in s.native || k in s.held
    requires !RenamesAway(e, Leaf(k))
    ensures Leaf(k) in Apply(s, e).groups
  {
    hide Leaf, Legacy, ValidKey;
    if e.Advance? {
      assert PhaseFacts(s.threads[e.tid], s.native, s.held) && ValidKey(s.threads[e.tid].key);
      hide Inv;
      AdvanceKeepsGroup(s, e.tid, e.ok, k);
    } else {
      hide Inv;
      KeepsGroup(s, e, Leaf(k));
      hide Apply;
    }
  }

  /** A thread removes the group of its own key only, and that is neither native nor held then. */
  lemma AdvanceKeepsGroup(s: State, t: Tid, ok: bool, k: Key)
    requires t in s.threads && PhaseFacts(s.threads[t], s.native, s.held) && ValidKey(s.threads[t].key)
    requires ValidKey(k) && Leaf(k) in s.groups && (k in s.native || k in s.held)
    ensures Leaf(k) in AdvanceThread(s, t, ok).groups
  {
    hide Leaf, ValidKey;
    var p := s.threads[t];
    if p.ReleaseRemove? || p.ReclaimRemove? {
      LeafDistinct(p.key, k);
    }
  }

  /** No step but a legacy rename removes a populated group, and a legacy rename keeps its
      processes together in the canonical group. */
  lemma PopulatedKept(s: State, e: Step, d: Dir)
    requires Enabled(s, e) && d in s.groups && s.groups[d] != {}
    ensures !RenamesAway(e, d) ==> d in Apply(s, e).groups && (e.Churn? || s.groups[d] <= Apply(s, e).groups[d])
    ensures RenamesAway(e, d) ==> Leaf(e.key) in Apply(s, e).groups && s.groups[d] <= Apply(s, e).groups[Leaf(e.key)]
  {
    hide Leaf, Legacy, ValidKey;
  }

  lemma StandStep(s: State, e: Step)
    requires Inv(s) && LeavesStand(s) && Enabled(s, e)
    ensures LeavesStand(Apply(s, e))
  {
    hide *;
    var s' := Apply(s, e);
    forall k | k in s'.held && Unambiguous(k) ensures Leaf(k) in s'.groups {
      StandKey(s, e, k);
    }
    forall t | t in s'.threads && Preparing(s'.threads[t]) && Unambiguous(s'.threads[t].key)
      ensures Leaf(s'.threads[t].key) in s'.groups
    {
      StandThread(s, e, t);
    }
    StandAll(s');
  }

  lemma StandAll(s: State)
    requires forall k | k in s.held && Unambiguous(k) :: Leaf(k) in s.groups
    requires forall t | t in s.threads && Preparing(s.threads[t]) &&
              Unambiguous(s.threads[t].key) :: Leaf(s.threads[t].key) in s.groups
    ensures LeavesStand(s)
  {
  }

  lemma StandKey(s: State, e: Step, k: Key)
    requires Inv(s) && LeavesStand(s) && Enabled(s, e) && k in Apply(s, e).held && Unambiguous(k)
    ensures Leaf(k) in Apply(s, e).groups
  {
    hide Leaf, Legacy, ValidKey, Unambiguous;
    if e.MigrateLegacy? { UnambiguousMeans(k, e.key); }
    if k in s.held {
      assert ValidKey(k) && Leaf(k) in s.groups;
      hide Inv, LeavesStand;
      ReservationKept(s, e, k);
    } else {
      assert s.threads[e.tid] == PrepareSave(k);
      hide Inv;
    }
  }

  lemma KeepsGroup(s: State, e: Step, d: Dir)
    requires Enabled(s, e) && !e.Advance? && d in s.groups && !RenamesAway(e, d)
    ensures d in Apply(s, e).groups
  {
    hide Leaf, Legacy, ValidKey;
  }

  /** Taking the lock touches no group. */
  lemma WaitingKeepsGroups(s: State, t: Tid, ok: bool)
    requires t in s.threads && Waiting(s.threads[t])
    ensures AdvanceThread(s, t, ok).groups == s.groups
  {
    hide Leaf, Ensured, RemoveIfEmpty;
  }

  /** A thread that is preparing now created its group in this step, or was preparing before. */
  lemma PreparingOrigin(s: State, t: Tid, ok: bool)
    requires t in s.threads
    requires var s' := AdvanceThread(s, t, ok); t in s'.threads && Preparing(s'.threads[t])
    ensures var s' := AdvanceThread(s, t, ok); var k := s'.threads[t].key;
            Leaf(k) in s'.groups || (s'.groups == s.groups && Preparing(s.threads[t]) && s.threads[t].key == k)
  {
    hide Leaf, RemoveIfEmpty;
  }

  lemma StandThread(s: State, e: Step, t: Tid)
    requires Inv(s) && LeavesStand(s) && Enabled(s, e) && t in Apply(s, e).threads
    requires Preparing(Apply(s, e).threads[t]) && Unambiguous(Apply(s, e).threads[t].key)
    ensures Leaf(Apply(s, e).threads[t].key) in Apply(s, e).groups
  {
    hide Leaf, Legacy, ValidKey, Unambiguous;
    if e.Advance? {
      if e.tid == t {
        PreparingOrigin(s, t, e.ok);
      } else {
        OtherThreads(s, e.tid, e.ok, t);
        OnlyOne(s, t, e.tid);
        WaitingKeepsGroups(s, e.tid, e.ok);
      }
      hide AdvanceThread, Inv;
    } else {
      hide Inv;
      assert t in s.threads && s.threads[t] == Apply(s, e).threads[t];
      if e.MigrateLegacy? { UnambiguousMeans(s.threads[t].key, e.key); }
      KeepsGroup(s, e, Leaf(s.threads[t].key));
      hide Apply;
    }
  }

  lemma OtherThreads(s: State, t: Tid, ok: bool, t': Tid)
    requires t in s.threads && t' != t && t' in AdvanceThread(s, t, ok).threads
    ensures t' in s.threads && AdvanceThread(s, t, ok).threads[t'] == s.threads[t']
  {
    hide Leaf, Ensured, RemoveIfEmpty;
  }

  // ----- whole runs -----

  ghost predicate Runs(s: State, steps: seq<Step>)
    decreases |steps|
  {
    steps == [] || (Enabled(s, steps[0]) && Runs(Apply(s, steps[0]), steps[1..]))
  }

  function Run(s: State, steps: seq<Step>): State
    requires Runs(s, steps)
    decreases |steps|
  {
    if steps == [] then s else Run(Apply(s, steps[0]), steps[1..])
  }

  /** Safety over every interleaving: after any run of a fresh daemon, a key whose Prepare succeeded
      and was not released since still has its group, unless that group is another unit's legacy name. */
  lemma {:induction false} HeldGroupsStand(s: State, steps: seq<Step>)
    requires Inv(s) && LeavesStand(s) && Runs(s, steps)
    ensures Inv(Run(s, steps)) && LeavesStand(Run(s, steps))
    decreases |steps|
  {
    if steps != [] {
      InvStep(s, steps[0]);
      StandStep(s, steps[0]);
      HeldGroupsStand(Apply(s, steps[0]), steps[1..]);
    }
  }

  lemma FreshDaemon(s: State, steps: seq<Step>, k: Key)
    requires Initial(s) && Runs(s, steps) && k in Run(s, steps).held && Unambiguous(k)
    ensures Leaf(k) in Run(s, steps).groups
  {
    HeldGroupsStand(s, steps);
  }

  /** The states of a Prepare of `k` that runs alone and succeeds. */
  function Alone(k: Key, n: nat): State
  {
    var groups: map<Dir, set<Pid>> := if n < 3 then map[] else map[Leaf(k) := {}];
    var native := if n < 4 then {} else {k};
    if n == 0 then Init
    else if n == 1 then State(groups, native, {}, map[0 := PrepareWait(k)], {})
    else if n == 2 then State(groups, native, {0}, map[0 := PrepareEnsure(k)], {})
    else if n == 3 then State(groups, native, {0}, map[0 := PrepareDeclare(k)], {})
    else if n == 4 then State(groups, native, {0}, map[0 := PrepareSave(k)], {})
    else State(groups, native, {}, map[], {k})
  }

  function AloneStep(k: Key, n: nat): Step { if n == 0 then Start(0, PrepareWait(k)) else Advance(0, true) }

  lemma AloneNext(k: Key, n: nat)
    requires ValidKey(k) && n < 5
    ensures Enabled(Alone(k, n), AloneStep(k, n)) && Apply(Alone(k, n), AloneStep(k, n)) == Alone(k, n + 1)
  {
    hide Leaf, ValidKey;
  }

  /** From any of these states, the rest of the Prepare and then the legacy rename. */
  lemma {:induction false} AloneThenRename(k: Key, other: Key, n: nat) returns (steps: seq<Step>)
    requires ValidKey(k) && ValidKey(other) && Legacy(other) == Leaf(k) && Leaf(other) != Leaf(k) && n <= 5
    ensures Runs(Alone(k, n), steps)
    ensures var s := Run(Alone(k, n), steps); k in s.held && k in s.native && Leaf(k) !in s.groups
    decreases 5 - n
  {
    hide Leaf, Legacy, ValidKey;
    if n == 5 {
      steps := [MigrateLegacy(other)];
      RunLast(Alone(k, 5), MigrateLegacy(other));
    } else {
      hide *;
      var rest := AloneThenRename(k, other, n + 1);
      AloneNext(k, n);
      RunCons(Alone(k, n), AloneStep(k, n), rest);
      steps := [AloneStep(k, n)] + rest;
    }
  }

  /** The condition is exact: for an ambiguous key there is a run that prepares it successfully and
      then renames its group away, with the key still native and held. */
  lemma AmbiguousGroupLost(k: Key, other: Key)
    requires ValidKey(k) && ValidKey(other) && Legacy(other) == Leaf(k) && k != other
    ensures exists steps ::
              Runs(Init, steps) && var s := Run(Init, steps); k in s.held && k in s.native && Leaf(k) !in s.groups
  {
    LeafDistinct(k, other);
    assert Alone(k, 0) == Init;
    hide *;
    var steps := AloneThenRename(k, other, 0);
  }

  // ----- what one call does when nothing interferes -----

  /** Nothing holds the lock, and the thread is free. */
  predicate Quiet(s: State, t: Tid) { t !in s.threads && s.lock == {} }

  /** A run that starts thread `t` at `p` and comes from `s` to `s'`. */
  ghost predicate Leads(s: State, t: Tid, p: Phase, s': State)
  {
    exists steps :: Runs(s, steps) && Run(s, steps) == s' && Start(t, p) in steps
  }

  lemma LeadsStart(s: State, t: Tid, p: Phase)
    requires Enabled(s, Start(t, p))
    ensures Leads(s, t, p, Apply(s, Start(t, p)))
  {
    RunLast(s, Start(t, p));
    assert [Start(t, p)][0] == Start(t, p);
    hide Runs, Run, Apply, Enabled;
  }

  lemma LeadsOn(s: State, t: Tid, p: Phase, s1: State, s2: State)
    requires Leads(s, t, p, s1) && t in s1.threads && (Waiting(s1.threads[t]) ==> s1.lock == {})
    requires s2 == AdvanceThread(s1, t, true)
    ensures Leads(s, t, p, s2)
  {
    var steps :| Runs(s, steps) && Run(s, steps) == s1 && Start(t, p) in steps;
    RunSnoc(s, steps, Advance(t, true));
    hide Runs, Run, AdvanceThread;
    assert Start(t, p) in steps + [Advance(t, true)];
  }

  lemma {:induction false} RunSnoc(s: State, steps: seq<Step>, e: Step)
    requires Runs(s, steps) && Enabled(Run(s, steps), e)
    ensures Runs(s, steps + [e]) && Run(s, steps + [e]) == Apply(Run(s, steps), e)
    decreases |steps|
  {
    hide Apply, Enabled;
    if steps == [] {
      RunLast(s, e);
      assert steps + [e] == [e];
    } else {
      assert (steps + [e])[0] == steps[0] && (steps + [e])[1..] == steps[1..] + [e];
      RunSnoc(Apply(s, steps[0]), steps[1..], e);
    }
  }

  /** Thread `t` inside its critical section, the rest as in `s`. */
  function Inside(s: State, t: Tid, p: Phase): State { s.(lock := {t}, threads := s.threads[t := p]) }

  lemma Enters(s: State, t: Tid, p: Phase)
    requires Quiet(s, t) && Waiting(p) && ValidKey(p.key)
    ensures Enabled(s, Start(t, p))
    ensures var s1 := Apply(s, Start(t, p)); t in s1.threads && s1.threads[t] == p && s1.lock == {}
    ensures p.PrepareWait? ==> AdvanceThread(Apply(s, Start(t, p)), t, true) == Inside(s, t, PrepareEnsure(p.key))
    ensures p.ReleaseWait? ==> AdvanceThread(Apply(s, Start(t, p)), t, true) == Inside(s, t, ReleaseCheck(p.key))
    ensures p.ReclaimWait? ==> AdvanceThread(Apply(s, Start(t, p)), t, true) == Inside(s, t, ReclaimCheck(p.key))
  {
    hide Leaf, ValidKey;
  }

  lemma PrepareSections(s: State, t: Tid, k: Key)
    requires Quiet(s, t)
    ensures AdvanceThread(Inside(s, t, PrepareEnsure(k)), t, true) ==
              Inside(s.(groups := if Leaf(k) in s.groups then s.groups else s.groups[Leaf(k) := {}]), t,
                  PrepareDeclare(k))
    ensures AdvanceThread(Inside(s, t, PrepareDeclare(k)), t, true) ==
              Inside(s.(native := s.native + {k}), t, PrepareSave(k))
    ensures AdvanceThread(Inside(s, t, PrepareSave(k)), t, true) == s.(held := s.held + {k})
  {
    hide Leaf;
  }

  lemma ReleaseSections(s: State, t: Tid, k: Key)
    requires Quiet(s, t)
    ensures AdvanceThread(Inside(s, t, ReleaseCheck(k)), t, true) ==
              if Leaf(k) in s.groups && s.groups[Leaf(k)] != {} then s else Inside(s, t, ReleaseDrop(k))
    ensures AdvanceThread(Inside(s, t, ReleaseDrop(k)), t, true) ==
              Inside(s.(native := s.native - {k}), t, ReleaseSave(k, k in s.native))
    ensures forall b :: AdvanceThread(Inside(s, t, ReleaseSave(k, b)), t, true) ==
              Inside(s.(held := s.held - {k}), t, ReleaseRemove(k))
  {
    hide Leaf;
  }

  lemma RemoveSections(s: State, t: Tid, k: Key)
    requires Quiet(s, t)
    ensures AdvanceThread(Inside(s, t, ReleaseRemove(k)), t, true) ==
              s.(groups := if Leaf(k) in s.groups && s.groups[Leaf(k)] == {} then s.groups - {Leaf(k)} else s.groups)
    ensures AdvanceThread(Inside(s, t, ReclaimRemove(k)), t, true) ==
              s.(groups := if Leaf(k) in s.groups && s.groups[Leaf(k)] == {} then s.groups - {Leaf(k)} else s.groups)
    ensures AdvanceThread(Inside(s, t, ReclaimCheck(k)), t, true) == if k in s.native then s
              else Inside(s, t, ReclaimRemove(k))
  {
    hide Leaf;
  }

  /** A Prepare alone: the group exists, the key is native and held, and nothing else changes. */
  lemma PrepareAlone(s: State, t: Tid, k: Key)
    requires Quiet(s, t) && ValidKey(k)
    ensures Leads(s, t, PrepareWait(k),
                  s.(groups := if Leaf(k) in s.groups then s.groups else s.groups[Leaf(k) := {}],
                     native := s.native + {k}, held := s.held + {k}))
  {
    hide Leaf, ValidKey, AdvanceThread, Apply, Enabled, Leads;
    var p := PrepareWait(k);
    var sb := s.(groups := if Leaf(k) in s.groups then s.groups else s.groups[Leaf(k) := {}]);
    var sc := sb.(native := s.native + {k});
    Enters(s, t, p);
    PrepareSections(s, t, k);
    PrepareSections(sb, t, k);
    PrepareSections(sc, t, k);
    LeadsStart(s, t, p);
    LeadsOn(s, t, p, Apply(s, Start(t, p)), Inside(s, t, PrepareEnsure(k)));
    LeadsOn(s, t, p, Inside(s, t, PrepareEnsure(k)), Inside(sb, t, PrepareDeclare(k)));
    LeadsOn(s, t, p, Inside(sb, t, PrepareDeclare(k)), Inside(sc, t, PrepareSave(k)));
    LeadsOn(s, t, p, Inside(sc, t, PrepareSave(k)), sc.(held := s.held + {k}));
  }

  /** A Release of an empty or missing group alone: key and group are gone, and nothing else changes. */
  lemma ReleaseAlone(s: State, t: Tid, k: Key)
    requires Quiet(s, t) && ValidKey(k) && (Leaf(k) in s.groups ==> s.groups[Leaf(k)] == {})
    ensures Leads(s, t, ReleaseWait(k),
              s.(groups := s.groups - {Leaf(k)}, native := s.native - {k}, held := s.held - {k}))
  {
    hide Leaf, ValidKey, AdvanceThread, Apply, Enabled, Leads;
    var p := ReleaseWait(k);
    var sb := s.(native := s.native - {k});
    var sc := sb.(held := s.held - {k});
    Enters(s, t, p);
    ReleaseSections(s, t, k);
    ReleaseSections(sb, t, k);
    RemoveSections(sc, t, k);
    LeadsStart(s, t, p);
    LeadsOn(s, t, p, Apply(s, Start(t, p)), Inside(s, t, ReleaseCheck(k)));
    LeadsOn(s, t, p, Inside(s, t, ReleaseCheck(k)), Inside(s, t, ReleaseDrop(k)));
    LeadsOn(s, t, p, Inside(s, t, ReleaseDrop(k)), Inside(sb, t, ReleaseSave(k, k in s.native)));
    LeadsOn(s, t, p, Inside(sb, t, ReleaseSave(k, k in s.native)), Inside(sc, t, ReleaseRemove(k)));
    var end := AdvanceThread(Inside(sc, t, ReleaseRemove(k)), t, true);
    assert end.groups == s.groups - {Leaf(k)};
    LeadsOn(s, t, p, Inside(sc, t, ReleaseRemove(k)), end);
  }

  /** A Release of a populated group alone is refused and changes nothing. */
  lemma ReleaseRefused(s: State, t: Tid, k: Key)
    requires Quiet(s, t) && ValidKey(k) && Leaf(k) in s.groups && s.groups[Leaf(k)] != {}
    ensures Leads(s, t, ReleaseWait(k), s)
  {
    hide Leaf, ValidKey, AdvanceThread, Apply, Enabled, Leads;
    var p := ReleaseWait(k);
    Enters(s, t, p);
    ReleaseSections(s, t, k);
    LeadsStart(s, t, p);
    LeadsOn(s, t, p, Apply(s, Start(t, p)), Inside(s, t, ReleaseCheck(k)));
    LeadsOn(s, t, p, Inside(s, t, ReleaseCheck(k)), s);
  }

  /** A reclaim alone: the group goes exactly if it is empty and its key is not native. */
  lemma ReclaimAlone(s: State, t: Tid, k: Key)
    requires Quiet(s, t) && ValidKey(k)
    ensures Leads(s, t, ReclaimWait(k),
                  s.(groups := if k !in s.native && Leaf(k) in s.groups && s.groups[Leaf(k)] == {}
                               then s.groups - {Leaf(k)} else s.groups))
  {
    hide Leaf, ValidKey, AdvanceThread, Apply, Enabled, Leads;
    var p := ReclaimWait(k);
    Enters(s, t, p);
    RemoveSections(s, t, k);
    LeadsStart(s, t, p);
    LeadsOn(s, t, p, Apply(s, Start(t, p)), Inside(s, t, ReclaimCheck(k)));
    if k in s.native {
      LeadsOn(s, t, p, Inside(s, t, ReclaimCheck(k)), s);
    } else {
      LeadsOn(s, t, p, Inside(s, t, ReclaimCheck(k)), Inside(s, t, ReclaimRemove(k)));
      LeadsOn(s, t, p, Inside(s, t, ReclaimRemove(k)), AdvanceThread(Inside(s, t, ReclaimRemove(k)), t, true));
    }
  }

  /** The guarantee for one key, over every run of every freshly started daemon. */
  ghost predicate AlwaysStands(k: Key)
  {
    forall s, steps | Initial(s) && Runs(s, steps) && k in Run(s, steps).held :: Leaf(k) in Run(s, steps).groups
  }

  /** A prepared group survives every run until it is released if and only if the reader of legacy
      directories refuses its name. */
  lemma ReservationExact(k: Key)
    requires ValidKey(k)
    ensures AlwaysStands(k) <==> DecodeLegacy(Leaf(k)).None?
  {
    if DecodeLegacy(Leaf(k)).None? {
      forall s, steps | Initial(s) && Runs(s, steps) && k in Run(s, steps).held
        ensures Leaf(k) in Run(s, steps).groups {
        FreshDaemon(s, steps, k);
      }
    } else {
      var other := DecodeLegacy(Leaf(k)).value;
      DecodeLegacyExact(Leaf(k), other);
      NotItsOwnLegacy(k);
      AmbiguousGroupLost(k, other);
      InitIsInitial();
    }
    hide *;
  }

  lemma InitIsInitial()
    ensures Initial(Init)
  {
  }

  lemma NotItsOwnLegacy(k: Key)
    requires ValidKey(k)
    ensures Legacy(k) != Leaf(k)
  {
    EncodingGrows(k.unit);
    assert |Stem(k)| < |k.unit|;
    hide Base64, ValidUnit, Stem;
  }

  lemma RunLast(s: State, e: Step)
    requires Enabled(s, e)
    ensures Runs(s, [e]) && Run(s, [e]) == Apply(s, e)
  {
    assert Runs(Apply(s, e), []);
  }

  lemma RunCons(s: State, e: Step, rest: seq<Step>)
    requires Enabled(s, e) && Runs(Apply(s, e), rest)
    ensures Runs(s, [e] + rest) && Run(s, [e] + rest) == Run(Apply(s, e), rest)
  {
    assert ([e] + rest)[1..] == rest;
  }

  /** A unit whose stem is the encoding of an older unit's name is ambiguous. */
  lemma EncodedStemIsAmbiguous(stem: string, was: string)
    requires PlainStem(stem) && PlainStem(was) && Base64(was + Suffix) == stem
    ensures var k := Key(false, 0, stem + Suffix);
            ValidKey(k) && DecodeLegacy(Leaf(k)) == Some(Key(false, 0, was + Suffix)) && !AlwaysStands(k)
  {
    PlainIsValid(stem);
    PlainIsValid(was);
    hide Base64, ValidUnit, DecodeLegacy, AlwaysStands, PlainStem, Text.TrimSuffix;
    var k, other := Key(false, 0, stem + Suffix), Key(false, 0, was + Suffix);
    DecodeLegacyExact(Leaf(k), other);
    ReservationExact(k);
  }

  /** Such units exist: YS5zZXJ2aWNl.service lives where a.service used to. */
  lemma AmbiguousExample()
    ensures var k := Key(false, 0, "YS5zZXJ2aWNl" + Suffix);
            ValidKey(k) && DecodeLegacy(Leaf(k)) == Some(Key(false, 0, "a" + Suffix)) && !AlwaysStands(k)
  {
    EncodedExample();
    assert "a" + Suffix == "a.service" && PlainStem("a") && PlainStem("YS5zZXJ2aWNl");
    hide *;
    EncodedStemIsAmbiguous("YS5zZXJ2aWNl", "a");
  }

  lemma EncodedExample()
    ensures Base64("a.service") == "YS5zZXJ2aWNl"
  {
    Base64Step("ice");
    Base64Step("ervice");
    Base64Step("a.service");
    QuadExamples();
    hide *;
    assert "a.service"[3..] == "ervice" && "ervice"[3..] == "ice" && "ice"[3..] == "";
    assert "YS5z" + ("ZXJ2" + ("aWNl" + "")) == "YS5zZXJ2aWNl";
  }

  lemma QuadExamples()
    ensures Quad(Code('a'), Code('.'), Code('s')) == "YS5z"
    ensures Quad(Code('e'), Code('r'), Code('v')) == "ZXJ2"
    ensures Quad(Code('i'), Code('c'), Code('e')) == "aWNl"
    ensures Base64("") == ""
  {
    QuadOne();
    QuadTwo();
    QuadThree();
    hide Quad;
  }

  lemma QuadOne()
    ensures Quad(Code('a'), Code('.'), Code('s')) == "YS5z"
  {
    assert Code('a') == 97 && Code('.') == 46 && Code('s') == 115;
    assert Sextet(24) == 'Y' && Sextet(18) == 'S' && Sextet(57) == '5' && Sextet(115) == 'z';
    hide Sextet, Code;
  }

  lemma QuadTwo()
    ensures Quad(Code('e'), Code('r'), Code('v')) == "ZXJ2"
  {
    assert Code('e') == 101 && Code('r') == 114 && Code('v') == 118;
    assert Sextet(25) == 'Z' && Sextet(23) == 'X' && Sextet(9) == 'J' && Sextet(118) == '2';
    hide Sextet, Code;
  }

  lemma QuadThree()
    ensures Quad(Code('i'), Code('c'), Code('e')) == "aWNl"
  {
    assert Code('i') == 105 && Code('c') == 99 && Code('e') == 101;
    assert Sextet(26) == 'a' && Sextet(22) == 'W' && Sextet(13) == 'N' && Sextet(101) == 'l';
    hide Sextet, Code;
  }

  lemma Base64Step(s: string)
    requires |s| >= 3
    ensures Base64(s) == Quad(Code(s[0]), Code(s[1]), Code(s[2])) + Base64(s[3..])
  {
  }
}
