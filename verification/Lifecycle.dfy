/** sysvisiond's lifecycle normalizer: repeated unit snapshots become a per-unit state machine
    whose generation counter is an exact version stamp (cmd/sysvisiond/main.go). */
module Lifecycle {
  import opened Sorting
  import Text

  datatype Phase = Unset | Ready | Stopped

  /** lifecycleInstance */
  datatype Instance = Instance(phase: Phase, mainPID: int, startTime: nat, generation: nat)

  /** An upstream snapshot: `pid` is its parsed MainPID, and the three flags are the case-folded
      comparisons of State with "STARTED", ManagedBy with "sys-notifyd" and Phase with "ready". */
  datatype Snapshot = Snapshot(name: string, pid: int, started: bool, notifyd: bool, phaseReady: bool)

  /** The snapshot as handed on, with its stamp. */
  datatype Stamped = Stamped(snapshot: Snapshot, uid: nat, epoch: string, startTime: nat, generation: nat, phase: Phase)

  datatype Kind = UnitReady | MainPIDChanged | UnitStopped

  datatype Event = Event(kind: Kind, unit: string, uid: nat, epoch: string, generation: nat, pid: int, startTime: nat,
                         phase: Phase)

  type Units = map<string, Instance>

  /** The identity of the normalizer itself: its uid and epoch. */
  datatype Plane = Plane(uid: nat, epoch: string)

  /** lifecycleReady */
  predicate LifecycleReady(s: Snapshot, startTime: nat)
  {
    s.pid > 0 && startTime != 0 && s.started && (s.notifyd ==> s.phaseReady)
  }

  /** The switch on the previous instance: the next instance and the event kind, if any. */
  function Next(previous: Instance, exists_: bool, s: Snapshot, startTime: nat): (Instance, seq<Kind>)
  {
    if LifecycleReady(s, startTime) then
      if !exists_ || !previous.phase.Ready? then
        (Instance(Ready, s.pid, startTime, previous.generation + 1), [UnitReady])
      else if previous.mainPID != s.pid || previous.startTime != startTime then
        (Instance(Ready, s.pid, startTime, previous.generation + 1), [MainPIDChanged])
      else
        (Instance(Ready, s.pid, startTime, previous.generation), [])
    else if exists_ && previous.phase.Ready? then
      (Instance(Stopped, 0, 0, previous.generation + 1), [UnitStopped])
    else
      (Instance(Stopped, 0, 0, previous.generation), [])
  }

  const Absent := Instance(Unset, 0, 0, 0)

  function Get(units: Units, u: string): Instance { if u in units then units[u] else Absent }

  /** One indivisible piece of an update: a snapshot, or the sweep over the units not seen. */
  datatype Op = Observe(s: Snapshot, startTime: nat) | Sweep(seen: set<string>)

  function Name(s: Snapshot): string { Text.TrimSpace(s.name) }

  predicate Vanished(units: Units, seen: set<string>, u: string)
  {
    u in units && u !in seen && units[u].phase.Ready?
  }

  function ApplyOp(units: Units, op: Op): Units
  {
    match op
    case Observe(s, t) =>
      if Name(s) == "" then units
      else units[Name(s) := Next(Get(units, Name(s)), Name(s) in units, s, t).0]
    case Sweep(seen) =>
      map u | u in units :: if Vanished(units, seen, u) then Instance(Stopped, 0, 0, units[u].generation + 1)
          else units[u]
  }

  function Stamp(plane: Plane, s: Snapshot, i: Instance): Stamped
  {
    Stamped(s, plane.uid, plane.epoch, i.startTime, i.generation, i.phase)
  }

  /** lifecycleEvent of a stamped snapshot. */
  function SnapshotEvent(st: Stamped, kind: Kind): Event
  {
    Event(kind, st.snapshot.name, st.uid, st.epoch, st.generation, st.snapshot.pid, st.startTime, st.phase)
  }

  /** lifecycleEvent of a vanished unit: a snapshot with only name, uid, epoch and generation. */
  function VanishEvent(plane: Plane, u: string, generation: nat): Event
  {
    Event(UnitStopped, u, plane.uid, plane.epoch, generation, 0, 0, Unset)
  }

  /** The events of one operation that concern unit `u`: at most one. */
  function OpEvents(plane: Plane, units: Units, op: Op, u: string): seq<Event>
  {
    match op
    case Observe(s, t) =>
      if Name(s) == "" || Name(s) != u then []
      else
        var (next, kinds) := Next(Get(units, u), u in units, s, t);
        if kinds == [] then [] else [SnapshotEvent(Stamp(plane, s, next), kinds[0])]
    case Sweep(seen) =>
      if Vanished(units, seen, u) then [VanishEvent(plane, u, units[u].generation + 1)] else []
  }

  function ApplyAll(units: Units, ops: seq<Op>): Units
  {
    if ops == [] then units else ApplyOp(ApplyAll(units, ops[..|ops| - 1]), ops[|ops| - 1])
  }

  function AllEvents(plane: Plane, units: Units, ops: seq<Op>, u: string): seq<Event>
  {
    if ops == [] then []
    else
      var before := ops[..|ops| - 1];
      AllEvents(plane, units, before, u) + OpEvents(plane, ApplyAll(units, before), ops[|ops| - 1], u)
  }

  datatype Update = Update(input: seq<Snapshot>, startTimes: map<int, nat>)

  function StartTime(times: map<int, nat>, pid: int): nat { if pid in times then times[pid] else 0 }

  function InputOps(up: Update): seq<Op>
  {
    seq(|up.input|, i requires 0 <= i < |up.input| => Observe(up.input[i], StartTime(up.startTimes, up.input[i].pid)))
  }

  function Seen(input: seq<Snapshot>): set<string>
  {
    set s | s in input && Name(s) != "" :: Name(s)
  }

  function UpdateOps(up: Update): seq<Op> { InputOps(up) + [Sweep(Seen(up.input))] }

  /** A whole run, flattened to its operations. */
  function RunOps(run: seq<Update>): seq<Op>
  {
    if run == [] then [] else RunOps(run[..|run| - 1]) + UpdateOps(run[|run| - 1])
  }

  // ----- one operation -----

  /** The generation rises by exactly the number of events, and a unit whose generation
      stands still stands still altogether. */
  lemma OpLaw(plane: Plane, units: Units, op: Op, u: string)
    ensures u in units ==> u in ApplyOp(units, op)
    ensures Get(ApplyOp(units, op), u).generation == Get(units, u).generation + |OpEvents(plane, units, op, u)|
    ensures |OpEvents(plane, units, op, u)| <= 1
    ensures u in units && Settled(units[u]) && OpEvents(plane, units, op, u) == [] ==> ApplyOp(units, op)[u] == units[u]
    ensures u in ApplyOp(units, op) && (u in units ==> Settled(units[u])) ==> Settled(ApplyOp(units, op)[u])
    ensures OpEvents(plane, units, op, u) != [] ==>
              OpEvents(plane, units, op, u)[0].generation == Get(ApplyOp(units, op), u).generation
  {
  }

  /** The shape of a recorded instance: ready, or stopped with no process. */
  predicate Settled(i: Instance)
  {
    i.phase.Ready? || (i.phase.Stopped? && i.mainPID == 0 && i.startTime == 0)
  }

  ghost predicate AllSettled(units: Units) { forall u | u in units :: Settled(units[u]) }

  // ----- runs -----

  lemma {:induction false} ApplyConcat(units: Units, a: seq<Op>, b: seq<Op>)
    ensures ApplyAll(units, a + b) == ApplyAll(ApplyAll(units, a), b)
  {
    if b == [] {
      assert a + b == a;
    } else {
      var n := |b| - 1;
      assert (a + b)[..|a + b| - 1] == a + b[..n];
      ApplyConcat(units, a, b[..n]);
    }
  }

  lemma EventsSnoc(plane: Plane, units: Units, ops: seq<Op>, op: Op, u: string)
    ensures AllEvents(plane, units, ops + [op], u) ==
              AllEvents(plane, units, ops, u) + OpEvents(plane, ApplyAll(units, ops), op, u)
  {
    hide OpEvents, ApplyAll;
    assert (ops + [op])[..|ops|] == ops;
  }

  lemma {:induction false} EventsConcat(plane: Plane, units: Units, a: seq<Op>, b: seq<Op>, u: string)
    ensures AllEvents(plane, units, a + b, u) ==
              AllEvents(plane, units, a, u) + AllEvents(plane, ApplyAll(units, a), b, u)
  {
    if b == [] {
      assert a + b == a;
    } else {
      hide *;
      var c, op := b[..|b| - 1], b[|b| - 1];
      assert b == c + [op] && a + b == (a + c) + [op];
      EventsConcat(plane, units, a, c, u);
      ApplyConcat(units, a, c);
      EventsSnoc(plane, units, a + c, op, u);
      EventsSnoc(plane, ApplyAll(units, a), c, op, u);
      Associative(AllEvents(plane, units, a, u), AllEvents(plane, ApplyAll(units, a), c, u),
                  OpEvents(plane, ApplyAll(units, a + c), op, u));
    }
  }

  /** Over any operations a unit is never forgotten, its generation rises by exactly one per
      emitted event, and with no event its record does not change. */
  lemma {:induction false} RunLaw(plane: Plane, units: Units, ops: seq<Op>, u: string)
    requires AllSettled(units)
    ensures AllSettled(ApplyAll(units, ops))
    ensures u in units ==> u in ApplyAll(units, ops)
    ensures Get(ApplyAll(units, ops), u).generation == Get(units, u).generation + |AllEvents(plane, units, ops, u)|
    ensures u in units && AllEvents(plane, units, ops, u) == [] ==> ApplyAll(units, ops)[u] == units[u]
  {
    if ops != [] {
      var n := |ops| - 1;
      RunLaw(plane, units, ops[..n], u);
      var mid := ApplyAll(units, ops[..n]);
      OpLaw(plane, mid, ops[n], u);
      forall v | v in ApplyOp(mid, ops[n]) ensures Settled(ApplyOp(mid, ops[n])[v]) {
        OpLaw(plane, mid, ops[n], v);
      }
    }
  }

  /** The version stamp. In one run from an empty normalizer, take the record of a unit at any two
      moments i <= j, between updates or in the middle of one. The generation never fell, and if it
      is the same then lifecycle, main PID and start time are the same too. */
  lemma VersionStamp(ops: seq<Op>, i: nat, j: nat, u: string)
    requires i <= j <= |ops| && u in ApplyAll(map[], ops[..i])
    ensures u in ApplyAll(map[], ops[..j])
    ensures ApplyAll(map[], ops[..i])[u].generation <= ApplyAll(map[], ops[..j])[u].generation
    ensures ApplyAll(map[], ops[..i])[u].generation == ApplyAll(map[], ops[..j])[u].generation ==>
              ApplyAll(map[], ops[..i])[u] == ApplyAll(map[], ops[..j])[u]
  {
    var plane := Plane(0, "");
    assert ops[..j] == ops[..i] + ops[i..j];
    ApplyConcat(map[], ops[..i], ops[i..j]);
    RunLaw(plane, map[], ops[..i], u);
    RunLaw(plane, ApplyAll(map[], ops[..i]), ops[i..j], u);
  }

  /** The lifecycle grammar: Ready, MainPIDChanged*, Stopped, repeated; `up` says whether a
      Ready is still open. */
  predicate Grammar(kinds: seq<Event>, up: bool)
  {
    kinds == [] ||
    match kinds[0].kind
    case UnitReady => !up && Grammar(kinds[1..], true)
    case MainPIDChanged => up && Grammar(kinds[1..], true)
    case UnitStopped => up && Grammar(kinds[1..], false)
  }

  predicate StillUp(events: seq<Event>, up: bool)
  {
    if events == [] then up else !events[|events| - 1].kind.UnitStopped?
  }

  lemma {:induction false} GrammarAppend(events: seq<Event>, e: Event, up: bool)
    requires Grammar(events, up)
    requires if e.kind.UnitReady? then !StillUp(events, up) else StillUp(events, up)
    ensures Grammar(events + [e], up)
  {
    if events != [] {
      var tail := events[1..];
      assert (events + [e])[1..] == tail + [e];
      var up' := !events[0].kind.UnitStopped?;
      assert StillUp(tail, up') == StillUp(events, up);
      GrammarAppend(tail, e, up');
    }
  }

  predicate IsUp(units: Units, u: string) { u in units && units[u].phase.Ready? }

  lemma OpGrammar(plane: Plane, units: Units, op: Op, u: string)
    ensures var es := OpEvents(plane, units, op, u);
            if es == [] then IsUp(ApplyOp(units, op), u) == IsUp(units, u)
            else IsUp(ApplyOp(units, op), u) == !es[0].kind.UnitStopped? &&
                 (if es[0].kind.UnitReady? then !IsUp(units, u) else IsUp(units, u))
  {
  }

  /** The grammar and the numbering of `events`, with `up'` saying whether a Ready is open at the end. */
  ghost predicate Numbered(events: seq<Event>, up: bool, up': bool, generation: nat)
  {
    && Grammar(events, up)
    && up' == StillUp(events, up)
    && forall k | 0 <= k < |events| :: events[k].generation == generation + k + 1
  }

  lemma NumberedEmpty(up: bool, generation: nat)
    ensures Numbered([], up, up, generation)
  {
  }

  lemma NumberedAppend(before: seq<Event>, e: Event, up: bool, mid: bool, generation: nat)
    requires Numbered(before, up, mid, generation)
    requires (if e.kind.UnitReady? then !mid else mid) && e.generation == generation + |before| + 1
    ensures Numbered(before + [e], up, !e.kind.UnitStopped?, generation)
  {
    GrammarAppend(before, e, up);
    hide Grammar;
  }

  /** Over any operations, a unit's events follow the lifecycle grammar and carry consecutive
      generations. */
  lemma {:induction false} RunGrammar(plane: Plane, units: Units, ops: seq<Op>, u: string)
    requires AllSettled(units)
    ensures Numbered(AllEvents(plane, units, ops, u), IsUp(units, u), IsUp(ApplyAll(units, ops), u),
              Get(units, u).generation)
  {
    hide Numbered, ApplyOp, OpEvents, AllSettled, IsUp;
    if ops == [] {
      NumberedEmpty(IsUp(units, u), Get(units, u).generation);
    } else {
      var n := |ops| - 1;
      RunGrammar(plane, units, ops[..n], u);
      RunLaw(plane, units, ops[..n], u);
      var mid := ApplyAll(units, ops[..n]);
      OpGrammar(plane, mid, ops[n], u);
      OpLaw(plane, mid, ops[n], u);
      var es := OpEvents(plane, mid, ops[n], u);
      var before := AllEvents(plane, units, ops[..n], u);
      if es == [] {
        assert before + es == before;
      } else {
        assert es == [es[0]];
        NumberedAppend(before, es[0], IsUp(units, u), IsUp(mid, u), Get(units, u).generation);
      }
    }
  }

  // ----- the order in which an update returns its events -----

  function ForUnit(events: seq<Event>, u: string): seq<Event>
  {
    if events == [] then []
    else
      var n := |events| - 1;
      ForUnit(events[..n], u) + (if Text.TrimSpace(events[n].unit) == u then [events[n]] else [])
  }

  lemma ForUnitAppend(events: seq<Event>, e: Event, u: string)
    ensures ForUnit(events + [e], u) == ForUnit(events, u) + (if Text.TrimSpace(e.unit) == u then [e] else [])
  {
    assert (events + [e])[..|events|] == events;
  }

  lemma {:induction false} ForUnitCounts(events: seq<Event>, u: string, e: Event)
    ensures multiset(ForUnit(events, u))[e] == if Text.TrimSpace(e.unit) == u then multiset(events)[e] else 0
  {
    if events != [] {
      var n := |events| - 1;
      ForUnitCounts(events[..n], u, e);
      assert events == events[..n] + [events[n]];
    }
  }

  lemma ForUnitPermutes(xs: seq<Event>, ys: seq<Event>, u: string)
    requires multiset(xs) == multiset(ys)
    ensures multiset(ForUnit(xs, u)) == multiset(ForUnit(ys, u))
  {
    forall e ensures multiset(ForUnit(xs, u))[e] == multiset(ForUnit(ys, u))[e] {
      ForUnitCounts(xs, u, e);
      ForUnitCounts(ys, u, e);
    }
  }

  lemma ShortPermutation<T>(xs: seq<T>, ys: seq<T>)
    requires multiset(xs) == multiset(ys) && |ys| <= 1
    ensures xs == ys
  {
    SameMultiset(xs, ys);
    if |ys| == 1 {
      assert xs[0] in ys;
    }
  }

  predicate DistinctNames(input: seq<Snapshot>)
  {
    forall i, j | 0 <= i < j < |input| && Name(input[i]) != "" :: Name(input[i]) != Name(input[j])
  }

  /** With distinct names, one update concerns a unit at most once. */
  /** One more snapshot: its events, if any, are its own unit's. */
  lemma InputStep(plane: Plane, units: Units, up: Update, k: nat, u: string)
    requires k < |up.input|
    ensures var es := AllEvents(plane, units, InputOps(up)[..k], u);
            var es' := AllEvents(plane, units, InputOps(up)[..k + 1], u);
            es <= es' && |es'| <= |es| + 1 && (Name(up.input[k]) != u || u == "" ==> es' == es)
  {
    var ops, op := InputOps(up)[..k], InputOps(up)[k];
    assert InputOps(up)[..k + 1] == ops + [op];
    EventsSnoc(plane, units, ops, op, u);
    OpLaw(plane, ApplyAll(units, ops), op, u);
    assert Name(up.input[k]) != u || u == "" ==> OpEvents(plane, ApplyAll(units, ops), op, u) == [];
    hide AllEvents, ApplyAll, OpEvents, ApplyOp, InputOps, Name;
  }

  lemma {:induction false} DistinctOnce(plane: Plane, units: Units, up: Update, k: nat, u: string)
    requires DistinctNames(up.input) && k <= |up.input|
    ensures |AllEvents(plane, units, InputOps(up)[..k], u)| <= 1
    ensures (forall i | 0 <= i < k :: Name(up.input[i]) != u) ==> AllEvents(plane, units, InputOps(up)[..k], u) == []
  {
    hide InputOps, OpEvents, ApplyAll, Text.TrimSpace;
    if k > 0 {
      DistinctOnce(plane, units, up, k - 1, u);
      InputStep(plane, units, up, k - 1, u);
      hide AllEvents;
      if Name(up.input[k - 1]) == u != "" {
        forall i | 0 <= i < k - 1 ensures Name(up.input[i]) != u { }
      }
    }
  }

  /** The sweep concerns a unit that no snapshot named. */
  lemma SweepQuiet(plane: Plane, units: Units, up: Update, u: string)
    requires u in Seen(up.input)
    ensures OpEvents(plane, units, Sweep(Seen(up.input)), u) == []
  {
    hide Seen;
  }

  lemma SeenMeans(input: seq<Snapshot>, u: string)
    ensures u in Seen(input) <==> u != "" && exists i :: 0 <= i < |input| && Name(input[i]) == u
  {
    hide Text.TrimSpace;
    if i :| 0 <= i < |input| && Name(input[i]) == u {
      assert input[i] in input;
    }
  }

  lemma UpdateOnce(plane: Plane, units: Units, up: Update, u: string)
    requires DistinctNames(up.input)
    ensures |AllEvents(plane, units, UpdateOps(up), u)| <= 1
  {
    var ops := InputOps(up);
    assert ops[..|up.input|] == ops && UpdateOps(up) == ops + [Sweep(Seen(up.input))];
    var mid := ApplyAll(units, ops);
    assert forall op | op in ops :: op.Observe?;
    hide *;
    DistinctOnce(plane, units, up, |up.input|, u);
    EventsSnoc(plane, units, ops, Sweep(Seen(up.input)), u);
    OpLaw(plane, mid, Sweep(Seen(up.input)), u);
    SeenMeans(up.input, u);
    if u == "" {
      EmptyNameQuiet(plane, units, ops);
    } else if u in Seen(up.input) {
      SweepQuiet(plane, mid, up, u);
    }
  }

  lemma {:induction false} EmptyNameQuiet(plane: Plane, units: Units, ops: seq<Op>)
    requires forall op | op in ops :: op.Observe?
    ensures AllEvents(plane, units, ops, "") == []
  {
    if ops != [] {
      var n := |ops| - 1;
      assert ops[n] in ops;
      EmptyNameQuiet(plane, units, ops[..n]);
    }
  }

  function ByUnit(): (Event, Event) -> bool { (a: Event, b: Event) => Text.Less(a.unit, b.unit) }

  function BySnapshotName(): (Stamped, Stamped) -> bool
  {
    (a: Stamped, b: Stamped) => Text.Less(a.snapshot.name, b.snapshot.name)
  }

  lemma ByUnitWeak(xs: seq<Event>)
    ensures WeakOn(ByUnit(), xs)
  {
    Text.LessLinear();
    forall a: Event, b: Event | Text.Less(a.unit, b.unit) ensures !Text.Less(b.unit, a.unit) {
      if Text.Less(b.unit, a.unit) { Text.LessTransitive(a.unit, b.unit, a.unit); }
    }
  }

  lemma BySnapshotNameWeak(xs: seq<Stamped>)
    ensures WeakOn(BySnapshotName(), xs)
  {
    Text.LessLinear();
    forall a: Stamped, b: Stamped | Text.Less(a.snapshot.name, b.snapshot.name)
      ensures !Text.Less(b.snapshot.name, a.snapshot.name) {
      if Text.Less(b.snapshot.name, a.snapshot.name) {
        Text.LessTransitive(a.snapshot.name, b.snapshot.name, a.snapshot.name);
      }
    }
  }

  /** The stamped snapshots of an update, in input order. */
  function Stamps(plane: Plane, units: Units, ops: seq<Op>): seq<Stamped>
  {
    if ops == [] then []
    else
      var n := |ops| - 1;
      var op := ops[n];
      Stamps(plane, units, ops[..n]) +
      (if op.Observe? && Name(op.s) != "" then [Stamp(plane, op.s, Get(ApplyAll(units, ops), Name(op.s)))] else [])
  }

  /** Records are keyed by trimmed names. */
  ghost predicate AllTrimmed(units: Units) { forall u | u in units :: Text.TrimSpace(u) == u }

  /** The collected events, unit by unit, are those of the operations so far. */
  ghost predicate Agree(plane: Plane, units: Units, ops: seq<Op>, events: seq<Event>)
  {
    forall u :: ForUnit(events, u) == AllEvents(plane, units, ops, u)
  }

  function ObserveEvents(plane: Plane, units: Units, s: Snapshot, t: nat): seq<Event>
  {
    if Name(s) == "" then [] else OpEvents(plane, units, Observe(s, t), Name(s))
  }

  lemma AgreeObserve(plane: Plane, units: Units, ops: seq<Op>, events: seq<Event>, s: Snapshot, t: nat)
    requires Agree(plane, units, ops, events)
    ensures Agree(plane, units, ops + [Observe(s, t)], events + ObserveEvents(plane, ApplyAll(units, ops), s, t))
  {
    var op := Observe(s, t);
    var mid := ApplyAll(units, ops);
    var more := ObserveEvents(plane, mid, s, t);
    assert (ops + [op])[..|ops|] == ops;
    forall u ensures ForUnit(events + more, u) == AllEvents(plane, units, ops + [op], u) {
      assert AllEvents(plane, units, ops + [op], u) == AllEvents(plane, units, ops, u) + OpEvents(plane, mid, op, u);
      if more == [] {
        assert events + more == events && OpEvents(plane, mid, op, u) == [];
      } else {
        assert more == [more[0]];
        ForUnitAppend(events, more[0], u);
      }
    }
  }

  lemma StampsStep(plane: Plane, units: Units, ops: seq<Op>, s: Snapshot, t: nat)
    ensures var all := ops + [Observe(s, t)];
            && ApplyAll(units, all) == ApplyOp(ApplyAll(units, ops), Observe(s, t))
            && Stamps(plane, units, all) == Stamps(plane, units, ops) +
               (if Name(s) == "" then [] else [Stamp(plane, s, Get(ApplyAll(units, all), Name(s)))])
  {
    assert (ops + [Observe(s, t)])[..|ops|] == ops;
  }

  /** The sweep half done: the units in `rest` are still as they were. */
  ghost predicate SweptUnits(before: Units, seen: set<string>, rest: set<string>, now: Units)
  {
    now.Keys == before.Keys && forall u | u in now ::
        now[u] == if u in rest then before[u] else ApplyOp(before, Sweep(seen))[u]
  }

  ghost predicate SweptEvents(plane: Plane, before: Units, seen: set<string>, rest: set<string>, events: seq<Event>)
  {
    forall u :: ForUnit(events, u) == if u in rest then [] else OpEvents(plane, before, Sweep(seen), u)
  }

  function SweepOne(units: Units, seen: set<string>, u: string): Instance
    requires u in units
  {
    if Vanished(units, seen, u) then Instance(Stopped, 0, 0, units[u].generation + 1) else units[u]
  }

  lemma SweptUnitsStep(before: Units, seen: set<string>, rest: set<string>, now: Units, name: string)
    requires SweptUnits(before, seen, rest, now) && name in rest && name in before
    ensures now[name] == before[name]
    ensures SweptUnits(before, seen, rest - {name}, now[name := SweepOne(before, seen, name)])
  {
  }

  lemma SweptAll(before: Units, seen: set<string>, now: Units)
    requires SweptUnits(before, seen, {}, now)
    ensures now == ApplyOp(before, Sweep(seen))
  {
    assert ApplyOp(before, Sweep(seen)).Keys == before.Keys;
  }

  lemma SweepStep(plane: Plane, before: Units, seen: set<string>, rest: set<string>, events: seq<Event>, name: string)
    requires AllTrimmed(before) && name in rest && name in before
    requires SweptEvents(plane, before, seen, rest, events)
    ensures SweptEvents(plane, before, seen, rest - {name}, events + OpEvents(plane, before, Sweep(seen), name))
  {
    var more := OpEvents(plane, before, Sweep(seen), name);
    forall u ensures ForUnit(events + more, u) == if u in rest - {name} then []
        else OpEvents(plane, before, Sweep(seen), u) {
      if more == [] {
        assert events + more == events;
      } else {
        ForUnitAppend(events, more[0], u);
        assert more == [more[0]];
      }
    }
  }

  // ----- what an update says, on the snapshot fields -----

  /** Snapshot `i` is the last of the first `k` that names `u`. */
  predicate LastNaming(input: seq<Snapshot>, k: nat, i: nat, u: string)
  {
    i < k <= |input| && u != "" && Name(input[i]) == u && forall j | i < j < k :: Name(input[j]) != u
  }

  /** The record says what the snapshot says: ready with its process, if it has a live main process, is
      started and, when managed by sys-notifyd, reports itself ready; otherwise stopped with none. */
  predicate Follows(r: Instance, s: Snapshot, startTime: nat)
  {
    if s.pid > 0 && startTime != 0 && s.started && (!s.notifyd || s.phaseReady) then
      r.phase == Ready && r.mainPID == s.pid && r.startTime == startTime
    else
      r.phase == Stopped && r.mainPID == 0 && r.startTime == 0
  }

  predicate SameRecord(before: Units, after: Units, u: string)
  {
    (u in after <==> u in before) && (u in after ==> after[u] == before[u])
  }

  /** The record of `u` after an update: it follows the last snapshot naming `u`; without one a ready
      unit is stopped and everything else stands. */
  ghost predicate RecordLaw(before: Units, after: Units, up: Update, u: string)
  {
    && (forall i: nat | LastNaming(up.input, |up.input|, i, u) ::
          && u in after
          && Follows(after[u], up.input[i],
                     if up.input[i].pid in up.startTimes then up.startTimes[up.input[i].pid] else 0))
    && (!Named(up.input, |up.input|, u) ==>
          if u in before && before[u].phase == Ready then
            u in after && after[u] == Instance(Stopped, 0, 0, before[u].generation + 1)
          else SameRecord(before, after, u))
  }

  lemma NextFollows(previous: Instance, known: bool, s: Snapshot, t: nat)
    ensures Follows(Next(previous, known, s, t).0, s, t)
  {
  }

  lemma ObserveTouches(m: Units, s: Snapshot, t: nat, u: string)
    ensures var m' := ApplyOp(m, Observe(s, t));
            if u != "" && Name(s) == u then u in m' && Follows(m'[u], s, t) else SameRecord(m, m', u)
  {
    NextFollows(Get(m, Name(s)), Name(s) in m, s, t);
    hide Next, Follows, Text.TrimSpace;
  }

  /** Some of the first `k` snapshots names `u`. */
  predicate Named(input: seq<Snapshot>, k: nat, u: string)
  {
    u != "" && exists i :: 0 <= i < k <= |input| && Name(input[i]) == u
  }

  lemma NamedStep(input: seq<Snapshot>, k: nat, u: string)
    requires k < |input|
    ensures Named(input, k + 1, u) <==> Named(input, k, u) || (u != "" && Name(input[k]) == u)
  {
    hide Name;
  }

  lemma LastStays(input: seq<Snapshot>, k: nat, i: nat, u: string)
    requires LastNaming(input, k + 1, i, u)
    ensures if i == k then Name(input[k]) == u != "" else LastNaming(input, k, i, u) && Name(input[k]) != u
  {
    hide Name;
  }

  ghost predicate FollowsUpTo(up: Update, k: nat, u: string, m: Units)
  {
    forall i: nat | LastNaming(up.input, k, i, u) ::
      u in m && Follows(m[u], up.input[i], StartTime(up.startTimes, up.input[i].pid))
  }

  /** After `k` snapshots a unit's record follows the last one naming it, or is as it was. */
  ghost predicate RecordUpTo(units: Units, up: Update, k: nat, u: string, m: Units)
  {
    FollowsUpTo(up, k, u, m) && (!Named(up.input, k, u) ==> SameRecord(units, m, u))
  }

  lemma FollowsStep(up: Update, k: nat, u: string, m: Units)
    requires k < |up.input| && FollowsUpTo(up, k, u, m)
    ensures FollowsUpTo(up, k + 1, u, ApplyOp(m, Observe(up.input[k], StartTime(up.startTimes, up.input[k].pid))))
  {
    var t := StartTime(up.startTimes, up.input[k].pid);
    var m' := ApplyOp(m, Observe(up.input[k], t));
    ObserveTouches(m, up.input[k], t, u);
    hide ApplyOp, Follows, Name, StartTime, LastNaming;
    forall i: nat | LastNaming(up.input, k + 1, i, u)
      ensures u in m' && Follows(m'[u], up.input[i], StartTime(up.startTimes, up.input[i].pid))
    {
      LastStays(up.input, k, i, u);
    }
  }

  lemma RecordUpToStep(units: Units, up: Update, k: nat, u: string, m: Units)
    requires k < |up.input| && RecordUpTo(units, up, k, u, m)
    ensures RecordUpTo(units, up, k + 1, u, ApplyOp(m, Observe(up.input[k], StartTime(up.startTimes, up.input[k].pid))))
  {
    hide FollowsUpTo, ApplyOp, Name, Named, Follows, StartTime;
    FollowsStep(up, k, u, m);
    NamedStep(up.input, k, u);
    ObserveTouches(m, up.input[k], StartTime(up.startTimes, up.input[k].pid), u);
  }

  lemma {:induction false} ObservedRecord(units: Units, up: Update, k: nat, u: string)
    requires k <= |up.input|
    ensures RecordUpTo(units, up, k, u, ApplyAll(units, InputOps(up)[..k]))
  {
    if k == 0 {
      assert InputOps(up)[..0] == [];
    } else {
      hide *;
      ObservedRecord(units, up, k - 1, u);
      ApplySnoc(units, up, k - 1);
      RecordUpToStep(units, up, k - 1, u, ApplyAll(units, InputOps(up)[..k - 1]));
    }
    hide Follows, Name;
  }

  lemma ApplySnoc(units: Units, up: Update, k: nat)
    requires k < |up.input|
    ensures ApplyAll(units, InputOps(up)[..k + 1]) ==
              ApplyOp(ApplyAll(units, InputOps(up)[..k]),
                  Observe(up.input[k], StartTime(up.startTimes, up.input[k].pid)))
  {
    assert InputOps(up)[..k + 1][..k] == InputOps(up)[..k];
  }

  lemma UpdateRecord(units: Units, up: Update, u: string)
    ensures RecordLaw(units, ApplyAll(units, UpdateOps(up)), up, u)
  {
    var n := |up.input|;
    assert UpdateOps(up)[..|UpdateOps(up)| - 1] == InputOps(up) && InputOps(up)[..n] == InputOps(up);
    var mid := ApplyAll(units, InputOps(up));
    assert ApplyAll(units, UpdateOps(up)) == ApplyOp(mid, Sweep(Seen(up.input)));
    ObservedRecord(units, up, n, u);
    SeenMeans(up.input, u);
    hide ApplyAll, InputOps, Seen, Name, Follows;
    SweepTouches(mid, Seen(up.input), u);
    hide ApplyOp;
    forall i: nat | LastNaming(up.input, n, i, u) ensures u in Seen(up.input) { }
  }

  lemma SweepTouches(m: Units, seen: set<string>, u: string)
    ensures var m' := ApplyOp(m, Sweep(seen));
            if u in m && u !in seen && m[u].phase == Ready then u in m' &&
                m'[u] == Instance(Stopped, 0, 0, m[u].generation + 1)
            else SameRecord(m, m', u)
  {
  }

  predicate Up(units: Units, u: string) { u in units && units[u].phase == Ready }

  /** What must be announced: the unit came up, went down, or has another process while up. */
  predicate Changed(before: Units, after: Units, u: string)
  {
    || Up(before, u) != Up(after, u)
    || (Up(after, u) && (before[u].mainPID != after[u].mainPID || before[u].startTime != after[u].startTime))
  }

  /** The one event of a changed unit: its kind, its stamp and, from the snapshot if there is one, its process. */
  predicate Announces(e: Event, plane: Plane, before: Units, after: Units, u: string, s: seq<Snapshot>)
    requires u in after
  {
    && e.kind == (if !Up(before, u) then UnitReady else if Up(after, u) then MainPIDChanged else UnitStopped)
    && Text.TrimSpace(e.unit) == u && e.uid == plane.uid && e.epoch == plane.epoch
    && e.generation == after[u].generation == (if u in before then before[u].generation else 0) + 1
    && (if s == [] then e.pid == 0 && e.startTime == 0 && e.phase == Unset
        else e.unit == s[0].name && e.pid == s[0].pid && e.startTime == after[u].startTime && e.phase == after[u].phase)
  }

  /** The events of `u` in an update with distinct names: one exactly when it changed. */
  ghost predicate EventLaw(plane: Plane, before: Units, after: Units, up: Update, u: string, es: seq<Event>)
  {
    && (Changed(before, after, u) <==> es != []) && |es| <= 1
    && (es != [] ==>
          && u in after
          && (forall i: nat | i < |up.input| && Name(up.input[i]) == u ::
                Announces(es[0], plane, before, after, u, [up.input[i]]))
          && ((forall i: nat | i < |up.input| :: Name(up.input[i]) != u) ==>
                Announces(es[0], plane, before, after, u, [])))
  }

  /** With distinct names a unit's events are those its one snapshot makes of the old record. */
  ghost predicate MadeBy(plane: Plane, units: Units, up: Update, i: nat, u: string, m: Units, es: seq<Event>)
    requires i < |up.input|
  {
    var op := Observe(up.input[i], StartTime(up.startTimes, up.input[i].pid));
    es == OpEvents(plane, units, op, u) && u in m && u in ApplyOp(units, op) && m[u] == ApplyOp(units, op)[u]
  }

  /** Only the old record of the unit itself matters. */
  lemma MadeLocally(plane: Plane, units: Units, m: Units, up: Update, i: nat, u: string)
    requires i < |up.input| && u != "" && Name(up.input[i]) == u && SameRecord(units, m, u)
    ensures var op := Observe(up.input[i], StartTime(up.startTimes, up.input[i].pid));
            MadeBy(plane, units, up, i, u, ApplyOp(m, op), OpEvents(plane, m, op, u))
  {
    hide Next, Text.TrimSpace;
  }

  lemma {:induction false} OneSnapshot(plane: Plane, units: Units, up: Update, k: nat, i: nat, u: string)
    requires DistinctNames(up.input) && i < k <= |up.input| && u != "" && Name(up.input[i]) == u
    ensures MadeBy(plane, units, up, i, u, ApplyAll(units, InputOps(up)[..k]),
              AllEvents(plane, units, InputOps(up)[..k], u))
    decreases k
  {
    forall j | 0 <= j < k && j != i ensures Name(up.input[j]) != u { }
    hide ApplyAll, AllEvents, InputOps, ApplyOp, OpEvents, Text.TrimSpace, Name, DistinctNames;
    ApplySnoc(units, up, k - 1);
    var m := ApplyAll(units, InputOps(up)[..k - 1]);
    if k == i + 1 {
      ObservedRecord(units, up, i, u);
      DistinctOnce(plane, units, up, i, u);
      EventsAt(plane, units, up, i, u);
      MadeLocally(plane, units, m, up, i, u);
      var op := Observe(up.input[i], StartTime(up.startTimes, up.input[i].pid));
      assert [] + OpEvents(plane, m, op, u) == OpEvents(plane, m, op, u);
    } else {
      OneSnapshot(plane, units, up, k - 1, i, u);
      InputStep(plane, units, up, k - 1, u);
      ObserveTouches(m, up.input[k - 1], StartTime(up.startTimes, up.input[k - 1].pid), u);
    }
  }

  lemma EventsAt(plane: Plane, units: Units, up: Update, i: nat, u: string)
    requires i < |up.input|
    ensures var op := Observe(up.input[i], StartTime(up.startTimes, up.input[i].pid));
            AllEvents(plane, units, InputOps(up)[..i + 1], u) ==
              AllEvents(plane, units, InputOps(up)[..i], u) + OpEvents(plane, ApplyAll(units, InputOps(up)[..i]), op, u)
  {
    var ops := InputOps(up)[..i];
    assert InputOps(up)[..i + 1] == ops + [InputOps(up)[i]];
    EventsSnoc(plane, units, ops, InputOps(up)[i], u);
    hide AllEvents, ApplyAll, OpEvents;
  }

  /** One snapshot against the old record: announced exactly when something changed. */
  lemma SnapshotLaw(plane: Plane, before: Units, s: Snapshot, t: nat, after: Units)
    requires var u := Name(s); u != "" && u in after && after[u] == ApplyOp(before, Observe(s, t))[u]
    ensures var u := Name(s); var es := OpEvents(plane, before, Observe(s, t), u);
            && (Changed(before, after, u) <==> es != []) && |es| <= 1
            && (es != [] ==> Announces(es[0], plane, before, after, u, [s]))
  {
    hide Text.TrimSpace;
  }

  lemma UpdateEvents(plane: Plane, units: Units, up: Update, u: string)
    requires DistinctNames(up.input) && AllTrimmed(units) && u != ""
    ensures EventLaw(plane, units, ApplyAll(units, UpdateOps(up)), up, u, AllEvents(plane, units, UpdateOps(up), u))
  {
    var n, ops, sweep := |up.input|, InputOps(up), Sweep(Seen(up.input));
    assert UpdateOps(up) == ops + [sweep] && UpdateOps(up)[..n] == ops && ops[..n] == ops;
    var mid, after := ApplyAll(units, ops), ApplyAll(units, UpdateOps(up));
    assert after == ApplyOp(mid, sweep);
    EventsSnoc(plane, units, ops, sweep, u);
    SeenMeans(up.input, u);
    if i: nat :| i < n && Name(up.input[i]) == u {
      NamedEvents(plane, units, up, i);
    } else {
      DistinctOnce(plane, units, up, n, u);
      ObservedRecord(units, up, n, u);
      SweepLaw(plane, units, mid, up, u);
    }
    hide *;
  }

  lemma NamedEvents(plane: Plane, units: Units, up: Update, i: nat)
    requires DistinctNames(up.input) && i < |up.input| && Name(up.input[i]) != ""
    ensures var u := Name(up.input[i]);
            EventLaw(plane, units, ApplyAll(units, UpdateOps(up)), up, u, AllEvents(plane, units, UpdateOps(up), u))
  {
    var n, ops, sweep, u := |up.input|, InputOps(up), Sweep(Seen(up.input)), Name(up.input[i]);
    assert UpdateOps(up) == ops + [sweep] && UpdateOps(up)[..n] == ops && ops[..n] == ops;
    var mid, after := ApplyAll(units, ops), ApplyAll(units, UpdateOps(up));
    assert after == ApplyOp(mid, sweep);
    EventsSnoc(plane, units, ops, sweep, u);
    SeenMeans(up.input, u);
    SweepQuiet(plane, mid, up, u);
    OneSnapshot(plane, units, up, n, i, u);
    assert after[u] == mid[u];
    SnapshotLaw(plane, units, up.input[i], StartTime(up.startTimes, up.input[i].pid), after);
    hide AllEvents, ApplyAll, ApplyOp, OpEvents, InputOps, UpdateOps, Announces, Changed, Text.TrimSpace;
    forall j: nat | j < n && Name(up.input[j]) == u ensures j == i { }
  }

  lemma SweepLaw(plane: Plane, units: Units, mid: Units, up: Update, u: string)
    requires u != "" && (forall i: nat | i < |up.input| :: Name(up.input[i]) != u) && SameRecord(units, mid, u)
    requires u !in Seen(up.input) && AllTrimmed(units)
    ensures EventLaw(plane, units, ApplyOp(mid, Sweep(Seen(up.input))), up, u,
              OpEvents(plane, mid, Sweep(Seen(up.input)), u))
  {
    hide Seen, Text.TrimSpace;
  }

  /** The snapshots that name a unit, each with the stamp its unit's record has in `after`. */
  function StampedBy(plane: Plane, after: Units, input: seq<Snapshot>): seq<Stamped>
  {
    if input == [] then []
    else
      var n := |input| - 1;
      var s, r := input[n], Get(after, Name(input[n]));
      StampedBy(plane, after, input[..n]) +
      (if Name(s) == "" then [] else [Stamped(s, plane.uid, plane.epoch, r.startTime, r.generation, r.phase)])
  }

  lemma FinalRecord(plane: Plane, units: Units, up: Update, i: nat)
    requires DistinctNames(up.input) && i < |up.input| && Name(up.input[i]) != ""
    ensures var u := Name(up.input[i]);
            Get(ApplyAll(units, InputOps(up)[..i + 1]), u) == Get(ApplyAll(units, UpdateOps(up)), u)
  {
    var n, u := |up.input|, Name(up.input[i]);
    assert UpdateOps(up)[..|UpdateOps(up)| - 1] == InputOps(up) && InputOps(up)[..n] == InputOps(up);
    assert ApplyAll(units, UpdateOps(up)) == ApplyOp(ApplyAll(units, InputOps(up)), Sweep(Seen(up.input)));
    hide *;
    OneSnapshot(plane, units, up, i + 1, i, u);
    OneSnapshot(plane, units, up, n, i, u);
    SeenMeans(up.input, u);
    SweepTouches(ApplyAll(units, InputOps(up)), Seen(up.input), u);
    SameStamp(plane, units, up, i, u);
  }

  /** Two states whose record of `u` was made by the same snapshot agree on it, and the sweep keeps it. */
  lemma SameStamp(plane: Plane, units: Units, up: Update, i: nat, u: string)
    requires i < |up.input| && u in Seen(up.input)
    ensures forall m, es, m', es', m'' | MadeBy(plane, units, up, i, u, m, es) &&
              MadeBy(plane, units, up, i, u, m', es')
              && SameRecord(m', m'', u) :: Get(m, u) == Get(m'', u)
  {
    hide ApplyOp, OpEvents;
  }

  lemma {:induction false} StampsFinal(plane: Plane, units: Units, up: Update, k: nat)
    requires DistinctNames(up.input) && k <= |up.input|
    ensures Stamps(plane, units, InputOps(up)[..k]) == StampedBy(plane, ApplyAll(units, UpdateOps(up)), up.input[..k])
  {
    if k == 0 {
      assert InputOps(up)[..0] == [] && up.input[..0] == [];
    } else {
      StampsFinal(plane, units, up, k - 1);
      if Name(up.input[k - 1]) != "" { FinalRecord(plane, units, up, k - 1); }
      assert InputOps(up)[..k][..k - 1] == InputOps(up)[..k - 1] && up.input[..k][..k - 1] == up.input[..k - 1];
      hide ApplyAll, Text.TrimSpace;
    }
  }

  /** What one snapshot does to the records and the events. */
  lemma ObserveEffect(plane: Plane, units: Units, s: Snapshot, t: nat)
    ensures var name := Name(s); var op := Op.Observe(s, t);
            if name == "" then ApplyOp(units, op) == units && ObserveEvents(plane, units, s, t) == []
            else
              var (next, kinds) := Next(Get(units, name), name in units, s, t);
              && ApplyOp(units, op) == units[name := next] && Get(ApplyOp(units, op), name) == next
              && ObserveEvents(plane, units, s, t) == if kinds == [] then []
                  else [SnapshotEvent(Stamp(plane, s, next), kinds[0])]
  {
    hide Next, Stamp, SnapshotEvent, Text.TrimSpace;
  }

  class Normalizer {
    const epoch: string
    const uid: nat
    var units: Units

    constructor (epoch: string, uid: nat)
      ensures this.epoch == epoch && this.uid == uid && units == map[]
    {
      this.epoch, this.uid, units := epoch, uid, map[];
    }

    function ThisPlane(): Plane { Plane(uid, epoch) }

    /** The loop over the input snapshots. */
    method Observe(up: Update) returns (snapshots: seq<Stamped>, events: seq<Event>)
      modifies this
      ensures units == ApplyAll(old(units), InputOps(up))
      ensures snapshots == Stamps(ThisPlane(), old(units), InputOps(up))
      ensures Agree(ThisPlane(), old(units), InputOps(up), events)
    {
      snapshots, events := [], [];
      ghost var ops := InputOps(up);
      ghost var units0 := units;
      assert Agree(ThisPlane(), units0, ops[..0], events);
      assert |ops| == |up.input|;
      assert forall i | 0 <= i < |ops| :: ops[i] == Op.Observe(up.input[i], StartTime(up.startTimes, up.input[i].pid));
      assert units == ApplyAll(units0, ops[..0]) && snapshots == Stamps(ThisPlane(), units0, ops[..0]);
      hide *;
      for i := 0 to |up.input|
        invariant units == ApplyAll(units0, ops[..i])
        invariant snapshots == Stamps(ThisPlane(), units0, ops[..i])
        invariant Agree(ThisPlane(), units0, ops[..i], events)
      {
        var s := up.input[i];
        var name := Name(s);
        var startTime := StartTime(up.startTimes, s.pid);
        assert ops[..i + 1] == ops[..i] + [Op.Observe(s, startTime)];
        AgreeObserve(ThisPlane(), units0, ops[..i], events, s, startTime);
        StampsStep(ThisPlane(), units0, ops[..i], s, startTime);
        ObserveEffect(ThisPlane(), units, s, startTime);
        if name == "" {
          assert events + [] == events && snapshots + [] == snapshots;
          continue;
        }
        var (next, kinds) := Next(Get(units, name), name in units, s, startTime);
        units := units[name := next];
        var stamped := Stamp(ThisPlane(), s, next);
        snapshots := snapshots + [stamped];
        if kinds == [] {
          assert events + [] == events;
        } else {
          events := events + [SnapshotEvent(stamped, kinds[0])];
        }
      }
      assert ops[..|up.input|] == ops;
    }

    /** The loop over the recorded units that were not seen, in map iteration order. */
    method SweepUnseen(seen: set<string>) returns (events: seq<Event>)
      requires AllTrimmed(units)
      modifies this
      ensures units == ApplyOp(old(units), Sweep(seen))
      ensures SweptEvents(ThisPlane(), old(units), seen, {}, events)
    {
      events := [];
      ghost var units0 := units;
      var rest := units.Keys;
      assert SweptUnits(units0, seen, rest, units);
      assert SweptEvents(ThisPlane(), units0, seen, rest, events);
      hide SweptUnits, SweptEvents, AllTrimmed;
      while rest != {}
        invariant rest <= units0.Keys
        invariant SweptUnits(units0, seen, rest, units)
        invariant SweptEvents(ThisPlane(), units0, seen, rest, events)
        decreases rest
      {
        var name :| name in rest;
        SweepStep(ThisPlane(), units0, seen, rest, events, name);
        SweptUnitsStep(units0, seen, rest, units, name);
        rest := rest - {name};
        var previous := units[name];
        if name !in seen && previous.phase.Ready? {
          previous := Instance(Stopped, 0, 0, previous.generation + 1);
          events := events + [VanishEvent(ThisPlane(), name, previous.generation)];
        } else {
          assert events + [] == events;
        }
        assert previous == SweepOne(units0, seen, name);
        units := units[name := previous];
      }
      SweptAll(units0, seen, units);
    }

    /** Update: the new records are the operations' fold; a unit's events are exactly those of its
        operations, and with distinct names in that very order. */
    method Update(up: Update) returns (snapshots: seq<Stamped>, events: seq<Event>)
      requires AllTrimmed(units)
      modifies this
      ensures AllTrimmed(units)
      ensures units == ApplyAll(old(units), UpdateOps(up))
      ensures multiset(snapshots) == multiset(Stamps(ThisPlane(), old(units), InputOps(up))) &&
                Sorted(BySnapshotName(), snapshots)
      ensures Sorted(ByUnit(), events)
      ensures forall u :: multiset(ForUnit(events, u)) == multiset(AllEvents(ThisPlane(), old(units), UpdateOps(up), u))
      ensures DistinctNames(up.input) ==>
                forall u :: ForUnit(events, u) == AllEvents(ThisPlane(), old(units), UpdateOps(up), u)
      ensures forall u :: RecordLaw(old(units), units, up, u)
      ensures DistinctNames(up.input) ==> multiset(snapshots) == multiset(StampedBy(ThisPlane(), units, up.input))
      ensures DistinctNames(up.input) ==>
                forall u | u != "" :: EventLaw(ThisPlane(), old(units), units, up, u, ForUnit(events, u))
    {
      var seen := Seen(up.input);
      ghost var before := units;
      snapshots, events := Observe(up);
      NamesTrimmed(before, InputOps(up));
      hide SweptEvents, Agree, ForUnit, AllEvents, ApplyAll, Stamps, DistinctNames, Sorted, SortBy, AllTrimmed,
          RecordLaw, EventLaw, StampedBy;
      var stops := SweepUnseen(seen);
      UpdateCollected(ThisPlane(), before, up, events, stops);
      SortedStamps(snapshots);
      snapshots := SortBy(BySnapshotName(), snapshots);
      SortedEvents(ThisPlane(), before, up, events + stops);
      events := SortBy(ByUnit(), events + stops);
      UpdateLaws(ThisPlane(), before, up);
    }
  }

  lemma UpdateLaws(plane: Plane, units: Units, up: Update)
    requires AllTrimmed(units)
    ensures var after := ApplyAll(units, UpdateOps(up));
            && (forall u :: RecordLaw(units, after, up, u))
            && (DistinctNames(up.input) ==>
                  forall u | u != "" :: EventLaw(plane, units, after, up, u, AllEvents(plane, units, UpdateOps(up), u)))
            && (DistinctNames(up.input) ==> Stamps(plane, units, InputOps(up)) == StampedBy(plane, after, up.input))
  {
    assert |InputOps(up)| == |up.input|;
    assert InputOps(up)[..|up.input|] == InputOps(up) && up.input[..|up.input|] == up.input;
    hide *;
    if DistinctNames(up.input) { StampsFinal(plane, units, up, |up.input|); }
    forall u ensures RecordLaw(units, ApplyAll(units, UpdateOps(up)), up, u) { UpdateRecord(units, up, u); }
    if DistinctNames(up.input) {
      forall u | u != "" ensures EventLaw(plane, units, ApplyAll(units, UpdateOps(up)), up, u,
          AllEvents(plane, units, UpdateOps(up), u)) {
        UpdateEvents(plane, units, up, u);
      }
    }
  }

  lemma UpdateCollected(plane: Plane, units: Units, up: Update, events: seq<Event>, stops: seq<Event>)
    requires Agree(plane, units, InputOps(up), events) && AllTrimmed(units)
    requires SweptEvents(plane, ApplyAll(units, InputOps(up)), Seen(up.input), {}, stops)
    ensures ApplyAll(units, UpdateOps(up)) == ApplyOp(ApplyAll(units, InputOps(up)), Sweep(Seen(up.input)))
    ensures Agree(plane, units, UpdateOps(up), events + stops)
    ensures AllTrimmed(ApplyAll(units, UpdateOps(up)))
  {
    var ops := UpdateOps(up);
    assert ops[..|ops| - 1] == InputOps(up);
    NamesTrimmed(units, ops);
    forall u ensures ForUnit(events + stops, u) == AllEvents(plane, units, ops, u) {
      ForUnitConcat(events, stops, u);
    }
  }

  lemma SortedStamps(snapshots: seq<Stamped>)
    ensures multiset(SortBy(BySnapshotName(), snapshots)) == multiset(snapshots)
    ensures Sorted(BySnapshotName(), SortBy(BySnapshotName(), snapshots))
  {
    BySnapshotNameWeak(snapshots);
    SortPermutes(BySnapshotName(), snapshots);
    SortSorts(BySnapshotName(), snapshots);
  }

  /** Sorting the events by unit name keeps each unit's events, and with distinct names their order. */
  lemma SortedEvents(plane: Plane, units: Units, up: Update, raw: seq<Event>)
    requires Agree(plane, units, UpdateOps(up), raw)
    ensures var events := SortBy(ByUnit(), raw);
            && Sorted(ByUnit(), events)
            && (forall u :: multiset(ForUnit(events, u)) == multiset(AllEvents(plane, units, UpdateOps(up), u)))
            && (DistinctNames(up.input) ==> forall u :: ForUnit(events, u) == AllEvents(plane, units, UpdateOps(up), u))
  {
    ByUnitWeak(raw);
    SortPermutes(ByUnit(), raw);
    SortSorts(ByUnit(), raw);
    var events := SortBy(ByUnit(), raw);
    forall u ensures multiset(ForUnit(events, u)) == multiset(AllEvents(plane, units, UpdateOps(up), u)) {
      ForUnitPermutes(events, raw, u);
    }
    if DistinctNames(up.input) {
      forall u ensures ForUnit(events, u) == AllEvents(plane, units, UpdateOps(up), u) {
        UpdateOnce(plane, units, up, u);
        ShortPermutation(ForUnit(events, u), AllEvents(plane, units, UpdateOps(up), u));
      }
    }
  }

  lemma {:induction false} NamesTrimmed(units: Units, ops: seq<Op>)
    requires AllTrimmed(units)
    ensures AllTrimmed(ApplyAll(units, ops))
  {
    if ops != [] {
      var n := |ops| - 1;
      NamesTrimmed(units, ops[..n]);
      if ops[n].Observe? {
        Text.TrimSpaceTrims(ops[n].s.name);
        Text.TrimSpaceTrims(Name(ops[n].s));
      }
    }
  }

  lemma {:induction false} ForUnitConcat(a: seq<Event>, b: seq<Event>, u: string)
    ensures ForUnit(a + b, u) == ForUnit(a, u) + ForUnit(b, u)
  {
    if b == [] {
      assert a + b == a;
    } else {
      var n := |b| - 1;
      assert (a + b)[..|a + b| - 1] == a + b[..n];
      ForUnitConcat(a, b[..n], u);
    }
  }

  /** The whole law for a run of updates from a fresh normalizer, on the events each operation emits.
      When the names in every update are distinct, these are the events of the unit in the order in
      which the updates return them. */
  lemma RunOfUpdates(plane: Plane, run: seq<Update>, u: string)
    ensures var es := AllEvents(plane, map[], RunOps(run), u);
            && Grammar(es, false)
            && (forall k | 0 <= k < |es| :: es[k].generation == k + 1)
            && Get(ApplyAll(map[], RunOps(run)), u).generation == |es|
  {
    RunGrammar(plane, map[], RunOps(run), u);
    RunLaw(plane, map[], RunOps(run), u);
  }

  /** A run of updates is the run of its operations, so the laws above apply to every run. */
  lemma RunStep(plane: Plane, run: seq<Update>, up: Update, u: string)
    ensures ApplyAll(map[], RunOps(run + [up])) == ApplyAll(ApplyAll(map[], RunOps(run)), UpdateOps(up))
    ensures AllEvents(plane, map[], RunOps(run + [up]), u) ==
              AllEvents(plane, map[], RunOps(run), u) + AllEvents(plane, ApplyAll(map[], RunOps(run)), UpdateOps(up), u)
  {
    assert (run + [up])[..|run|] == run;
    ApplyConcat(map[], RunOps(run), UpdateOps(up));
    EventsConcat(plane, map[], RunOps(run), UpdateOps(up), u);
  }
}
