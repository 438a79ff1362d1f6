/** Moving a service's process tree into its cgroup: the process-tree closure
    (internal/cgrouptrack/proc.go) and the verified fixpoint migration
    (internal/cgrouptrack/migrate.go). The kernel is a tape: every call happens at its own
    tick of a clock, and the tape says what the kernel answers there. */
module Migration {
  import opened Options
  import opened Sorting

  datatype Process = Process(pid: int, ppid: int, uid: nat, startTime: nat)

  // ----- Descendants -----

  /** `child` is recorded as a child of `parent`. */
  ghost predicate Link(root: int, ps: seq<Process>, parent: int, child: int)
  {
    child > 0 && child != root && exists p :: p in ps && p.pid == child && p.ppid == parent
  }

  ghost predicate LinkPath(root: int, ps: seq<Process>, path: seq<int>, x: int)
  {
    && |path| >= 2 && path[0] == root && path[|path| - 1] == x
    && forall i | 0 <= i < |path| - 1 :: Link(root, ps, path[i], path[i + 1])
  }

  /** `x` is reachable from `root` by one or more parent links. */
  ghost predicate Descends(root: int, ps: seq<Process>, x: int)
  {
    exists path :: LinkPath(root, ps, path, x)
  }

  function IntLess(): (int, int) -> bool { (a, b) => a < b }

  function ByPid(): (Process, Process) -> bool { (a: Process, b: Process) => a.pid < b.pid }

  /** The children of one parent, in the order the process list names them. */
  function Children(root: int, ps: seq<Process>, parent: int): seq<int>
  {
    if ps == [] then []
    else
      var p := ps[|ps| - 1];
      Children(root, ps[..|ps| - 1], parent) + (if p.pid > 0 && p.pid != root && p.ppid == parent then [p.pid] else [])
  }

  lemma {:induction false} ChildrenAreLinks(root: int, ps: seq<Process>, parent: int, child: int)
    ensures child in Children(root, ps, parent) <==> Link(root, ps, parent, child)
  {
    if ps != [] {
      var n := |ps| - 1;
      ChildrenAreLinks(root, ps[..n], parent, child);
      assert forall p :: p in ps <==> p in ps[..n] || p == ps[n];
    }
  }

  function Lookup(children: map<int, seq<int>>, parent: int): seq<int>
  {
    if parent in children then children[parent] else []
  }

  lemma ChildrenSnoc(root: int, ps: seq<Process>, i: nat, parent: int)
    requires i < |ps|
    ensures Children(root, ps[..i + 1], parent) == Children(root, ps[..i], parent) +
            (if ps[i].pid > 0 && ps[i].pid != root && ps[i].ppid == parent then [ps[i].pid] else [])
  {
    assert ps[..i + 1][..i] == ps[..i];
  }

  /** The children map: one sorted child list per parent that has any. */
  method ChildLists(root: int, ps: seq<Process>) returns (children: map<int, seq<int>>)
    ensures forall parent :: Lookup(children, parent) == SortBy(IntLess(), Children(root, ps, parent))
  {
    var lists: map<int, seq<int>> := map[];
    for i := 0 to |ps|
      invariant forall parent :: Lookup(lists, parent) == Children(root, ps[..i], parent)
    {
      forall parent ensures Children(root, ps[..i + 1], parent) == Children(root, ps[..i], parent) +
            (if ps[i].pid > 0 && ps[i].pid != root && ps[i].ppid == parent then [ps[i].pid] else []) {
        ChildrenSnoc(root, ps, i, parent);
      }
      hide Children;
      var p := ps[i];
      ghost var lists0 := lists;
      if p.pid > 0 && p.pid != root {
        lists := lists[p.ppid := Lookup(lists, p.ppid) + [p.pid]];
        assert forall parent | parent != p.ppid :: Lookup(lists, parent) == Lookup(lists0, parent);
      }
    }
    assert ps[..|ps|] == ps;
    children := map parent | parent in lists :: SortBy(IntLess(), lists[parent]);
    forall parent ensures Lookup(children, parent) == SortBy(IntLess(), Lookup(lists, parent)) {
    }
  }

  lemma SortedChildren(root: int, ps: seq<Process>, parent: int)
    ensures forall c :: c in SortBy(IntLess(), Children(root, ps, parent)) <==> Link(root, ps, parent, c)
  {
    SortPermutes(IntLess(), Children(root, ps, parent));
    forall c ensures c in Children(root, ps, parent) <==> Link(root, ps, parent, c) {
      ChildrenAreLinks(root, ps, parent, c);
    }
  }

  /** A discovered process hangs, directly, below the root or an earlier discovered one. */
  ghost predicate ParentEarlier(root: int, ps: seq<Process>, found: seq<int>)
  {
    forall j | 0 < j < |found| :: HasParent(root, ps, found[..j], found[j])
  }

  ghost predicate HasParent(root: int, ps: seq<Process>, before: seq<int>, x: int)
  {
    exists parent :: parent in before && Link(root, ps, parent, x)
  }

  lemma {:induction false} FoundDescends(root: int, ps: seq<Process>, found: seq<int>, j: nat)
    requires found != [] && found[0] == root && ParentEarlier(root, ps, found) && 0 < j < |found|
    ensures Descends(root, ps, found[j])
    decreases j
  {
    assert HasParent(root, ps, found[..j], found[j]);
    var parent :| parent in found[..j] && Link(root, ps, parent, found[j]);
    var i :| 0 <= i < j && found[i] == parent;
    if i == 0 {
      assert LinkPath(root, ps, [root, found[j]], found[j]);
    } else {
      FoundDescends(root, ps, found, i);
      var path :| LinkPath(root, ps, path, found[i]);
      assert LinkPath(root, ps, path + [found[j]], found[j]);
    }
  }

  /** A set that holds the root and is closed under links holds every descendant. */
  lemma {:induction false} PathInside(root: int, ps: seq<Process>, s: set<int>, path: seq<int>, k: nat)
    requires root in s && forall a, b | a in s && Link(root, ps, a, b) :: b in s
    requires |path| >= 1 && path[0] == root && k < |path|
    requires forall i | 0 <= i < |path| - 1 :: Link(root, ps, path[i], path[i + 1])
    ensures path[k] in s
  {
    if k > 0 {
      PathInside(root, ps, s, path, k - 1);
      var i := k - 1;
      assert Link(root, ps, path[i], path[i + 1]);
    }
  }

  lemma ClosureCovers(root: int, ps: seq<Process>, s: set<int>)
    requires root in s && forall a, b | a in s && Link(root, ps, a, b) :: b in s
    ensures forall x | Descends(root, ps, x) :: x in s && x != root
  {
    forall x | Descends(root, ps, x) ensures x in s && x != root {
      var path :| LinkPath(root, ps, path, x);
      PathInside(root, ps, s, path, |path| - 1);
      var i := |path| - 2;
      assert Link(root, ps, path[i], path[i + 1]);
    }
  }

  ghost predicate Discovered(root: int, ps: seq<Process>, found: seq<int>, seen: set<int>)
  {
    && found != [] && found[0] == root && NoDuplicates(found)
    && seen == (set x | x in found)
    && ParentEarlier(root, ps, found)
  }

  lemma DiscoverOne(root: int, ps: seq<Process>, found: seq<int>, seen: set<int>, parent: int, child: int)
    requires Discovered(root, ps, found, seen) && parent in found && Link(root, ps, parent, child) && child !in seen
    ensures Discovered(root, ps, found + [child], seen + {child})
  {
    var more := found + [child];
    forall j | 0 < j < |more| ensures HasParent(root, ps, more[..j], more[j]) {
      if j < |found| {
        assert HasParent(root, ps, found[..j], found[j]);
        assert more[..j] == found[..j];
      } else {
        assert more[..j] == found;
      }
    }
  }

  /** The inner loop: enqueue the children of one parent that were not seen yet. */
  method Enqueue(root: int, ghost ps: seq<Process>, parent: int, kids: seq<int>, found0: seq<int>, seen0: set<int>)
    returns (found: seq<int>, seen: set<int>)
    requires Discovered(root, ps, found0, seen0) && parent in found0
    requires forall c | c in kids :: Link(root, ps, parent, c)
    ensures Discovered(root, ps, found, seen) && found0 <= found && seen0 <= seen
    ensures forall c | c in kids :: c in seen
    ensures found == found0 || seen0 < seen
    ensures forall x | x in seen :: x in seen0 || x in kids
  {
    found, seen := found0, seen0;
    hide Discovered, Link;
    for i := 0 to |kids|
      invariant Discovered(root, ps, found, seen) && found0 <= found && seen0 <= seen && parent in found
      invariant forall k | 0 <= k < i :: kids[k] in seen
      invariant found == found0 || seen0 < seen
      invariant forall x | x in seen :: x in seen0 || x in kids
    {
      var child := kids[i];
      if child in seen { continue; }
      assert child in kids;
      DiscoverOne(root, ps, found, seen, parent, child);
      found, seen := found + [child], seen + {child};
    }
  }

  ghost predicate Expanded(root: int, ps: seq<Process>, seen: set<int>, parent: int)
  {
    forall c | Link(root, ps, parent, c) :: c in seen
  }

  /** The first `k` discovered processes have all their children among the discovered. */
  ghost predicate ExpandedTo(root: int, ps: seq<Process>, seen: set<int>, found: seq<int>, k: nat)
  {
    k <= |found| && forall i | 0 <= i < k :: Expanded(root, ps, seen, found[i])
  }

  lemma ExpandNext(root: int, ps: seq<Process>, seen: set<int>, seen': set<int>, found: seq<int>, found': seq<int>,
                   k: nat)
    requires ExpandedTo(root, ps, seen, found, k) && k < |found| && seen <= seen' && found <= found'
    requires Expanded(root, ps, seen', found[k])
    ensures ExpandedTo(root, ps, seen', found', k + 1)
  {
    forall i | 0 <= i < k + 1 ensures Expanded(root, ps, seen', found'[i]) {
      if i < k { assert Expanded(root, ps, seen, found[i]); }
    }
  }

  lemma DiscoveryComplete(root: int, ps: seq<Process>, seen: set<int>, found: seq<int>)
    requires Discovered(root, ps, found, seen) && ExpandedTo(root, ps, seen, found, |found|)
    ensures NoDuplicates(found[1..]) && ParentEarlier(root, ps, [root] + found[1..])
    ensures forall x :: x in found[1..] <==> Descends(root, ps, x)
  {
    assert [root] + found[1..] == found;
    forall a, b | a in seen && Link(root, ps, a, b) ensures b in seen {
      var i :| 0 <= i < |found| && found[i] == a;
      assert Expanded(root, ps, seen, found[i]);
    }
    ClosureCovers(root, ps, seen);
    forall x | x in found[1..] ensures Descends(root, ps, x) {
      var j :| 0 < j < |found| && found[j] == x;
      FoundDescends(root, ps, found, j);
    }
  }

  lemma KidsAreKnown(root: int, ps: seq<Process>, parent: int, kids: seq<int>)
    requires kids == SortBy(IntLess(), Children(root, ps, parent))
    ensures forall c | c in kids :: Link(root, ps, parent, c) && c in PidSet(ps)
    ensures forall seen | forall c | c in kids :: c in seen :: Expanded(root, ps, seen, parent)
  {
    SortedChildren(root, ps, parent);
  }

  ghost function PidSet(ps: seq<Process>): set<int> { set p | p in ps :: p.pid }

  lemma QueueStep(found: seq<int>, found': seq<int>, k: nat)
    requires found <= found' && k < |found|
    ensures found[k..][1..] + found'[|found|..] == found'[k + 1..]
  {
  }

  /** Descendants: exactly the processes reachable from the root, each once, parents first.
      The source's `result` is the discovery order without the root. */
  method Descendants(root: int, ps: seq<Process>) returns (result: seq<int>)
    ensures NoDuplicates(result)
    ensures forall x :: x in result <==> Descends(root, ps, x)
    ensures ParentEarlier(root, ps, [root] + result)
  {
    var children := ChildLists(root, ps);
    var seen := {root};
    var found := [root];
    var queue := [root];
    ghost var k := 0;
    ghost var all := PidSet(ps) + {root};
    assert Discovered(root, ps, found, seen) && ExpandedTo(root, ps, seen, found, 0);
    hide Discovered, ExpandedTo, Expanded, Link, SortBy, Children, PidSet;
    while queue != []
      invariant k <= |found| && 1 <= |found| && queue == found[k..]
      invariant Discovered(root, ps, found, seen) && seen <= all
      invariant ExpandedTo(root, ps, seen, found, k)
      decreases all - seen, |queue|
    {
      var parent := queue[0];
      var kids := Lookup(children, parent);
      assert kids == SortBy(IntLess(), Children(root, ps, parent));
      KidsAreKnown(root, ps, parent, kids);
      ghost var found0, seen0 := found, seen;
      var count := |found|;
      assert parent == found[k];
      found, seen := Enqueue(root, ps, parent, kids, found, seen);
      ExpandNext(root, ps, seen0, seen, found0, found, k);
      QueueStep(found0, found, k);
      queue := queue[1..] + found[count..];
      k := k + 1;
      assert found == found0 || all - seen < all - seen0;
    }
    DiscoveryComplete(root, ps, seen, found);
    result := found[1..];
  }

  // ----- Migrate -----

  /** What /proc says about a pid; Inspect fills in the pid it was asked about. */
  datatype Info = Info(ppid: int, uid: nat, startTime: nat)

  /** The kernel and the deadline as a tape indexed by the clock. */
  datatype World = World(
    inspect: (nat, int) -> Option<Info>,
    list: nat -> Option<seq<int>>,
    ensure: nat -> bool,
    move: (nat, int) -> bool,
    members: nat -> Option<seq<int>>,
    expired: nat -> bool)

  /** InstanceIdentity, with the validity of its key, boot ID and epoch as one flag. */
  datatype Identity = Identity(user: bool, uid: nat, mainPID: int, startTime: nat, generation: nat, keyValid: bool)

  predicate Valid(id: Identity)
  {
    id.keyValid && id.mainPID > 0 && id.startTime != 0 && id.generation != 0
  }

  datatype Tracking = Tracked | Partial | Degraded

  datatype MigrationResult = MigrationResult(state: Tracking, moved: seq<int>, skipped: seq<int>)

  datatype MoveResult = Moved | Cancelled | Rejected

  function Inspect(w: World, t: nat, pid: int): Option<Process>
  {
    match w.inspect(t, pid)
    case None => None
    case Some(i) => Some(Process(pid, i.ppid, i.uid, i.startTime))
  }

  predicate SameProcess(o: Option<Process>, p: Process)
  {
    o.Some? && o.value.startTime == p.startTime && o.value.uid == p.uid
  }

  /** At tick `t` the kernel reports this process with the start time and owner it had. */
  ghost predicate Unchanged(w: World, t: nat, p: Process)
  {
    var i := w.inspect(t, p.pid);
    i.Some? && i.value.startTime == p.startTime && i.value.uid == p.uid
  }

  /** Starting at tick `t`: inspected unchanged, moved, inspected unchanged again, and then listed
      as a member of the group. */
  ghost predicate VerifiedFrom(w: World, t: nat, p: Process)
  {
    && !w.expired(t)
    && Unchanged(w, t + 1, p)
    && w.move(t + 2, p.pid)
    && Unchanged(w, t + 3, p)
    && w.members(t + 4).Some? && p.pid in w.members(t + 4).value
  }

  predicate Ascending(s: seq<int>) { forall i, j | 0 <= i < j < |s| :: s[i] <= s[j] }

  /** sort.SearchInts */
  method SearchInts(s: seq<int>, x: int) returns (at: nat)
    ensures at <= |s|
    ensures Ascending(s) ==> (at < |s| && s[at] == x <==> x in s)
  {
    var lo, hi := 0, |s|;
    while lo < hi
      invariant 0 <= lo <= hi <= |s|
      invariant Ascending(s) ==> (forall i | 0 <= i < lo :: s[i] < x) && (forall i | hi <= i < |s| :: s[i] >= x)
    {
      var mid := (lo + hi) / 2;
      if s[mid] < x { lo := mid + 1; } else { hi := mid; }
    }
    at := lo;
    if Ascending(s) && x in s {
      var i :| 0 <= i < |s| && s[i] == x;
      assert lo <= i;
    }
  }

  /** moveAndVerify: success means verified, in five ticks; and with the member list in order, as the
      cgroup backend returns it, a verified process is always accepted. */
  method MoveAndVerify(w: World, t: nat, before: Process) returns (r: MoveResult, t': nat)
    ensures t < t' <= t + 5 && (r.Moved? ==> VerifiedFrom(w, t, before) && t' == t + 5)
    ensures r.Cancelled? <==> w.expired(t)
    ensures VerifiedFrom(w, t, before) && Ascending(w.members(t + 4).value) ==> r.Moved?
  {
    if w.expired(t) { return Cancelled, t + 1; }
    var current := Inspect(w, t + 1, before.pid);
    if !SameProcess(current, before) { return Rejected, t + 2; }
    if !w.move(t + 2, before.pid) { return Rejected, t + 3; }
    var after := Inspect(w, t + 3, before.pid);
    if !SameProcess(after, before) { return Rejected, t + 4; }
    var pids := w.members(t + 4);
    if pids.None? { return Rejected, t + 5; }
    var index := SearchInts(pids.value, before.pid);
    if index == |pids.value| || pids.value[index] != before.pid { return Rejected, t + 5; }
    return Moved, t + 5;
  }

  /** The processes a snapshot keeps: inspected one tick after another, skipping the ones that are
      gone or, for a user service, foreign. None when the main process itself cannot be inspected. */
  function Collect(w: World, id: Identity, t: nat, pids: seq<int>): Option<seq<Process>>
  {
    if pids == [] then Some([])
    else
      var n := |pids| - 1;
      match Collect(w, id, t, pids[..n])
      case None => None
      case Some(ps) =>
        match Inspect(w, t + n, pids[n])
        case None => if pids[n] == id.mainPID then None else Some(ps)
        case Some(p) => if id.user && p.uid != id.uid then Some(ps) else Some(ps + [p])
  }

  /** The snapshot taken at tick `t`, sorted by pid. */
  function Snapshot(w: World, id: Identity, t: nat): Option<seq<Process>>
  {
    match w.list(t)
    case None => None
    case Some(pids) =>
      match Collect(w, id, t + 1, pids)
      case None => None
      case Some(ps) => Some(SortBy(ByPid(), ps))
  }

  /** The clock after a snapshot taken at `t`: the listing, then one inspection for every pid. */
  function SnapshotEnd(w: World, t: nat): nat { t + 1 + if w.list(t).Some? then |w.list(t).value| else 0 }

  method ProcessSnapshot(w: World, id: Identity, t: nat)
    returns (r: Option<seq<Process>>, skipped: seq<int>, t': nat)
    ensures r == Snapshot(w, id, t) && t < t' && (r.Some? ==> t' == SnapshotEnd(w, t))
  {
    skipped := [];
    var pids := w.list(t);
    if pids.None? { return None, [], t + 1; }
    var ps: seq<Process> := [];
    for i := 0 to |pids.value|
      invariant Collect(w, id, t + 1, pids.value[..i]) == Some(ps)
    {
      assert pids.value[..i + 1][..i] == pids.value[..i];
      var pid := pids.value[i];
      var p := Inspect(w, t + 1 + i, pid);
      if p.None? {
        if pid == id.mainPID {
          CollectStops(w, id, t + 1, pids.value, i + 1);
          return None, skipped, t + 2 + i;
        }
        skipped := skipped + [pid];
        continue;
      }
      if id.user && p.value.uid != id.uid {
        skipped := skipped + [pid];
        continue;
      }
      ps := ps + [p.value];
    }
    assert pids.value[..|pids.value|] == pids.value;
    return Some(SortBy(ByPid(), ps)), skipped, t + 1 + |pids.value|;
  }

  /** Once the main process was missed, the snapshot fails. */
  lemma {:induction false} CollectStops(w: World, id: Identity, t: nat, pids: seq<int>, k: nat)
    requires k <= |pids| && Collect(w, id, t, pids[..k]).None?
    ensures Collect(w, id, t, pids).None?
    decreases |pids| - k
  {
    if k == |pids| {
      assert pids[..k] == pids;
    } else {
      assert pids[..k + 1][..k] == pids[..k];
      CollectStops(w, id, t, pids, k + 1);
    }
  }

  /** Position `i` of the listing made at tick `t` names this process, and its inspection, at that
      position's own tick, reported exactly it. */
  ghost predicate ReportedAt(w: World, t: nat, i: nat, p: Process)
  {
    && w.list(t).Some? && i < |w.list(t).value| && w.list(t).value[i] == p.pid
    && w.inspect(t + 1 + i, p.pid) == Some(Info(p.ppid, p.uid, p.startTime))
  }

  /** Listed at `t` and inspected; for a user service, and only then, of the service's own user. */
  ghost predicate Reported(w: World, id: Identity, t: nat, p: Process)
  {
    (id.user ==> p.uid == id.uid) && exists i :: ReportedAt(w, t, i, p)
  }

  /** The listing works, and wherever it names the main process its inspection does too. */
  ghost predicate Observable(w: World, id: Identity, t: nat)
  {
    && w.list(t).Some?
    && forall i | 0 <= i < |w.list(t).value| &&
        w.list(t).value[i] == id.mainPID :: w.inspect(t + 1 + i, id.mainPID).Some?
  }

  lemma {:induction false} CollectExact(w: World, id: Identity, t: nat, pids: seq<int>, p: Process)
    requires Collect(w, id, t, pids).Some?
    ensures p in Collect(w, id, t, pids).value <==>
              (id.user ==> p.uid == id.uid) && exists i :: 0 <= i < |pids| && Inspect(w, t + i, pids[i]) == Some(p)
  {
    if pids != [] {
      var n := |pids| - 1;
      CollectExact(w, id, t, pids[..n], p);
      if i :| 0 <= i < n && Inspect(w, t + i, pids[..n][i]) == Some(p) {
        assert Inspect(w, t + i, pids[i]) == Some(p);
      }
      if i :| 0 <= i < |pids| && Inspect(w, t + i, pids[i]) == Some(p) {
        assert i < n ==> Inspect(w, t + i, pids[..n][i]) == Some(p);
      }
      hide Inspect;
    }
  }

  lemma {:induction false} CollectSome(w: World, id: Identity, t: nat, pids: seq<int>)
    ensures Collect(w, id, t, pids).Some? <==>
              forall i | 0 <= i < |pids| && pids[i] == id.mainPID :: w.inspect(t + i, id.mainPID).Some?
  {
    if pids != [] {
      var n := |pids| - 1;
      CollectSome(w, id, t, pids[..n]);
      assert forall i | 0 <= i < n :: pids[..n][i] == pids[i];
    }
  }

  /** A snapshot exists exactly if it could be observed, and then holds exactly the reported processes. */
  lemma SnapshotExact(w: World, id: Identity, t: nat)
    ensures Snapshot(w, id, t).Some? <==> Observable(w, id, t)
    ensures Snapshot(w, id, t).Some? ==> forall p :: p in Snapshot(w, id, t).value <==> Reported(w, id, t, p)
  {
    if w.list(t).Some? {
      var pids := w.list(t).value;
      CollectSome(w, id, t + 1, pids);
      if Collect(w, id, t + 1, pids).Some? {
        var ps := Collect(w, id, t + 1, pids).value;
        SortPermutes(ByPid(), ps);
        assert Snapshot(w, id, t) == Some(SortBy(ByPid(), ps));
        hide *;
        SameMultiset(SortBy(ByPid(), ps), ps);
        forall p ensures p in ps <==> Reported(w, id, t, p) {
          CollectReported(w, id, t, p);
        }
      }
    }
    hide Reported, Collect, SortBy;
  }

  lemma CollectReported(w: World, id: Identity, t: nat, p: Process)
    requires w.list(t).Some? && Collect(w, id, t + 1, w.list(t).value).Some?
    ensures p in Collect(w, id, t + 1, w.list(t).value).value <==> Reported(w, id, t, p)
  {
    CollectExact(w, id, t + 1, w.list(t).value, p);
    ReportedMeans(w, t, p);
    hide Collect, Inspect, ReportedAt;
  }

  lemma ReportedMeans(w: World, t: nat, p: Process)
    requires w.list(t).Some?
    ensures (exists i :: ReportedAt(w, t, i, p)) <==>
              exists i :: 0 <= i < |w.list(t).value| && Inspect(w, t + 1 + i, w.list(t).value[i]) == Some(p)
  {
    var pids := w.list(t).value;
    if i: nat :| ReportedAt(w, t, i, p) {
      assert Inspect(w, t + 1 + i, pids[i]) == Some(p);
    }
    if i :| 0 <= i < |pids| && Inspect(w, t + 1 + i, pids[i]) == Some(p) {
      assert ReportedAt(w, t, i, p);
    }
  }

  /** In user mode a snapshot holds only processes of the service's user. */
  lemma SnapshotOwned(w: World, id: Identity, t: nat)
    requires Snapshot(w, id, t).Some?
    ensures forall p | p in Snapshot(w, id, t).value :: id.user ==> p.uid == id.uid
  {
    SnapshotExact(w, id, t);
    hide Snapshot;
  }

  /** A reported process `b` has the parent `a`. */
  ghost predicate ParentOf(w: World, id: Identity, t: nat, a: int, b: int)
  {
    b > 0 && b != id.mainPID && exists p :: Reported(w, id, t, p) && p.pid == b && p.ppid == a
  }

  /** A chain of parent links from the main process to `x`, all reported at `t`. */
  ghost predicate ParentChain(w: World, id: Identity, t: nat, path: seq<int>, x: int)
  {
    && |path| >= 2 && path[0] == id.mainPID && path[|path| - 1] == x
    && forall i | 0 <= i < |path| - 1 :: ParentOf(w, id, t, path[i], path[i + 1])
  }

  /** `x` hangs below the main process in what was reported at `t`. */
  ghost predicate Descendant(w: World, id: Identity, t: nat, x: int)
  {
    exists path :: ParentChain(w, id, t, path, x)
  }

  lemma LinkIsParent(w: World, id: Identity, t: nat, a: int, b: int)
    requires Snapshot(w, id, t).Some?
    ensures Link(id.mainPID, Snapshot(w, id, t).value, a, b) <==> ParentOf(w, id, t, a, b)
  {
    SnapshotExact(w, id, t);
    hide Snapshot, Reported;
  }

  /** What Descendants finds in a snapshot is what the kernel reported below the main process. */
  lemma DescendantExact(w: World, id: Identity, t: nat, x: int)
    requires Snapshot(w, id, t).Some?
    ensures Descends(id.mainPID, Snapshot(w, id, t).value, x) <==> Descendant(w, id, t, x)
  {
    hide Snapshot, Link, ParentOf;
    var ps := Snapshot(w, id, t).value;
    if path :| LinkPath(id.mainPID, ps, path, x) {
      forall i | 0 <= i < |path| - 1 ensures ParentOf(w, id, t, path[i], path[i + 1]) {
        LinkIsParent(w, id, t, path[i], path[i + 1]);
      }
      assert ParentChain(w, id, t, path, x);
    }
    if path :| ParentChain(w, id, t, path, x) {
      forall i | 0 <= i < |path| - 1 ensures Link(id.mainPID, ps, path[i], path[i + 1]) {
        LinkIsParent(w, id, t, path[i], path[i + 1]);
      }
      assert LinkPath(id.mainPID, ps, path, x);
    }
  }

  /** How a process moved at tick `t` was known: it is the main process of the first inspection, or
      it stood below the main process in a snapshot completed before. */
  ghost predicate Known(w: World, id: Identity, t: nat, p: Process)
  {
    || (t == 2 && p.pid == id.mainPID && p.startTime == id.startTime
        && w.inspect(0, id.mainPID) == Some(Info(p.ppid, p.uid, p.startTime)))
    || (exists s :: SnapshotEnd(w, s) <= t && Below(w, id, s, p))
  }

  ghost predicate Below(w: World, id: Identity, s: nat, p: Process)
  {
    Observable(w, id, s) && Reported(w, id, s, p) && Descendant(w, id, s, p.pid)
  }

  /** A known process of the right user was verified, all of it before tick `end`. */
  ghost predicate VerifiedBefore(w: World, id: Identity, end: nat, t: nat, p: Process)
  {
    t + 5 <= end && VerifiedFrom(w, t, p) && Known(w, id, t, p) && (id.user ==> p.uid == id.uid)
  }

  /** A pid counts as moved only on that evidence. */
  ghost predicate Evidence(w: World, id: Identity, end: nat, pid: int)
  {
    exists t, p :: VerifiedBefore(w, id, end, t, p) && p.pid == pid
  }

  /** The group exists, and the main process was verified in it first, as the instance it should be. */
  ghost predicate MainEvidence(w: World, id: Identity)
  {
    && w.ensure(1) && w.inspect(0, id.mainPID).Some?
    && var i := w.inspect(0, id.mainPID).value;
       && VerifiedFrom(w, 2, Process(id.mainPID, i.ppid, i.uid, i.startTime))
       && i.startTime == id.startTime && (id.user ==> i.uid == id.uid)
  }

  /** What holds of the moved list when the clock is at `end`. */
  ghost predicate MovedWell(w: World, id: Identity, end: nat, moved: seq<int>)
  {
    && moved != [] && moved[0] == id.mainPID && NoDuplicates(moved)
    && MainEvidence(w, id)
    && forall pid | pid in moved :: Evidence(w, id, end, pid)
  }

  lemma EvidenceStays(w: World, id: Identity, end: nat, end': nat, pid: int)
    requires Evidence(w, id, end, pid) && end <= end'
    ensures Evidence(w, id, end', pid)
  {
    hide VerifiedFrom, Known;
    var t, p :| VerifiedBefore(w, id, end, t, p) && p.pid == pid;
    assert VerifiedBefore(w, id, end', t, p);
  }

  lemma MovedWellStays(w: World, id: Identity, end: nat, end': nat, moved: seq<int>)
    requires MovedWell(w, id, end, moved) && end <= end'
    ensures MovedWell(w, id, end', moved)
  {
    hide Evidence, MainEvidence;
    forall pid | pid in moved ensures Evidence(w, id, end', pid) {
      EvidenceStays(w, id, end, end', pid);
    }
  }

  lemma MovedWellGrows(w: World, id: Identity, t: nat, moved: seq<int>, p: Process)
    requires MovedWell(w, id, t, moved) && p.pid !in moved
    requires VerifiedFrom(w, t, p) && Known(w, id, t, p) && (id.user ==> p.uid == id.uid)
    ensures MovedWell(w, id, t + 5, moved + [p.pid])
  {
    assert VerifiedBefore(w, id, t + 5, t, p);
    assert Evidence(w, id, t + 5, p.pid);
    MovedWellStays(w, id, t, t + 5, moved);
    hide Evidence, MainEvidence, VerifiedFrom, Known;
  }

  /** byPID: the last process of the snapshot with that pid. */
  method FindProcess(ps: seq<Process>, pid: int) returns (p: Process)
    requires exists q :: q in ps && q.pid == pid
    ensures p in ps && p.pid == pid
  {
    var byPID: map<int, Process> := map[];
    for i := 0 to |ps|
      invariant forall q | q in byPID :: byPID[q] in ps && byPID[q].pid == q
      invariant forall k | 0 <= k < i :: ps[k].pid in byPID
    {
      byPID := byPID[ps[i].pid := ps[i]];
    }
    p := byPID[pid];
  }

  lemma DescendantInSnapshot(root: int, ps: seq<Process>, x: int)
    requires Descends(root, ps, x)
    ensures exists q :: q in ps && q.pid == x
  {
    var path :| LinkPath(root, ps, path, x);
    var i := |path| - 2;
    assert Link(root, ps, path[i], path[i + 1]);
  }

  lemma NoneIn(xs: seq<int>, ys: seq<int>)
    requires forall x | x in xs :: x !in ys
    ensures forall k | 0 <= k < |xs| :: xs[k] !in ys
  {
    forall k | 0 <= k < |xs| ensures xs[k] !in ys {
      var x := xs[k];
      assert x in xs;
    }
  }

  lemma ReportedOwned(w: World, id: Identity, t: nat, p: Process)
    requires Reported(w, id, t, p)
    ensures id.user ==> p.uid == id.uid
  {
  }

  /** One round over the pids that are new: move and verify each. `s` is the snapshot they come from. */
  method MoveNew(w: World, id: Identity, ghost s: nat, t: nat, ps: seq<Process>, newPIDs: seq<int>, moved0: seq<int>)
    returns (moved: seq<int>, skipped: seq<int>, cancelled: bool, t': nat)
    requires MovedWell(w, id, t, moved0)
    requires SnapshotEnd(w, s) <= t && Snapshot(w, id, s) == Some(ps)
    requires NoDuplicates(newPIDs) && forall x | x in newPIDs :: x !in moved0
    requires forall x | x in newPIDs :: Descends(id.mainPID, ps, x)
    ensures MovedWell(w, id, t', moved) && moved0 <= moved && t <= t'
    ensures cancelled ==> ExpiredBefore(w, t')
  {
    moved, skipped, cancelled, t' := moved0, [], false, t;
    NoneIn(newPIDs, moved0);
    SnapshotExact(w, id, s);
    hide MovedWell, Snapshot, Descends, Descendant, VerifiedFrom, Reported, Observable;
    for i := 0 to |newPIDs|
      invariant MovedWell(w, id, t', moved) && moved0 <= moved && t <= t' && !cancelled
      invariant forall k | i <= k < |newPIDs| :: newPIDs[k] !in moved
    {
      var pid := newPIDs[i];
      assert pid in newPIDs;
      DescendantInSnapshot(id.mainPID, ps, pid);
      var p := FindProcess(ps, pid);
      DescendantExact(w, id, s, pid);
      assert Reported(w, id, s, p) && (id.user ==> p.uid == id.uid) by { ReportedOwned(w, id, s, p); }
      assert Below(w, id, s, p);
      assert Known(w, id, t', p);
      ghost var at, before := t', moved;
      var r;
      r, t' := MoveAndVerify(w, t', p);
      MovedWellStays(w, id, at, t', moved);
      if r.Cancelled? {
        assert w.expired(at);
        cancelled := true;
        return;
      }
      if r.Rejected? {
        skipped := skipped + [pid];
        continue;
      }
      MovedWellGrows(w, id, at, moved, p);
      moved := moved + [pid];
    }
  }

  /** The snapshot taken at `last` is the final one: it was taken before the deadline, after every
      move, and nothing happened after it; and everything the kernel reported below the main process
      in it was moved. */
  ghost predicate Settled(w: World, id: Identity, last: nat, end: nat, moved: seq<int>)
  {
    && 0 < last && !w.expired(last - 1) && end == SnapshotEnd(w, last)
    && MovedWell(w, id, last - 1, moved)
    && Observable(w, id, last)
    && forall x | Descendant(w, id, last, x) :: x in moved
  }

  /** The migration cannot begin: a bad identity or setup, no matching main process, no group, or the
      main process is not seen to arrive in it in time. */
  ghost predicate CannotBegin(w: World, id: Identity, configured: bool)
  {
    || !id.keyValid || id.mainPID <= 0 || id.startTime == 0 || id.generation == 0 || !configured
    || w.inspect(0, id.mainPID).None? || !w.ensure(1)
    || (var i := w.inspect(0, id.mainPID).value;
        || i.startTime != id.startTime || (id.user && i.uid != id.uid)
        || !VerifiedFrom(w, 2, Process(id.mainPID, i.ppid, i.uid, i.startTime))
        || !Ascending(w.members(6).value))
  }

  /** `snaps` are the ticks of completed snapshots, one after another, each of which showed something
      below the main process. */
  ghost predicate Busy(w: World, id: Identity, snaps: seq<nat>)
  {
    && (forall i | 0 <= i < |snaps| :: Observable(w, id, snaps[i]) && exists x :: Descendant(w, id, snaps[i], x))
    && (forall i | 0 <= i < |snaps| - 1 :: SnapshotEnd(w, snaps[i]) < snaps[i + 1])
  }

  ghost predicate ExpiredBefore(w: World, end: nat) { exists t: nat :: t < end && w.expired(t) }

  /** Migrate. A Tracked result lists the main process first, no pid twice, and only processes known
      from the main process or from below it, verified in the group with unchanged start time and
      owner. All of that was over when the last snapshot was taken, the last thing Migrate did, and
      nothing the kernel reported below the main process in it is missing from the list. Any other
      result has its cause: the migration could not begin, the last snapshot failed, the deadline
      passed, or the rounds ran out, each with something below the main process. `end` is the final
      clock. */
  method Migrate(w: World, id: Identity, configured: bool, maxRounds: int)
    returns (r: MigrationResult, end: nat, ghost last: nat, ghost snaps: seq<nat>)
    ensures r.state.Tracked? ==>
              && id.keyValid && id.mainPID > 0 && id.startTime != 0 && id.generation != 0
              && Settled(w, id, last, end, r.moved)
    ensures r.moved == [] || MovedWell(w, id, end, r.moved)
    ensures r.state.Degraded? ==> if r.moved == [] then CannotBegin(w, id, configured) else !Observable(w, id, last)
    ensures r.state.Partial? ==>
              ExpiredBefore(w, end) || (Busy(w, id, snaps) && |snaps| == if maxRounds <= 0 then 8 else maxRounds)
  {
    end, last, snaps := 0, 0, [];
    var failed := MigrationResult(Degraded, [], []);
    if !Valid(id) || !configured { return failed, end, last, snaps; }
    var rounds := if maxRounds <= 0 then 8 else maxRounds;
    var main := Inspect(w, 0, id.mainPID);
    if main.None? { return failed, 1, last, snaps; }
    if main.value.startTime != id.startTime || (id.user && main.value.uid != id.uid) { return failed, 1, last, snaps; }
    if !w.ensure(1) { return failed, 2, last, snaps; }
    var ok, t := MoveAndVerify(w, 2, main.value);
    if !ok.Moved? { return failed, t, last, snaps; }
    var moved := [id.mainPID];
    assert VerifiedBefore(w, id, t, 2, main.value);
    assert MovedWell(w, id, t, moved);
    hide MovedWell, Settled, Busy, Observable, ExpiredBefore;
    r, end, last, snaps := Rounds(w, id, t, rounds, moved);
  }

  lemma BusyGrows(w: World, id: Identity, snaps: seq<nat>, s: nat, x: int)
    requires Busy(w, id, snaps) && (snaps != [] ==> SnapshotEnd(w, snaps[|snaps| - 1]) < s)
    requires Observable(w, id, s) && Descendant(w, id, s, x)
    ensures Busy(w, id, snaps + [s])
  {
    hide Observable, Descendant;
    var all := snaps + [s];
    forall i | 0 <= i < |all| ensures Observable(w, id, all[i]) && exists x :: Descendant(w, id, all[i], x) { }
  }

  /** The last snapshot, if any, ended before the clock. */
  ghost predicate Past(w: World, snaps: seq<nat>, end: nat)
      { snaps != [] ==> SnapshotEnd(w, snaps[|snaps| - 1]) <= end }

  /** The round loop: snapshot, find what is new below the main process, move it. */
  method Rounds(w: World, id: Identity, t0: nat, rounds: nat, moved0: seq<int>)
    returns (r: MigrationResult, end: nat, ghost last: nat, ghost snaps: seq<nat>)
    requires MovedWell(w, id, t0, moved0) && moved0 != []
    ensures t0 <= end && MovedWell(w, id, end, r.moved) && r.moved != []
    ensures r.state.Tracked? ==> Settled(w, id, last, end, r.moved)
    ensures r.state.Degraded? ==> !Observable(w, id, last)
    ensures r.state.Partial? ==> ExpiredBefore(w, end) || (Busy(w, id, snaps) && |snaps| == rounds)
  {
    var moved, skipped := moved0, [];
    end, last, snaps := t0, 0, [];
    assert Busy(w, id, snaps);
    hide MovedWell, Descends, Descendant, Snapshot, Observable, Busy;
    for round := 0 to rounds
      invariant t0 <= end && MovedWell(w, id, end, moved) && moved != []
      invariant Busy(w, id, snaps) && |snaps| == round && Past(w, snaps, end)
    {
      ghost var begun := end;
      if w.expired(end) {
        MovedWellStays(w, id, begun, end + 1, moved);
        return MigrationResult(Partial, moved, skipped), end + 1, last, snaps;
      }
      last := end + 1;
      var ps, missed;
      ps, missed, end := ProcessSnapshot(w, id, end + 1);
      SnapshotExact(w, id, last);
      MovedWellStays(w, id, begun, end, moved);
      skipped := skipped + missed;
      if ps.None? { return MigrationResult(Degraded, moved, skipped), end, last, snaps; }
      var below := Descendants(id.mainPID, ps.value);
      var newPIDs := NotMoved(below, moved);
      forall x ensures x in below <==> Descendant(w, id, last, x) { DescendantExact(w, id, last, x); }
      if newPIDs == [] {
        assert forall x | Descendant(w, id, last, x) :: x in moved;
        return MigrationResult(Tracked, moved, skipped), end, last, snaps;
      }
      assert newPIDs[0] in newPIDs;
      BusyGrows(w, id, snaps, last, newPIDs[0]);
      snaps := snaps + [last];
      var rejected, cancelled;
      moved, rejected, cancelled, end := MoveNew(w, id, last, end, ps.value, newPIDs, moved);
      skipped := skipped + rejected;
      if cancelled { return MigrationResult(Partial, moved, skipped), end, last, snaps; }
    }
    r := MigrationResult(Partial, moved, skipped);
  }

  method NotMoved(below: seq<int>, moved: seq<int>) returns (unmoved: seq<int>)
    requires NoDuplicates(below)
    ensures NoDuplicates(unmoved) && forall x :: x in unmoved <==> x in below && x !in moved
  {
    unmoved := [];
    for i := 0 to |below|
      invariant NoDuplicates(unmoved) && forall x :: x in unmoved <==> x in below[..i] && x !in moved
    {
      assert below[..i + 1] == below[..i] + [below[i]];
      if below[i] !in moved { unmoved := unmoved + [below[i]]; }
    }
    assert below[..|below|] == below;
  }

  /** containsPID */
  method ContainsPID(pids: seq<int>, pid: int) returns (found: bool)
    ensures found <==> pid in pids
  {
    for i := 0 to |pids|
      invariant pid !in pids[..i]
    {
      if pids[i] == pid { return true; }
      assert pids[..i + 1] == pids[..i] + [pids[i]];
    }
    assert pids[..|pids|] == pids;
    return false;
  }

  /** verifyNative: tracked exactly if the declared group can be read, and the main process is the
      expected instance and in it. */
  method VerifyNative(w: World, id: Identity, t: nat) returns (state: Tracking)
    ensures state == Tracked || state == Degraded
    ensures state == Tracked <==>
              && w.members(t).Some? && id.mainPID in w.members(t).value
              && w.inspect(t + 1, id.mainPID).Some? && w.inspect(t + 1, id.mainPID).value.startTime == id.startTime
  {
    var pids := w.members(t);
    if pids.None? { return Degraded; }
    var process := Inspect(w, t + 1, id.mainPID);
    if process.None? { return Degraded; }
    var inside := ContainsPID(pids.value, id.mainPID);
    if process.value.startTime != id.startTime || !inside { return Degraded; }
    return Tracked;
  }
}
