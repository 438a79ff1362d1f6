/** Depth-first topological sorting over adjacency lists, as a pure specification: the
    three-colour search of enabled_dag.go, with the marks and the emitted order threaded
    through as a value. */
module Topology {
  import opened Sorting

  type Adjacency = map<string, seq<string>>

  /** mark value 1 (on the recursion stack) and 2 (emitted); an absent name is unmarked. */
  datatype Mark = Active | Done

  datatype Walk = Walk(mark: map<string, Mark>, out: seq<string>)

  datatype Outcome = Finished(walk: Walk) | CycleAt(name: string)

  function Deps(adj: Adjacency, n: string): seq<string>
  {
    if n in adj then adj[n] else []
  }

  ghost predicate Closed(adj: Adjacency, s: set<string>)
  {
    forall n, d | n in s && d in Deps(adj, n) :: d in s
  }

  /** Consecutive names are linked by a dependency. */
  ghost predicate IsPath(adj: Adjacency, p: seq<string>)
  {
    forall i | 0 <= i < |p| - 1 :: p[i + 1] in Deps(adj, p[i])
  }

  ghost predicate PathFrom(adj: Adjacency, p: seq<string>, a: string, b: string)
  {
    |p| >= 2 && p[0] == a && p[|p| - 1] == b && IsPath(adj, p)
  }

  /** `a` depends on `b` through one or more edges. */
  ghost predicate DependsOn(adj: Adjacency, a: string, b: string)
  {
    exists p :: PathFrom(adj, p, a, b)
  }

  ghost predicate Acyclic(adj: Adjacency, s: set<string>)
  {
    forall n | n in s :: !DependsOn(adj, n, n)
  }

  /** Every dependency of an emitted name was emitted earlier. */
  ghost predicate DepsFirst(adj: Adjacency, out: seq<string>)
  {
    forall i, d | 0 <= i < |out| && d in Deps(adj, out[i]) :: d in out[..i]
  }

  ghost function Unmarked(u: set<string>, w: Walk): nat { |u - w.mark.Keys| }

  lemma UnmarkedMonotone(u: set<string>, w: Walk, w': Walk)
    requires w.mark.Keys <= w'.mark.Keys
    ensures Unmarked(u, w') <= Unmarked(u, w)
  {
    Subset(u - w'.mark.Keys, u - w.mark.Keys);
  }

  lemma UnmarkedShrinks(u: set<string>, w: Walk, n: string)
    requires n in u && n !in w.mark
    ensures Unmarked(u, w.(mark := w.mark[n := Active])) < Unmarked(u, w)
  {
    assert u - w.mark[n := Active].Keys == (u - w.mark.Keys) - {n};
  }

  lemma Subset<T>(a: set<T>, b: set<T>)
    requires a <= b
    ensures |a| <= |b|
  {
    assert b == a + (b - a);
  }

  /** The recursive closure `visit`. */
  ghost function Visit(adj: Adjacency, u: set<string>, w: Walk, name: string): (r: Outcome)
    requires Closed(adj, u) && name in u
    ensures r.Finished? ==> w.mark.Keys <= r.walk.mark.Keys
    decreases Unmarked(u, w), 0
  {
    if name in w.mark then
      if w.mark[name].Done? then Finished(w) else CycleAt(name)
    else
      var entered := w.(mark := w.mark[name := Active]);
      UnmarkedShrinks(u, w, name);
      match VisitAll(adj, u, entered, Deps(adj, name))
      case CycleAt(c) => CycleAt(c)
      case Finished(w') => Finished(Walk(w'.mark[name := Done], w'.out + [name]))
  }

  /** The loop `for _, dep := range deps { visit(dep) }`. */
  ghost function VisitAll(adj: Adjacency, u: set<string>, w: Walk, names: seq<string>): (r: Outcome)
    requires Closed(adj, u) && forall n | n in names :: n in u
    ensures r.Finished? ==> w.mark.Keys <= r.walk.mark.Keys
    decreases Unmarked(u, w), |names|
  {
    if names == [] then Finished(w) else
    match Visit(adj, u, w, names[0])
    case CycleAt(c) => CycleAt(c)
    case Finished(w') => UnmarkedMonotone(u, w, w'); VisitAll(adj, u, w', names[1..])
  }

  const Start := Walk(map[], [])

  /** What the search keeps: the active names are exactly the recursion stack and form a path,
      the finished names are exactly the emitted ones, and those are in dependency order. */
  ghost predicate Inv(adj: Adjacency, u: set<string>, w: Walk, stack: seq<string>)
  {
    && (forall n :: n in stack <==> n in w.mark && w.mark[n].Active?)
    && (forall n :: n in w.out <==> n in w.mark && w.mark[n].Done?)
    && (forall n | n in w.mark :: n in u)
    && NoDuplicates(w.out)
    && DepsFirst(adj, w.out)
    && IsPath(adj, stack)
  }

  /** The name about to be visited hangs off the top of the stack. */
  ghost predicate Linked(adj: Adjacency, stack: seq<string>, name: string)
  {
    stack != [] ==> name in Deps(adj, stack[|stack| - 1])
  }

  lemma PushPath(adj: Adjacency, stack: seq<string>, name: string)
    requires IsPath(adj, stack) && Linked(adj, stack, name)
    ensures IsPath(adj, stack + [name])
  {
  }

  /** A second arrival at an active name closes a cycle along the stack. */
  lemma StackCycle(adj: Adjacency, stack: seq<string>, name: string)
    requires IsPath(adj, stack) && Linked(adj, stack, name) && name in stack
    ensures DependsOn(adj, name, name)
  {
    var k :| 0 <= k < |stack| && stack[k] == name;
    PushPath(adj, stack, name);
    var p := (stack + [name])[k..];
    assert PathFrom(adj, p, name, name);
  }

  lemma EnterKeepsInv(adj: Adjacency, u: set<string>, w: Walk, stack: seq<string>, name: string)
    requires Inv(adj, u, w, stack) && Linked(adj, stack, name)
    requires name in u && name !in w.mark
    ensures Inv(adj, u, w.(mark := w.mark[name := Active]), stack + [name])
  {
    PushPath(adj, stack, name);
    assert name !in w.out;
  }

  lemma LeaveKeepsInv(adj: Adjacency, u: set<string>, w: Walk, stack: seq<string>, name: string)
    requires Inv(adj, u, w, stack + [name])
    requires name !in stack && name in u
    requires forall d | d in Deps(adj, name) :: d in w.out
    ensures Inv(adj, u, Walk(w.mark[name := Done], w.out + [name]), stack)
  {
    var out := w.out + [name];
    assert name in stack + [name];
    assert name !in w.out;
    forall i, d | 0 <= i < |out| && d in Deps(adj, out[i]) ensures d in out[..i] {
      if i < |w.out| {
        assert out[..i] == w.out[..i];
      } else {
        assert out[..i] == w.out;
      }
    }
    var p := stack + [name];
    forall i | 0 <= i < |stack| - 1 ensures stack[i + 1] in Deps(adj, stack[i]) {
      assert p[i + 1] in Deps(adj, p[i]);
    }
    forall n ensures n in stack <==> n in w.mark[name := Done] && w.mark[name := Done][n].Active? {
      assert n in p <==> n in stack || n == name;
    }
  }

  lemma {:induction false} VisitCorrect(adj: Adjacency, u: set<string>, w: Walk, name: string, stack: seq<string>)
    requires Closed(adj, u) && name in u
    requires Inv(adj, u, w, stack) && Linked(adj, stack, name)
    ensures var r := Visit(adj, u, w, name);
            match r
            case CycleAt(c) => c in u && DependsOn(adj, c, c)
            case Finished(w') => Inv(adj, u, w', stack) && w.out <= w'.out && name in w'.out
    decreases Unmarked(u, w), 0
  {
    hide Inv, Linked, Closed, DependsOn, Unmarked;
    if name in w.mark {
      MarkedVisit(adj, u, w, name, stack);
    } else {
      var entered := w.(mark := w.mark[name := Active]);
      UnmarkedShrinks(u, w, name);
      EnterKeepsInv(adj, u, w, stack, name);
      DepsInside(adj, u, stack, name);
      VisitAllCorrect(adj, u, entered, Deps(adj, name), stack + [name]);
      var r := VisitAll(adj, u, entered, Deps(adj, name));
      hide VisitAll;
      if r.Finished? {
        NotOnStack(adj, u, w, stack, name);
        LeaveKeepsInv(adj, u, r.walk, stack, name);
      }
    }
  }

  /** A marked name is finished, or closes a cycle. */
  lemma MarkedVisit(adj: Adjacency, u: set<string>, w: Walk, name: string, stack: seq<string>)
    requires Inv(adj, u, w, stack) && Linked(adj, stack, name) && name in w.mark
    ensures if w.mark[name].Active? then DependsOn(adj, name, name) else name in w.out
  {
    if w.mark[name].Active? {
      StackCycle(adj, stack, name);
    }
  }

  lemma DepsInside(adj: Adjacency, u: set<string>, stack: seq<string>, name: string)
    requires Closed(adj, u) && name in u
    ensures forall d | d in Deps(adj, name) :: d in u && Linked(adj, stack + [name], d)
  {
  }

  lemma NotOnStack(adj: Adjacency, u: set<string>, w: Walk, stack: seq<string>, name: string)
    requires Inv(adj, u, w, stack) && name !in w.mark
    ensures name !in stack
  {
  }

  lemma {:induction false} VisitAllCorrect(adj: Adjacency, u: set<string>, w: Walk, names: seq<string>,
                                           stack: seq<string>)
    requires Closed(adj, u) && forall n | n in names :: n in u
    requires Inv(adj, u, w, stack) && forall n | n in names :: Linked(adj, stack, n)
    ensures var r := VisitAll(adj, u, w, names);
            match r
            case CycleAt(c) => c in u && DependsOn(adj, c, c)
            case Finished(w') => Inv(adj, u, w', stack) && w.out <= w'.out && forall n | n in names :: n in w'.out
    decreases Unmarked(u, w), |names|
  {
    hide Inv, Linked, Closed, DependsOn, Unmarked, Visit;
    if names != [] {
      VisitCorrect(adj, u, w, names[0], stack);
      var r := Visit(adj, u, w, names[0]);
      if r.Finished? {
        UnmarkedMonotone(u, w, r.walk);
        VisitAllCorrect(adj, u, r.walk, names[1..], stack);
        assert names == [names[0]] + names[1..];
      }
    }
  }

  /** Along a path that starts in a dependency-ordered sequence, positions strictly fall. */
  lemma {:induction false} PathFalls(adj: Adjacency, out: seq<string>, p: seq<string>, k: nat) returns (m: nat)
    requires DepsFirst(adj, out) && IsPath(adj, p)
    requires |p| >= 1 && k < |out| && out[k] == p[0]
    ensures m < |out| && out[m] == p[|p| - 1]
    ensures if |p| >= 2 then m < k else m == k
    decreases |p|
  {
    if |p| == 1 {
      m := k;
    } else {
      assert p[1] in Deps(adj, out[k]);
      assert p[1] in out[..k];
      var j :| 0 <= j < k && out[j] == p[1];
      var tail := p[1..];
      forall i | 0 <= i < |tail| - 1 ensures tail[i + 1] in Deps(adj, tail[i]) {
        assert p[i + 2] in Deps(adj, p[i + 1]);
      }
      m := PathFalls(adj, out, tail, j);
    }
  }

  /** In a duplicate-free dependency-ordered sequence, a transitive dependency stands strictly
      before its dependent. */
  lemma OrderRespectsDependsOn(adj: Adjacency, out: seq<string>, i: nat, j: nat)
    requires NoDuplicates(out) && DepsFirst(adj, out)
    requires i < |out| && j < |out| && DependsOn(adj, out[i], out[j])
    ensures j < i
  {
    var p :| PathFrom(adj, p, out[i], out[j]);
    var m := PathFalls(adj, out, p, i);
    assert m == j;
  }

  lemma OrderedIsAcyclic(adj: Adjacency, out: seq<string>)
    requires NoDuplicates(out) && DepsFirst(adj, out)
    ensures Acyclic(adj, set n | n in out)
  {
    forall n | n in out && DependsOn(adj, n, n) ensures false {
      var i :| 0 <= i < |out| && out[i] == n;
      OrderRespectsDependsOn(adj, out, i, i);
    }
  }

  /** The central law of the topological sort. On a dependency-closed, duplicate-free node list
      the search succeeds exactly when the dependency relation is acyclic; then it emits a
      permutation of the nodes with dependencies first. A reported cycle is a real one. */
  lemma TopologicalSort(adj: Adjacency, nodes: seq<string>)
    requires NoDuplicates(nodes) && Closed(adj, set n | n in nodes)
    ensures var u := set n | n in nodes; var r := VisitAll(adj, u, Start, nodes);
            && (r.Finished? <==> Acyclic(adj, u))
            && (r.Finished? ==>
                  multiset(r.walk.out) == multiset(nodes) && NoDuplicates(r.walk.out) && DepsFirst(adj, r.walk.out))
            && (r.CycleAt? ==> r.name in nodes && DependsOn(adj, r.name, r.name))
  {
    var u := set n | n in nodes;
    VisitAllCorrect(adj, u, Start, nodes, []);
    var r := VisitAll(adj, u, Start, nodes);
    if r.Finished? {
      var out := r.walk.out;
      OrderedIsAcyclic(adj, out);
      forall n ensures n in out <==> n in nodes {
        if n in out { assert n in r.walk.mark; }
      }
      assert u == set n | n in out;
      SameElementsPermute(out, nodes);
    }
  }
}
