/** The topology rule shared by the status view and the manifest: primary edges are absent or form
    one simple path that ends at the service (internal/statusview/model.go,
    internal/visionapi/status_manifest.go). */
module PrimaryPath {
  import opened Sorting

  /** The endpoints of a primary edge. */
  type Pair = (string, string)

  /** The consecutive pairs of a path. */
  function Links(p: seq<string>): seq<Pair>
  {
    if |p| < 2 then [] else seq(|p| - 1, i requires 0 <= i < |p| - 1 => (p[i], p[i + 1]))
  }

  /** The primary edges are none at all, or exactly the links of one simple path to the service. */
  ghost predicate PathTo(pairs: seq<Pair>, service: string)
  {
    pairs == [] || exists p :: PathWitness(pairs, service, p)
  }

  ghost predicate PathWitness(pairs: seq<Pair>, service: string, p: seq<string>)
  {
    |p| >= 2 && NoDuplicates(p) && p[|p| - 1] == service && multiset(pairs) == multiset(Links(p))
  }

  ghost predicate Functional(pairs: seq<Pair>)
  {
    forall i, j | 0 <= i < j < |pairs| :: pairs[i].0 != pairs[j].0
  }

  ghost predicate Injective(pairs: seq<Pair>)
  {
    forall i, j | 0 <= i < j < |pairs| :: pairs[i].1 != pairs[j].1
  }

  ghost function Froms(pairs: seq<Pair>): set<string> { set q | q in pairs :: q.0 }

  ghost function Tos(pairs: seq<Pair>): set<string> { set q | q in pairs :: q.1 }

  ghost function Touched(pairs: seq<Pair>): set<string> { Froms(pairs) + Tos(pairs) }

  /** The counters both validators fill: degrees, successor and touched nodes. */
  datatype Counts = Counts(incoming: map<string, nat>, outgoing: map<string, nat>, next: map<string, string>,
                           touched: set<string>)

  const NoCounts := Counts(map[], map[], map[], {})

  function Get(m: map<string, nat>, x: string): nat { if x in m then m[x] else 0 }

  /** Count one primary edge; `branches` is the early error of both loops. */
  function Count(c: Counts, q: Pair): Counts
  {
    Counts(c.incoming[q.1 := Get(c.incoming, q.1) + 1], c.outgoing[q.0 := Get(c.outgoing, q.0) + 1],
           c.next[q.0 := q.1], c.touched + {q.0, q.1})
  }

  predicate Branches(c: Counts, q: Pair)
  {
    Get(Count(c, q).outgoing, q.0) > 1 || Get(Count(c, q).incoming, q.1) > 1
  }

  /** What the counters know after the pairs, none of which branched. */
  ghost predicate Counted(pairs: seq<Pair>, c: Counts)
  {
    && Functional(pairs) && Injective(pairs)
    && c.touched == Touched(pairs)
    && (forall x :: Get(c.outgoing, x) == if x in Froms(pairs) then 1 else 0)
    && (forall x :: Get(c.incoming, x) == if x in Tos(pairs) then 1 else 0)
    && (forall x, y :: (x in c.next && c.next[x] == y) <==> (x, y) in pairs)
  }

  lemma CountsStart()
    ensures Counted([], NoCounts)
  {
  }

  lemma MoreEnds(pairs: seq<Pair>, q: Pair)
    ensures Froms(pairs + [q]) == Froms(pairs) + {q.0} && Tos(pairs + [q]) == Tos(pairs) + {q.1}
  {
    assert q in pairs + [q];
    forall r | r in pairs ensures r in pairs + [q] { }
  }

  lemma FunctionalSnoc(pairs: seq<Pair>, q: Pair)
    requires Functional(pairs)
    ensures Functional(pairs + [q]) <==> q.0 !in Froms(pairs)
  {
    var all := pairs + [q];
    if q.0 in Froms(pairs) {
      var i :| 0 <= i < |pairs| && pairs[i].0 == q.0;
      assert all[i].0 == all[|pairs|].0;
    }
  }

  lemma InjectiveSnoc(pairs: seq<Pair>, q: Pair)
    requires Injective(pairs)
    ensures Injective(pairs + [q]) <==> q.1 !in Tos(pairs)
  {
    var all := pairs + [q];
    if q.1 in Tos(pairs) {
      var i :| 0 <= i < |pairs| && pairs[i].1 == q.1;
      assert all[i].1 == all[|pairs|].1;
    }
  }

  lemma CountStep(pairs: seq<Pair>, c: Counts, q: Pair)
    requires Counted(pairs, c)
    ensures Branches(c, q) <==> !(Functional(pairs + [q]) && Injective(pairs + [q]))
    ensures !Branches(c, q) ==> Counted(pairs + [q], Count(c, q))
  {
    hide Functional, Injective, Froms, Tos;
    MoreEnds(pairs, q);
    FunctionalSnoc(pairs, q);
    InjectiveSnoc(pairs, q);
    if !Branches(c, q) {
      NextStep(pairs, c, q);
    }
  }

  lemma NextStep(pairs: seq<Pair>, c: Counts, q: Pair)
    requires forall x, y :: (x in c.next && c.next[x] == y) <==> (x, y) in pairs
    requires q.0 !in Froms(pairs)
    ensures var n := Count(c, q).next; forall x, y :: (x in n && n[x] == y) <==> (x, y) in pairs + [q]
  {
    assert forall r | r in pairs :: r.0 in Froms(pairs);
  }

  /** A branching pair can never be part of a path. */
  lemma PathIsCountable(pairs: seq<Pair>, service: string)
    requires PathTo(pairs, service)
    ensures Functional(pairs) && Injective(pairs)
  {
    if pairs != [] {
      var p :| PathWitness(pairs, service, p);
      var links := Links(p);
      LinksDistinct(p);
      forall i, j | 0 <= i < j < |pairs| ensures pairs[i].0 != pairs[j].0 && pairs[i].1 != pairs[j].1 {
        SamePairDifferentPlaces(pairs, links, p, i, j);
      }
    }
  }

  lemma LinksDistinct(p: seq<string>)
    requires NoDuplicates(p)
    ensures NoDuplicates(Links(p))
  {
    var links := Links(p);
    forall i, j | 0 <= i < j < |links| ensures links[i] != links[j] {
      assert links[i].0 == p[i] && links[j].0 == p[j];
    }
  }

  lemma SamePairDifferentPlaces(pairs: seq<Pair>, links: seq<Pair>, p: seq<string>, i: nat, j: nat)
    requires NoDuplicates(p) && links == Links(p) && multiset(pairs) == multiset(links) && NoDuplicates(links)
    requires i < j < |pairs|
    ensures pairs[i].0 != pairs[j].0 && pairs[i].1 != pairs[j].1
  {
    NoDuplicatesMultiset(links);
    NoDuplicatesMultiset(pairs);
    SameMultiset(pairs, links);
    assert pairs[i] != pairs[j] && pairs[i] in links && pairs[j] in links;
    var a :| 0 <= a < |links| && links[a] == pairs[i];
    var b :| 0 <= b < |links| && links[b] == pairs[j];
    assert a != b;
    if a < b {
      assert p[a] != p[b] && p[a + 1] != p[b + 1];
    } else {
      assert p[b] != p[a] && p[b + 1] != p[a + 1];
    }
  }

  // ----- the walk -----

  /** A chain of successors: what the walk has visited, in order. */
  ghost predicate Chain(next: map<string, string>, p: seq<string>)
  {
    && p != [] && NoDuplicates(p)
    && forall i | 0 <= i < |p| - 1 :: p[i] in next && next[p[i]] == p[i + 1]
  }

  /** From a root nothing leads back: the successor of the last node was not visited before. */
  lemma NoWayBack(pairs: seq<Pair>, c: Counts, p: seq<string>)
    requires Counted(pairs, c) && Chain(c.next, p) && p[0] !in Tos(pairs) && p[|p| - 1] in c.next
    ensures c.next[p[|p| - 1]] !in p
  {
    var last := p[|p| - 1];
    var y := c.next[last];
    assert (last, y) in pairs;
    assert y in Tos(pairs);
    forall k | 0 <= k < |p| ensures p[k] != y {
      if k > 0 {
        var prev := p[k - 1];
        assert prev != last;
        assert c.next[prev] == p[k];
        assert (prev, p[k]) in pairs;
        DistinctTargets(pairs, (prev, p[k]), (last, y));
      }
    }
  }

  lemma DistinctTargets(pairs: seq<Pair>, a: Pair, b: Pair)
    requires Injective(pairs) && a in pairs && b in pairs && a != b
    ensures a.1 != b.1
  {
    var i :| 0 <= i < |pairs| && pairs[i] == a;
    var j :| 0 <= j < |pairs| && pairs[j] == b;
    if i < j { assert pairs[i].1 != pairs[j].1; } else { assert pairs[j].1 != pairs[i].1; }
  }

  datatype Verdict = Fine | Cycle | Disconnected

  /** Walk the successors from the root until there is none; the cycle branch is never taken. */
  method Walk(ghost pairs: seq<Pair>, c: Counts, root: string) returns (v: Verdict, ghost path: seq<string>)
    requires Counted(pairs, c) && root in c.touched && root !in Tos(pairs)
    requires "" !in c.touched
    ensures v != Cycle
    ensures Chain(c.next, path) && path[0] == root && path[|path| - 1] !in c.next
    ensures v.Fine? <==> (set x | x in path) == c.touched
  {
    var visited: set<string> := {};
    var current := root;
    var cycle := false;
    path := [];
    while current != "" && !cycle
      invariant !cycle && visited == (set x | x in path) && visited <= c.touched
      invariant current != "" ==>
                  current in c.touched && Chain(c.next, path + [current]) && (path + [current])[0] == root
      invariant current == "" ==> Chain(c.next, path) && path[0] == root && path[|path| - 1] !in c.next
      decreases c.touched - visited, current != ""
    {
      ChainFresh(c.next, path, current);
      if current in visited {
        cycle := true;
      } else {
        var p := path + [current];
        visited := visited + {current};
        if current in c.next {
          NoWayBack(pairs, c, p);
          SuccessorTouched(pairs, c, current);
          ChainExtend(c.next, p, c.next[current]);
        }
        path := p;
        current := if current in c.next then c.next[current] else "";
      }
    }
    SubsetCardinality(visited, c.touched);
    v := if cycle then Cycle else if |visited| != |c.touched| then Disconnected else Fine;
  }

  lemma ChainFresh(next: map<string, string>, p: seq<string>, x: string)
    requires Chain(next, p + [x])
    ensures x !in p
  {
    var all := p + [x];
    forall i | 0 <= i < |p| ensures p[i] != x {
      assert all[i] != all[|p|];
    }
  }

  lemma ChainExtend(next: map<string, string>, p: seq<string>, y: string)
    requires Chain(next, p) && p[|p| - 1] in next && next[p[|p| - 1]] == y && y !in p
    ensures Chain(next, p + [y])
  {
  }

  lemma SuccessorTouched(pairs: seq<Pair>, c: Counts, x: string)
    requires Counted(pairs, c) && x in c.next
    ensures c.next[x] in c.touched
  {
    assert (x, c.next[x]) in pairs;
  }

  lemma SubsetCardinality(a: set<string>, b: set<string>)
    requires a <= b
    ensures |a| == |b| <==> a == b
  {
    assert b == a + (b - a);
  }

  // ----- roots, terminals and the verdict -----

  lemma PairsOfChain(pairs: seq<Pair>, c: Counts, p: seq<string>)
    requires Counted(pairs, c) && Chain(c.next, p) && |p| >= 2
    requires p[|p| - 1] !in c.next && (set x | x in p) == c.touched
    ensures multiset(pairs) == multiset(Links(p))
  {
    var links := Links(p);
    LinksDistinct(p);
    forall i, j | 0 <= i < j < |pairs| ensures pairs[i] != pairs[j] {
      assert pairs[i].0 != pairs[j].0;
    }
    forall q: Pair ensures q in pairs <==> q in links {
      if q in links {
        var i :| 0 <= i < |links| && links[i] == q;
        assert c.next[p[i]] == p[i + 1];
      }
      if q in pairs {
        PairInChain(pairs, c, p, q);
      }
    }
    SameElementsPermute(pairs, links);
  }

  lemma PairInChain(pairs: seq<Pair>, c: Counts, p: seq<string>, q: Pair)
    requires Counted(pairs, c) && Chain(c.next, p) && |p| >= 2
    requires p[|p| - 1] !in c.next && (set x | x in p) == c.touched && q in pairs
    ensures q in Links(p)
  {
    assert (q.0, q.1) in pairs;
    assert q.0 in Froms(pairs);
    assert q.0 in p;
    var i :| 0 <= i < |p| && p[i] == q.0;
    assert Links(p)[i] == q;
  }

  lemma SameEnds(pairs: seq<Pair>, links: seq<Pair>)
    requires forall q :: q in pairs <==> q in links
    ensures Froms(pairs) == Froms(links) && Tos(pairs) == Tos(links)
  {
  }

  lemma LinkFroms(p: seq<string>)
    requires |p| >= 2
    ensures forall x :: x in Froms(Links(p)) <==> x in p[..|p| - 1]
  {
    var n, links := |p| - 1, Links(p);
    forall x ensures x in Froms(links) <==> x in p[..n] {
      if x in p[..n] {
        var i :| 0 <= i < n && p[..n][i] == x;
        assert links[i] in links && links[i].0 == x;
      }
      if x in Froms(links) {
        var q :| q in links && q.0 == x;
        var i :| 0 <= i < n && links[i] == q;
        assert p[..n][i] == x;
      }
    }
  }

  lemma LinkTos(p: seq<string>)
    requires |p| >= 2
    ensures forall x :: x in Tos(Links(p)) <==> x in p[1..]
  {
    var n, links := |p| - 1, Links(p);
    forall x ensures x in Tos(links) <==> x in p[1..] {
      if x in p[1..] {
        var i :| 0 <= i < n && p[1..][i] == x;
        assert links[i] in links && links[i].1 == x;
      }
      if x in Tos(links) {
        var q :| q in links && q.1 == x;
        var i :| 0 <= i < n && links[i] == q;
        assert p[1..][i] == x;
      }
    }
  }

  lemma SplitEnds(p: seq<string>)
    requires |p| >= 2 && NoDuplicates(p)
    ensures forall x :: x in p <==> x == p[0] || x in p[1..]
    ensures forall x :: x in p <==> x in p[..|p| - 1] || x == p[|p| - 1]
    ensures p[0] !in p[1..] && p[|p| - 1] !in p[..|p| - 1] && p[|p| - 1] in p[1..] && p[0] in p[..|p| - 1]
  {
    var n := |p| - 1;
    assert p == p[..n] + [p[n]] && p == [p[0]] + p[1..];
    assert p[1..][n - 1] == p[n] && p[..n][0] == p[0];
  }

  /** A path witness is the chain the counters describe, from its one root to its one terminal. */
  lemma WitnessChain(pairs: seq<Pair>, c: Counts, service: string, p: seq<string>)
    requires Counted(pairs, c) && PathWitness(pairs, service, p)
    ensures Chain(c.next, p) && p[|p| - 1] !in c.next && (set x | x in p) == c.touched
    ensures p[0] !in Tos(pairs) && service !in Froms(pairs)
    ensures forall x | x in c.touched && x !in Tos(pairs) :: x == p[0]
    ensures forall x | x in c.touched && x !in Froms(pairs) :: x == service
  {
    var links := Links(p);
    SameMultiset(pairs, links);
    SameEnds(pairs, links);
    LinkFroms(p);
    LinkTos(p);
    SplitEnds(p);
    forall i | 0 <= i < |links| ensures links[i] in pairs { assert links[i] in links; }
    LinkedChain(pairs, c, p);
    NextIsFrom(pairs, c, p[|p| - 1]);
  }

  lemma LinkedChain(pairs: seq<Pair>, c: Counts, p: seq<string>)
    requires Counted(pairs, c) && |p| >= 2 && NoDuplicates(p)
    requires forall i | 0 <= i < |Links(p)| :: Links(p)[i] in pairs
    ensures Chain(c.next, p)
  {
    forall i | 0 <= i < |p| - 1 ensures p[i] in c.next && c.next[p[i]] == p[i + 1] {
      assert Links(p)[i] in pairs;
      PairIsNext(pairs, c, p[i], p[i + 1]);
    }
    hide *;
    ChainByLinks(c.next, p);
  }

  lemma ChainByLinks(next: map<string, string>, p: seq<string>)
    requires p != [] && NoDuplicates(p) && forall i | 0 <= i < |p| - 1 :: p[i] in next && next[p[i]] == p[i + 1]
    ensures Chain(next, p)
  {
  }

  lemma PairIsNext(pairs: seq<Pair>, c: Counts, x: string, y: string)
    requires Counted(pairs, c) && (x, y) in pairs
    ensures x in c.next && c.next[x] == y
  {
  }

  lemma NextIsFrom(pairs: seq<Pair>, c: Counts, x: string)
    requires Counted(pairs, c)
    ensures x in c.next <==> x in Froms(pairs)
  {
    if x in c.next {
      assert (x, c.next[x]) in pairs;
    }
    if x in Froms(pairs) {
      var q :| q in pairs && q.0 == x;
      assert (q.0, q.1) in pairs;
    }
  }

  lemma {:induction false} ChainsAgree(next: map<string, string>, p: seq<string>, q: seq<string>, k: nat)
    requires Chain(next, p) && Chain(next, q) && p[0] == q[0] && p[|p| - 1] !in next && q[|q| - 1] !in next
    requires k < |p|
    ensures k < |q| && p[k] == q[k]
  {
    if k > 0 {
      ChainsAgree(next, p, q, k - 1);
      var i := k - 1;
      assert p[i] in next && next[p[i]] == p[i + 1];
      assert i < |q| - 1;
    }
  }

  lemma ChainCovers(next: map<string, string>, p: seq<string>, q: seq<string>)
    requires Chain(next, p) && Chain(next, q) && p[0] == q[0] && p[|p| - 1] !in next && q[|q| - 1] !in next
    ensures p == q
  {
    forall k | 0 <= k < |p| ensures k < |q| && p[k] == q[k] { ChainsAgree(next, p, q, k); }
    forall k | 0 <= k < |q| ensures k < |p| && p[k] == q[k] { ChainsAgree(next, q, p, k); }
  }

  /** Collect the touched nodes whose degree is zero, in map iteration order. */
  method ZeroDegree(touched: set<string>, degree: map<string, nat>) returns (zero: seq<string>)
    ensures NoDuplicates(zero) && forall x :: x in zero <==> x in touched && Get(degree, x) == 0
  {
    zero := [];
    var rest := touched;
    while rest != {}
      invariant rest <= touched && NoDuplicates(zero)
      invariant forall x :: x in zero <==> x in touched - rest && Get(degree, x) == 0
      decreases rest
    {
      var x :| x in rest;
      assert x !in zero;
      rest := rest - {x};
      if Get(degree, x) == 0 { zero := zero + [x]; }
    }
  }

  lemma WalkedIsPath(pairs: seq<Pair>, c: Counts, service: string, path: seq<string>)
    requires Counted(pairs, c) && pairs != []
    requires Chain(c.next, path) && path[0] !in Tos(pairs) && path[|path| - 1] !in c.next
    requires (set x | x in path) == c.touched
    requires forall x | x in c.touched && x !in Froms(pairs) :: x == service
    ensures PathTo(pairs, service)
  {
    var last := path[|path| - 1];
    assert last in path && last in c.touched;
    NextIsFrom(pairs, c, last);
    assert pairs[0] in pairs && pairs[0].1 in Tos(pairs) && pairs[0].1 in path;
    var i :| 0 <= i < |path| && path[i] == pairs[0].1;
    assert i != 0;
    PairsOfChain(pairs, c, path);
    assert PathWitness(pairs, service, path);
  }

  lemma PathShape(pairs: seq<Pair>, c: Counts, service: string, roots: seq<string>, terminals: seq<string>)
    returns (way: seq<string>)
    requires Counted(pairs, c) && PathTo(pairs, service) && pairs != []
    requires NoDuplicates(roots) && forall x :: x in roots <==> x in c.touched && x !in Tos(pairs)
    requires NoDuplicates(terminals) && forall x :: x in terminals <==> x in c.touched && x !in Froms(pairs)
    ensures way != [] && roots == [way[0]] && terminals == [service]
    ensures Chain(c.next, way) && way[|way| - 1] !in c.next && (set x | x in way) == c.touched
  {
    way :| PathWitness(pairs, service, way);
    WitnessChain(pairs, c, service, way);
    assert way[0] in way && service in way;
    SingletonSeq(roots, way[0]);
    SingletonSeq(terminals, service);
  }

  lemma WalkVerdict(pairs: seq<Pair>, c: Counts, service: string, path: seq<string>)
    requires Counted(pairs, c) && pairs != []
    requires Chain(c.next, path) && path[0] !in Tos(pairs) && path[|path| - 1] !in c.next
    requires forall x | x in c.touched && x !in Froms(pairs) :: x == service
    requires forall x | x in c.touched && x !in Tos(pairs) :: x == path[0]
    requires service in c.touched && service !in Froms(pairs) && path[0] in c.touched
    ensures (set x | x in path) == c.touched <==> PathTo(pairs, service)
  {
    if (set x | x in path) == c.touched {
      WalkedIsPath(pairs, c, service, path);
    }
    if PathTo(pairs, service) {
      var way :| PathWitness(pairs, service, way);
      WitnessChain(pairs, c, service, way);
      assert way[0] in way;
      ChainCovers(c.next, path, way);
    }
  }

  /** One root, the service as the one terminal, and a walk that reaches everything: that is a path. */
  method EndsAtService(ghost pairs: seq<Pair>, c: Counts, service: string) returns (ok: bool)
    requires Counted(pairs, c) && pairs != [] && "" !in c.touched
    ensures ok <==> PathTo(pairs, service)
  {
    var roots := ZeroDegree(c.touched, c.incoming);
    var terminals := ZeroDegree(c.touched, c.outgoing);
    assert forall x :: x in roots <==> x in c.touched && x !in Tos(pairs);
    assert forall x :: x in terminals <==> x in c.touched && x !in Froms(pairs);
    if PathTo(pairs, service) {
      ghost var way := PathShape(pairs, c, service, roots, terminals);
    }
    hide *;
    if |roots| != 1 { return false; }
    if |terminals| != 1 || terminals[0] != service { return false; }
    assert roots[0] in roots && terminals[0] in terminals;
    var v, path := Walk(pairs, c, roots[0]);
    WalkVerdict(pairs, c, service, path);
    ok := v.Fine?;
  }

  lemma SingletonSeq(xs: seq<string>, x: string)
    requires NoDuplicates(xs) && x in xs && forall y | y in xs :: y == x
    ensures xs == [x]
  {
    SameElementsPermute(xs, [x]);
    SameMultiset(xs, [x]);
    assert xs[0] in xs;
  }
}
