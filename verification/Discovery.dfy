/** The order in which buildEnabledServiceDAG discovers the services, as a function of its inputs
    (enabled_dag.go). */
module Discovery {
  import opened Options
  import opened Sorting
  import opened EnabledDag
  import Text
  import T = Topology

  /** Every name the builder can ever meet: the finite unit universe. */
  ghost function Universe(host: Host, roots: Roots, units: Units): set<string>
  {
    (set raw | raw in roots.standalone :: host.norm(raw))
    + (set g, raw | g in roots.groups && raw in roots.groups[g] :: host.norm(raw))
    + (set a, raw | a in units && raw in RawDeps(units, a) :: host.norm(raw))
  }

  /** The group names in order. */
  ghost function GroupNames(roots: Roots): seq<string> { SortBy(Text.Less, Listing(roots.groups.Keys)) }

  function ListGroups(host: Host, roots: Roots, nodes: seq<string>, names: seq<string>): seq<string>
  {
    if names == [] then nodes
    else
      var n := |names| - 1;
      var before := ListGroups(host, roots, nodes, names[..n]);
      if names[n] in roots.groups then ListNames(host, before, roots.groups[names[n]]) else before
  }

  /** The standalone roots, then the members of each group. */
  ghost function RootNames(host: Host, roots: Roots): seq<string>
  {
    ListGroups(host, roots, ListNames(host, [], roots.standalone), GroupNames(roots))
  }

  /** The new names of one unit, list by list. */
  function ListUnit(host: Host, nodes: seq<string>, u: Unit): seq<string>
  {
    var n1 := ListNames(host, nodes, u.requires_);
    var n2 := ListNames(host, n1, u.wants);
    var n3 := ListNames(host, n2, u.after);
    var n4 := ListNames(host, n3, u.bindsTo);
    ListNames(host, n4, u.partOf)
  }

  function ListDeps(host: Host, nodes: seq<string>, units: Units, name: string): seq<string>
  {
    if name in units && units[name].Found? then ListUnit(host, nodes, units[name].unit) else nodes
  }

  lemma ListDepsIsRaw(host: Host, nodes: seq<string>, units: Units, name: string)
    ensures ListNames(host, nodes, RawDeps(units, name)) == ListDeps(host, nodes, units, name)
  {
    if name in units && units[name].Found? {
      var u := units[name].unit;
      ListConcat(host, nodes, u.requires_, u.wants);
      ListConcat(host, nodes, u.requires_ + u.wants, u.after);
      ListConcat(host, nodes, u.requires_ + u.wants + u.after, u.bindsTo);
      ListConcat(host, nodes, u.requires_ + u.wants + u.after + u.bindsTo, u.partOf);
      hide ListNames;
    }
  }

  /** The services discovered when `k` of them have been looked up. */
  ghost function Explored(host: Host, roots: Roots, units: Units, k: nat): seq<string>
  {
    if k == 0 then RootNames(host, roots)
    else
      var before := Explored(host, roots, units, k - 1);
      if k - 1 < |before| then ListDeps(host, before, units, before[k - 1]) else before
  }

  /** All of them, in discovery order: after as many look-ups as there are names, nothing is new. */
  ghost function DiscoveryOrder(host: Host, roots: Roots, units: Units): seq<string>
  {
    Explored(host, roots, units, |Universe(host, roots, units)|)
  }

  lemma {:induction false} ExploredGrows(host: Host, roots: Roots, units: Units, k: nat, m: nat)
    requires k <= m
    ensures Explored(host, roots, units, k) <= Explored(host, roots, units, m)
    decreases m
  {
    if k < m {
      ExploredGrows(host, roots, units, k, m - 1);
      var before := Explored(host, roots, units, m - 1);
      if m - 1 < |before| {
        ListGrows(host, before, RawDeps(units, before[m - 1]));
        ListDepsIsRaw(host, before, units, before[m - 1]);
      }
      hide ListDeps, ListNames, RawDeps;
    }
  }

  /** When all discovered services have been looked up, the order stands. */
  lemma {:induction false} ExploredStable(host: Host, roots: Roots, units: Units, k: nat, m: nat)
    requires k <= m && |Explored(host, roots, units, k)| <= k
    ensures Explored(host, roots, units, m) == Explored(host, roots, units, k)
    decreases m
  {
    if k < m {
      ExploredStable(host, roots, units, k, m - 1);
    }
  }

  predicate Fails(units: Units, name: string) { name in units && units[name].Failed? }

  /** The first service whose lookup fails. */
  function FirstFailed(units: Units, nodes: seq<string>): Option<string>
  {
    if nodes == [] then None
    else
      var n := |nodes| - 1;
      var before := FirstFailed(units, nodes[..n]);
      if before.None? && Fails(units, nodes[n]) then Some(nodes[n]) else before
  }

  lemma FirstFailedSnoc(units: Units, nodes: seq<string>, i: nat)
    requires i < |nodes| && FirstFailed(units, nodes[..i]).None?
    ensures FirstFailed(units, nodes[..i + 1]) == if Fails(units, nodes[i]) then Some(nodes[i]) else None
  {
    assert nodes[..i + 1][..i] == nodes[..i];
  }

  lemma {:induction false} FirstFailedStays(units: Units, nodes: seq<string>, more: seq<string>)
    requires nodes <= more && FirstFailed(units, nodes).Some?
    ensures FirstFailed(units, more) == FirstFailed(units, nodes)
    decreases |more|
  {
    if nodes != more {
      assert nodes <= more[..|more| - 1];
      FirstFailedStays(units, nodes, more[..|more| - 1]);
    }
  }

  /** The recorded edges: the accepted dependencies of the services that name any. */
  function EdgesOf(host: Host, units: Units, nodes: seq<string>): map<string, set<string>>
  {
    map n | n in nodes && RawDeps(units, n) != [] :: AcceptedDeps(host, n, RawDeps(units, n))
  }

  lemma EdgesSnoc(host: Host, units: Units, nodes: seq<string>, n: string)
    ensures EdgesOf(host, units, nodes + [n]) ==
              var raws := RawDeps(units, n);
              if raws == [] then EdgesOf(host, units, nodes)
                  else EdgesOf(host, units, nodes)[n := AcceptedDeps(host, n, raws)]
  {
    hide RawDeps, AcceptedDeps;
  }

  /** The hint of a service: where it was discovered. */
  ghost function HintOf(nodes: seq<string>): map<string, int>
  {
    map n | n in nodes :: var i :| 0 <= i < |nodes| && nodes[i] == n; i
  }

  lemma HintsDetermined(nodes: seq<string>, hint: map<string, int>)
    requires HintsIndex(nodes, hint)
    ensures hint == HintOf(nodes)
  {
  }

  /** The dependency lists as the search visits them. */
  ghost function AdjacencyOf(deps: map<string, set<string>>, hint: map<string, int>): T.Adjacency
  {
    map n | n in deps :: SortBy(ByHint(hint), Listing(deps[n]))
  }

  /** The topological order of the graph of these services. */
  ghost function OrderOf(host: Host, units: Units, nodes: seq<string>): Order
  {
    var adj, all := AdjacencyOf(EdgesOf(host, units, nodes), HintOf(nodes)), set n | n in nodes;
    if !T.Closed(adj, all) then Cyclic("")
    else
      match T.VisitAll(adj, all, T.Start, nodes)
      case CycleAt(c) => Cyclic(c)
      case Finished(w) => Ordered(KeepLines(SplitLines(JoinLines(w.out)), []))
  }

  lemma GraphOrder(host: Host, units: Units, dag: ServiceDag)
    requires dag.Valid() && dag.depsByNode == EdgesOf(host, units, dag.nodes)
    requires T.Closed(dag.Adjacency(), dag.NodeSet())
    ensures OrderOf(host, units, dag.nodes) ==
              match T.VisitAll(dag.Adjacency(), dag.NodeSet(), T.Start, dag.nodes)
              case CycleAt(c) => Cyclic(c)
              case Finished(w) => Ordered(KeepLines(SplitLines(JoinLines(w.out)), []))
  {
    HintsDetermined(dag.nodes, dag.orderHint);
    assert dag.Adjacency() == AdjacencyOf(dag.depsByNode, dag.orderHint);
    hide EdgesOf, HintOf, AdjacencyOf, T.VisitAll, T.Closed, KeepLines, SplitLines, JoinLines;
  }
}
