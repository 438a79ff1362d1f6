/** buildEnabledServiceDAG */
module EnabledDagBuilder {
  import opened Options
  import opened Sorting
  import Text
  import opened EnabledDag
  import opened Discovery

  datatype Build = Built(dag: ServiceDag) | LookupFailed(name: string)

  lemma EnabledRoot(host: Host, roots: Roots, units: Units, n: string)
    requires IsRoot(host, roots, n)
    ensures Enabled(host, roots, units, n)
  {
  }

  lemma EnabledStep(host: Host, roots: Roots, units: Units, a: string, b: string)
    requires Enabled(host, roots, units, a) && DirectDep(host, units, a, b)
    ensures Enabled(host, roots, units, b)
  {
  }

  ghost predicate StandaloneRoot(host: Host, raws: seq<string>, n: string)
  {
    n != "" && exists raw :: raw in raws && host.norm(raw) == n
  }

  ghost predicate GroupHas(host: Host, roots: Roots, g: string, n: string)
  {
    g in roots.groups && StandaloneRoot(host, roots.groups[g], n)
  }

  /** A standalone root owns itself; any other root belongs to the alphabetically first group naming it. */
  ghost predicate OwnedBy(host: Host, roots: Roots, n: string, owner: string)
  {
    if StandaloneRoot(host, roots.standalone, n) then owner == host.unitOwner(n)
    else exists g :: GroupHas(host, roots, g, n) && owner == host.groupOwner(g)
                  && forall g' | GroupHas(host, roots, g', n) :: !Text.Less(g', g)
  }

  lemma DistinctFits(xs: seq<string>, u: set<string>)
    requires NoDuplicates(xs) && forall x | x in xs :: x in u
    ensures |xs| <= |u|
  {
    var s := set x | x in xs;
    DistinctCount(xs);
    assert s <= u;
    assert u == s + (u - s);
  }

  lemma {:induction false} DistinctCount(xs: seq<string>)
    requires NoDuplicates(xs)
    ensures |set x | x in xs| == |xs|
  {
    if xs != [] {
      var n := |xs| - 1;
      DistinctCount(xs[..n]);
      assert (set x | x in xs) == (set x | x in xs[..n]) + {xs[n]};
      assert xs[n] !in xs[..n];
    }
  }

  /** sort.Strings over the group names, in whatever order the map gave them. */
  method SortedGroupNames(roots: Roots) returns (names: seq<string>)
    ensures NoDuplicates(names) && forall g :: g in names <==> g in roots.groups
    ensures forall i, j | 0 <= i < j < |names| :: Text.Less(names[i], names[j])
    ensures names == GroupNames(roots)
  {
    names := [];
    var rest := roots.groups.Keys;
    while rest != {}
      invariant rest <= roots.groups.Keys
      invariant NoDuplicates(names) && forall g :: g in names <==> g in roots.groups.Keys - rest
      decreases rest
    {
      var g :| g in rest;
      assert g !in names;
      names := names + [g];
      rest := rest - {g};
    }
    SortedNames(names, roots.groups.Keys);
    names := SortBy(Text.Less, names);
  }

  /** Sorting removes the iteration order. */
  lemma SortedNames(names: seq<string>, keys: set<string>)
    requires NoDuplicates(names) && forall g :: g in names <==> g in keys
    ensures var sorted := SortBy(Text.Less, names);
            && sorted == SortBy(Text.Less, Listing(keys)) && NoDuplicates(sorted)
            && (forall g :: g in sorted <==> g in keys)
            && (forall i, j | 0 <= i < j < |sorted| :: Text.Less(sorted[i], sorted[j]))
  {
    Text.LessLinear();
    hide Text.Less, Listing;
    SortPermutes(Text.Less, names);
    LinearIsWeak(Text.Less, names);
    SortSorts(Text.Less, names);
    SortNoDuplicates(Text.Less, names);
    SameElementsPermute(names, Listing(keys));
    SortCanonical(Text.Less, names, Listing(keys));
    var sorted := SortBy(Text.Less, names);
    hide SortBy;
    forall i, j | 0 <= i < j < |sorted| ensures Text.Less(sorted[i], sorted[j]) {
      assert sorted[i] != sorted[j] && !Text.Less(sorted[j], sorted[i]);
    }
  }

  ghost predicate RootsSoFar(host: Host, roots: Roots, dag: ServiceDag)
    reads dag
  {
    && dag.Valid() && dag.depsByNode == map[]
    && (forall n :: n in dag.nodes <==> n in dag.ownerByUnit)
    && (forall n | n in dag.nodes :: IsRoot(host, roots, n))
  }

  /** One root name: discover it, and give it `owner` if it has none or if `claim` is set. */
  method AddRoot(host: Host, ghost roots: Roots, dag: ServiceDag, raw: string, owner: string -> string, claim: bool)
    requires RootsSoFar(host, roots, dag)
    requires host.norm(raw) != "" ==> IsRoot(host, roots, host.norm(raw))
    modifies dag
    ensures RootsSoFar(host, roots, dag)
    ensures dag.nodes == Listed(old(dag.nodes), host.norm(raw))
    ensures forall n :: n in dag.nodes <==> n in old(dag.nodes) || (n != "" && n == host.norm(raw))
    ensures dag.ownerByUnit == var n := host.norm(raw);
              if n == "" || (n in old(dag.ownerByUnit) && !claim) then old(dag.ownerByUnit)
              else old(dag.ownerByUnit)[n := owner(n)]
  {
    var service := host.norm(raw);
    if service == "" { return; }
    dag.Discover(service);
    if claim || service !in dag.ownerByUnit {
      dag.ownerByUnit := dag.ownerByUnit[service := owner(service)];
    }
  }

  method AddStandalone(host: Host, roots: Roots, dag: ServiceDag)
    requires RootsSoFar(host, roots, dag) && dag.nodes == [] && dag.ownerByUnit == map[]
    modifies dag
    ensures RootsSoFar(host, roots, dag)
    ensures NodesGrow(host, [], dag.nodes, roots.standalone) && dag.nodes == ListNames(host, [], roots.standalone)
    ensures forall n | n in dag.ownerByUnit :: dag.ownerByUnit[n] == host.unitOwner(n)
  {
    assert dag.nodes == ListNames(host, [], roots.standalone[..0]);
    hide RootsSoFar, ListNames, Listed;
    assert roots.standalone[..|roots.standalone|] == roots.standalone;
    for i := 0 to |roots.standalone|
      invariant RootsSoFar(host, roots, dag) && dag.nodes == ListNames(host, [], roots.standalone[..i])
      invariant NodesGrow(host, [], dag.nodes, roots.standalone[..i])
      invariant forall n | n in dag.ownerByUnit :: dag.ownerByUnit[n] == host.unitOwner(n)
    {
      StandaloneStep(host, roots.standalone, i);
      ListStep(host, [], roots.standalone, i);
      AddRoot(host, roots, dag, roots.standalone[i], host.unitOwner, true);
    }
  }

  lemma StandaloneStep(host: Host, raws: seq<string>, i: nat)
    requires i < |raws|
    ensures forall n :: StandaloneRoot(host, raws[..i + 1], n) <==>
                        StandaloneRoot(host, raws[..i], n) || (n != "" && n == host.norm(raws[i]))
  {
    assert raws[..i + 1] == raws[..i] + [raws[i]];
    forall n ensures StandaloneRoot(host, raws[..i + 1], n) <==>
                     StandaloneRoot(host, raws[..i], n) || (n != "" && n == host.norm(raws[i])) {
      assert forall raw :: raw in raws[..i + 1] <==> raw in raws[..i] || raw == raws[i];
    }
  }

  /** Owners are only added, and a new one is `owner`. */
  ghost predicate OwnersGrow(before: map<string, string>, after: map<string, string>, owner: string)
  {
    forall n | n in after :: after[n] == if n in before then before[n] else owner
  }

  ghost predicate NodesGrow(host: Host, before: seq<string>, after: seq<string>, raws: seq<string>)
  {
    forall n :: n in after <==> n in before || StandaloneRoot(host, raws, n)
  }

  lemma MembersAreRoots(host: Host, roots: Roots, group: string)
    requires group in roots.groups
    ensures forall i | 0 <= i < |roots.groups[group]| && host.norm(roots.groups[group][i]) != "" ::
              IsRoot(host, roots, host.norm(roots.groups[group][i]))
  {
    forall i | 0 <= i < |roots.groups[group]| && host.norm(roots.groups[group][i]) != ""
      ensures IsRoot(host, roots, host.norm(roots.groups[group][i]))
    {
      assert roots.groups[group][i] in roots.groups[group];
      assert InSomeGroup(host, roots, host.norm(roots.groups[group][i]));
    }
  }

  /** One group: a member without an owner yet gets the group's orchestrator. */
  method AddGroup(host: Host, roots: Roots, dag: ServiceDag, group: string)
    requires RootsSoFar(host, roots, dag) && group in roots.groups
    modifies dag
    ensures RootsSoFar(host, roots, dag)
    ensures NodesGrow(host, old(dag.nodes), dag.nodes, roots.groups[group])
    ensures dag.nodes == ListNames(host, old(dag.nodes), roots.groups[group])
    ensures OwnersGrow(old(dag.ownerByUnit), dag.ownerByUnit, host.groupOwner(group))
  {
    MembersAreRoots(host, roots, group);
    var raws := roots.groups[group];
    var owner := host.groupOwner(group);
    assert raws[..|raws|] == raws && dag.nodes == ListNames(host, dag.nodes, raws[..0]);
    hide RootsSoFar, IsRoot, ListNames, Listed;
    ghost var nodes, owners := dag.nodes, dag.ownerByUnit;
    for i := 0 to |raws|
      invariant RootsSoFar(host, roots, dag) && dag.nodes == ListNames(host, nodes, raws[..i])
      invariant NodesGrow(host, nodes, dag.nodes, raws[..i])
      invariant OwnersGrow(owners, dag.ownerByUnit, owner)
    {
      StandaloneStep(host, raws, i);
      ListStep(host, nodes, raws, i);
      AddRoot(host, roots, dag, raws[i], n => owner, false);
    }
  }

  ghost predicate NodesUpTo(host: Host, roots: Roots, names: seq<string>, i: nat, nodes: seq<string>)
    requires i <= |names|
  {
    forall n :: n in nodes <==>
                || StandaloneRoot(host, roots.standalone, n)
                || exists k :: 0 <= k < i && GroupHas(host, roots, names[k], n)
  }

  /** The owner is the unit's own, or that of the first of the listed groups that has the name. */
  ghost predicate OwnerUpTo(host: Host, roots: Roots, names: seq<string>, n: string, owner: string)
  {
    if StandaloneRoot(host, roots.standalone, n) then owner == host.unitOwner(n)
    else exists k :: 0 <= k < |names| && GroupHas(host, roots, names[k], n) && owner == host.groupOwner(names[k])
                  && forall k' | 0 <= k' < k :: !GroupHas(host, roots, names[k'], n)
  }

  ghost predicate OwnersUpTo(host: Host, roots: Roots, names: seq<string>, owners: map<string, string>)
  {
    forall n | n in owners :: OwnerUpTo(host, roots, names, n, owners[n])
  }

  lemma GroupNodes(host: Host, roots: Roots, names: seq<string>, i: nat, before: seq<string>, after: seq<string>)
    requires i < |names| && names[i] in roots.groups && NodesUpTo(host, roots, names, i, before)
    requires NodesGrow(host, before, after, roots.groups[names[i]])
    ensures NodesUpTo(host, roots, names, i + 1, after)
  {
    hide StandaloneRoot;
    assert forall n :: GroupHas(host, roots, names[i], n) <==> StandaloneRoot(host, roots.groups[names[i]], n);
    hide GroupHas;
    forall n ensures n in after <==>
                     || StandaloneRoot(host, roots.standalone, n)
                     || exists k :: 0 <= k < i + 1 && GroupHas(host, roots, names[k], n)
    {
      assert n in before <==>
             StandaloneRoot(host, roots.standalone, n) || exists k :: 0 <= k < i && GroupHas(host, roots, names[k], n);
    }
  }

  lemma GroupOwners(host: Host, roots: Roots, names: seq<string>, i: nat, before: seq<string>, after: seq<string>,
                    owners: map<string, string>, owners': map<string, string>)
    requires i < |names| && names[i] in roots.groups && NodesUpTo(host, roots, names, i, before)
    requires NodesGrow(host, before, after, roots.groups[names[i]])
    requires OwnersGrow(owners, owners', host.groupOwner(names[i])) && OwnersUpTo(host, roots, names, owners)
    requires (forall n :: n in before <==> n in owners) && (forall n :: n in after <==> n in owners')
    ensures OwnersUpTo(host, roots, names, owners')
  {
    hide StandaloneRoot;
    assert forall n :: GroupHas(host, roots, names[i], n) <==> StandaloneRoot(host, roots.groups[names[i]], n);
    hide GroupHas;
    forall n | n in owners' ensures OwnerUpTo(host, roots, names, n, owners'[n]) {
      if n in owners {
        assert OwnerUpTo(host, roots, names, n, owners[n]);
      } else {
        assert n !in before && GroupHas(host, roots, names[i], n);
      }
    }
  }

  method AddRoots(host: Host, roots: Roots, ghost units: Units, dag: ServiceDag)
    requires RootsSoFar(host, roots, dag) && dag.nodes == [] && dag.ownerByUnit == map[]
    modifies dag
    ensures RootsSoFar(host, roots, dag) && dag.nodes == RootNames(host, roots)
    ensures HasRoots(host, roots, dag.nodes) && Sound(host, roots, units, dag.nodes)
    ensures OwnersFaithful(host, roots, dag.ownerByUnit)
  {
    AddStandalone(host, roots, dag);
    var names := SortedGroupNames(roots);
    ghost var start := dag.nodes;
    SameKeys(host, roots, dag);
    StandaloneOnly(host, roots, names, dag.nodes, dag.ownerByUnit);
    assert start == ListGroups(host, roots, start, names[..0]);
    hide RootsSoFar, NodesUpTo, OwnersUpTo, ListGroups, ListNames, NodesGrow, OwnersGrow;
    for i := 0 to |names|
      invariant RootsSoFar(host, roots, dag) && dag.nodes == ListGroups(host, roots, start, names[..i])
      invariant NodesUpTo(host, roots, names, i, dag.nodes) && OwnersUpTo(host, roots, names, dag.ownerByUnit)
    {
      ghost var before, owners := dag.nodes, dag.ownerByUnit;
      SameKeys(host, roots, dag);
      assert names[i] in names;
      AddGroup(host, roots, dag, names[i]);
      SameKeys(host, roots, dag);
      GroupListed(host, roots, start, names, i);
      GroupNodes(host, roots, names, i, before, dag.nodes);
      GroupOwners(host, roots, names, i, before, dag.nodes, owners, dag.ownerByUnit);
    }
    assert names[..|names|] == names;
    SameKeys(host, roots, dag);
    RootsComplete(host, roots, units, names, dag.nodes, dag.ownerByUnit);
  }

  lemma SameKeys(host: Host, roots: Roots, dag: ServiceDag)
    requires RootsSoFar(host, roots, dag)
    ensures forall n :: n in dag.nodes <==> n in dag.ownerByUnit
  {
  }

  lemma StandaloneOnly(host: Host, roots: Roots, names: seq<string>, nodes: seq<string>, owners: map<string, string>)
    requires NodesGrow(host, [], nodes, roots.standalone) && forall n :: n in nodes <==> n in owners
    requires forall n | n in owners :: owners[n] == host.unitOwner(n)
    ensures NodesUpTo(host, roots, names, 0, nodes) && OwnersUpTo(host, roots, names, owners)
  {
  }

  lemma GroupListed(host: Host, roots: Roots, start: seq<string>, names: seq<string>, i: nat)
    requires i < |names| && names[i] in roots.groups
    ensures ListGroups(host, roots, start, names[..i + 1]) ==
              ListNames(host, ListGroups(host, roots, start, names[..i]), roots.groups[names[i]])
  {
    assert names[..i + 1][..i] == names[..i];
  }

  lemma RootsComplete(host: Host, roots: Roots, units: Units, names: seq<string>, nodes: seq<string>,
                      owners: map<string, string>)
    requires forall g :: g in names <==> g in roots.groups
    requires forall i, j | 0 <= i < j < |names| :: Text.Less(names[i], names[j])
    requires NodesUpTo(host, roots, names, |names|, nodes) && OwnersUpTo(host, roots, names, owners)
    requires forall n :: n in nodes <==> n in owners
    ensures HasRoots(host, roots, nodes) && Sound(host, roots, units, nodes) && OwnersFaithful(host, roots, owners)
  {
    forall n ensures n in nodes <==> IsRoot(host, roots, n) {
      RootIsListed(host, roots, names, n);
    }
    forall n | n in owners ensures OwnedBy(host, roots, n, owners[n]) {
      assert OwnerUpTo(host, roots, names, n, owners[n]);
      if !StandaloneRoot(host, roots.standalone, n) {
        var k :| 0 <= k < |names| && GroupHas(host, roots, names[k], n) && owners[n] == host.groupOwner(names[k])
                    && forall k' | 0 <= k' < k :: !GroupHas(host, roots, names[k'], n);
        FirstGroup(host, roots, names, n, k);
      }
    }
    InitialNodes(host, roots, units, nodes);
    hide Sound, IsRoot, OwnedBy, OwnersUpTo, NodesUpTo;
  }

  lemma RootIsListed(host: Host, roots: Roots, names: seq<string>, n: string)
    requires forall g :: g in names <==> g in roots.groups
    ensures IsRoot(host, roots, n) <==>
            || StandaloneRoot(host, roots.standalone, n)
            || exists k :: 0 <= k < |names| && GroupHas(host, roots, names[k], n)
  {
    if IsRoot(host, roots, n) && !StandaloneRoot(host, roots.standalone, n) {
      var g, raw :| g in roots.groups && raw in roots.groups[g] && host.norm(raw) == n;
      var k :| 0 <= k < |names| && names[k] == g;
      assert GroupHas(host, roots, names[k], n);
    }
    if k :| 0 <= k < |names| && GroupHas(host, roots, names[k], n) {
      var raw :| raw in roots.groups[names[k]] && host.norm(raw) == n;
      assert InSomeGroup(host, roots, n);
    }
  }

  ghost predicate HasRoots(host: Host, roots: Roots, nodes: seq<string>)
  {
    forall n | IsRoot(host, roots, n) :: n in nodes
  }

  lemma FirstGroup(host: Host, roots: Roots, names: seq<string>, n: string, k: nat)
    requires forall g :: g in names <==> g in roots.groups
    requires forall i, j | 0 <= i < j < |names| :: Text.Less(names[i], names[j])
    requires k < |names| && forall k' | 0 <= k' < k :: !GroupHas(host, roots, names[k'], n)
    ensures forall g | GroupHas(host, roots, g, n) :: !Text.Less(g, names[k])
  {
    forall g | GroupHas(host, roots, g, n) ensures !Text.Less(g, names[k]) {
      assert g in names;
      var m :| 0 <= m < |names| && names[m] == g;
      assert m >= k;
      Text.LessIrreflexive(g);
      if m > k && Text.Less(g, names[k]) {
        Text.LessTransitive(g, names[k], g);
      }
    }
  }

  lemma RootsStay(host: Host, roots: Roots, before: seq<string>, after: seq<string>)
    requires HasRoots(host, roots, before) && before <= after
    ensures HasRoots(host, roots, after)
  {
    assert forall n | n in before :: n in after;
  }

  /** What the worklist keeps about the first `idx` nodes. */
  ghost predicate Progress(host: Host, roots: Roots, units: Units, idx: nat, nodes: seq<string>, deps: map<string,
                           set<string>>)
  {
    && idx <= |nodes| && HasRoots(host, roots, nodes) && Sound(host, roots, units, nodes)
    && Processed(host, units, nodes[..idx], deps) && deps == EdgesOf(host, units, nodes[..idx])
  }

  lemma ProgressStep(host: Host, roots: Roots, units: Units, idx: nat, nodes: seq<string>, deps: map<string,
                     set<string>>)
    requires Progress(host, roots, units, idx, nodes, deps) && NoDuplicates(nodes) && idx < |nodes| &&
              !Fails(units, nodes[idx])
    ensures var raws := RawDeps(units, nodes[idx]); var nodes' := ListNames(host, nodes, raws);
            && nodes <= nodes' && nodes[idx] !in deps
            && Progress(host, roots, units, idx + 1, nodes',
                        if raws == [] then deps else deps[nodes[idx] := AcceptedDeps(host, nodes[idx], raws)])
  {
    var name, raws := nodes[idx], RawDeps(units, nodes[idx]);
    var nodes' := ListNames(host, nodes, raws);
    assert name !in nodes[..idx] && nodes[..idx + 1] == nodes[..idx] + [name];
    assert name !in deps && !(name in units && units[name].Failed?);
    ProcessedStep(host, units, nodes[..idx], deps, name);
    EdgesSnoc(host, units, nodes[..idx], name);
    ListGrows(host, nodes, raws);
    ListedAreAccepted(host, nodes, name, raws);
    hide Enabled, DirectDep, Sound, Processed, HasRoots, AcceptedDeps, ListNames, EdgesOf, RawDeps;
    assert nodes'[..idx + 1] == nodes[..idx + 1];
    SoundStep(host, roots, units, nodes, nodes', name);
    RootsStay(host, roots, nodes, nodes');
  }

  lemma NoNames(host: Host, nodes: seq<string>)
    ensures ListNames(host, nodes, []) == nodes
  {
  }

  /** One turn of the worklist loop: look the node up and record its dependencies. */
  method Expand(host: Host, ghost roots: Roots, units: Units, dag: ServiceDag, idx: nat)
    requires dag.Valid() && Progress(host, roots, units, idx, dag.nodes, dag.depsByNode)
    requires idx < |dag.nodes| && !Fails(units, dag.nodes[idx])
    modifies dag`nodes, dag`orderHint, dag`depsByNode
    ensures dag.Valid() && Progress(host, roots, units, idx + 1, dag.nodes, dag.depsByNode)
    ensures dag.nodes == ListNames(host, old(dag.nodes), RawDeps(units, old(dag.nodes)[idx])) &&
              old(dag.nodes) <= dag.nodes
  {
    var name := dag.nodes[idx];
    var raws := RawDeps(units, name);
    hide Progress, EdgesInside, AcceptedDeps, ListNames, RawDeps;
    ProgressStep(host, roots, units, idx, dag.nodes, dag.depsByNode);
    if raws == [] {
      NoNames(host, dag.nodes);
      return;
    }
    dag.AddDependencies(host, name, raws);
  }

  /** The nodes are the least saturated set, none of them failed to load, and the edges are
      exactly the direct dependencies. */
  ghost predicate Faithful(host: Host, roots: Roots, units: Units, nodes: seq<string>, deps: map<string, set<string>>)
  {
    && (forall n :: n in nodes <==> Enabled(host, roots, units, n))
    && (forall n | n in nodes && n in units :: !units[n].Failed?)
    && (forall a, b | a in nodes :: (a in deps && b in deps[a]) <==> DirectDep(host, units, a, b))
  }

  ghost predicate OwnersFaithful(host: Host, roots: Roots, owners: map<string, string>)
  {
    && (forall n :: n in owners <==> IsRoot(host, roots, n))
    && (forall n | n in owners :: OwnedBy(host, roots, n, owners[n]))
  }

  /** The graph is the one these inputs determine: the services in discovery order, with their edges. */
  ghost predicate IsGraphOf(host: Host, roots: Roots, units: Units, nodes: seq<string>, deps: map<string, set<string>>)
  {
    && nodes == DiscoveryOrder(host, roots, units) && deps == EdgesOf(host, units, nodes)
    && FirstFailed(units, nodes) == None
  }

  /** The worklist closure. On success the nodes are the least set that holds the normalized roots
      and is closed under the dependencies of found units, in the one discovery order of these inputs,
      the recorded edges are exactly the direct dependencies, and no enabled unit failed to load;
      otherwise the first in discovery order that did is reported. */
  method BuildEnabledServiceDag(host: Host, roots: Roots, units: Units) returns (r: Build)
    ensures match r
            case LookupFailed(n) =>
              && Enabled(host, roots, units, n) && n in units && units[n].Failed?
              && FirstFailed(units, DiscoveryOrder(host, roots, units)) == Some(n)
            case Built(dag) =>
              && fresh(dag) && dag.Valid() && Faithful(host, roots, units, dag.nodes, dag.depsByNode)
              && OwnersFaithful(host, roots, dag.ownerByUnit)
              && IsGraphOf(host, roots, units, dag.nodes, dag.depsByNode)
  {
    hide Enabled, IsRoot, DirectDep, HasRoots, Sound, Processed, Faithful, OwnersFaithful, RootsSoFar, EdgesInside;
    hide Universe, RawDeps, Explored, FirstFailed, EdgesOf, RootNames, IsGraphOf, ListNames, Progress, Fails;
    var dag := new ServiceDag();
    InitialState(host, roots, units, dag);
    AddRoots(host, roots, units, dag);
    ghost var universe := Universe(host, roots, units);
    ghost var owners := dag.ownerByUnit;
    AfterRoots(host, roots, units, dag);
    var idx := 0;
    while idx < |dag.nodes|
      invariant idx <= |dag.nodes| && dag.Valid() && fresh(dag) && dag.ownerByUnit == owners
      invariant Progress(host, roots, units, idx, dag.nodes, dag.depsByNode) &&
                WorkDone(host, roots, units, idx, dag.nodes)
      decreases |universe| - idx
    {
      ProgressFits(host, roots, units, idx, dag.nodes, dag.depsByNode);
      var name := dag.nodes[idx];
      if Fails(units, name) {
        ProgressNode(host, roots, units, idx, dag.nodes, dag.depsByNode);
        WorkFails(host, roots, units, idx, dag.nodes);
        return LookupFailed(name);
      }
      ghost var nodes := dag.nodes;
      Expand(host, roots, units, dag, idx);
      WorkGoesOn(host, roots, units, idx, nodes, dag.nodes);
      idx := idx + 1;
    }
    ProgressFits(host, roots, units, idx, dag.nodes, dag.depsByNode);
    ProgressEnds(host, roots, units, dag.nodes, dag.depsByNode);
    r := Built(dag);
  }

  /** The first `idx` services have been looked up without failure, and `nodes` is what is known then. */
  ghost predicate WorkDone(host: Host, roots: Roots, units: Units, idx: nat, nodes: seq<string>)
  {
    idx <= |nodes| && nodes == Explored(host, roots, units, idx) && FirstFailed(units, nodes[..idx]) == None
  }

  lemma ProgressFits(host: Host, roots: Roots, units: Units, idx: nat, nodes: seq<string>, deps: map<string,
                     set<string>>)
    requires Progress(host, roots, units, idx, nodes, deps) && NoDuplicates(nodes)
    ensures |nodes| <= |Universe(host, roots, units)|
  {
    SoundFits(host, roots, units, nodes);
    hide Sound, Universe;
  }

  lemma ProgressNode(host: Host, roots: Roots, units: Units, idx: nat, nodes: seq<string>, deps: map<string,
                     set<string>>)
    requires Progress(host, roots, units, idx, nodes, deps) && idx < |nodes| && Fails(units, nodes[idx])
    ensures Enabled(host, roots, units, nodes[idx]) && nodes[idx] in units && units[nodes[idx]].Failed?
  {
    SoundNode(host, roots, units, nodes, nodes[idx]);
    hide Enabled, Sound;
  }

  lemma ProgressEnds(host: Host, roots: Roots, units: Units, nodes: seq<string>, deps: map<string, set<string>>)
    requires Progress(host, roots, units, |nodes|, nodes, deps) && WorkDone(host, roots, units, |nodes|, nodes)
    requires EdgesInside(nodes, deps) && |nodes| <= |Universe(host, roots, units)|
    ensures Faithful(host, roots, units, nodes, deps) && IsGraphOf(host, roots, units, nodes, deps)
  {
    assert nodes[..|nodes|] == nodes;
    hide HasRoots, Sound, Processed, EdgesOf, EdgesInside, Universe, Faithful, IsGraphOf, WorkDone;
    WorkEnds(host, roots, units, nodes, deps);
    NodesSaturated(host, roots, units, nodes, deps);
  }

  lemma WorkGoesOn(host: Host, roots: Roots, units: Units, idx: nat, nodes: seq<string>, more: seq<string>)
    requires WorkDone(host, roots, units, idx, nodes) && idx < |nodes| && !Fails(units, nodes[idx])
    requires more == ListNames(host, nodes, RawDeps(units, nodes[idx])) && nodes <= more
    ensures WorkDone(host, roots, units, idx + 1, more)
  {
    FirstFailedSnoc(units, nodes, idx);
    ListDepsIsRaw(host, nodes, units, nodes[idx]);
    hide FirstFailed, ListNames, RawDeps, ListDeps;
    assert more[..idx + 1] == nodes[..idx + 1];
  }

  lemma WorkFails(host: Host, roots: Roots, units: Units, idx: nat, nodes: seq<string>)
    requires WorkDone(host, roots, units, idx, nodes) && idx < |nodes| && Fails(units, nodes[idx])
    requires |nodes| <= |Universe(host, roots, units)|
    ensures FirstFailed(units, DiscoveryOrder(host, roots, units)) == Some(nodes[idx])
  {
    hide Universe, Explored, FirstFailed, Fails;
    ExploredGrows(host, roots, units, idx, |Universe(host, roots, units)|);
    FirstFailedSnoc(units, nodes, idx);
    assert nodes[..idx + 1] <= DiscoveryOrder(host, roots, units);
    FirstFailedStays(units, nodes[..idx + 1], DiscoveryOrder(host, roots, units));
  }

  lemma WorkEnds(host: Host, roots: Roots, units: Units, nodes: seq<string>, deps: map<string, set<string>>)
    requires WorkDone(host, roots, units, |nodes|, nodes) && deps == EdgesOf(host, units, nodes)
    requires |nodes| <= |Universe(host, roots, units)|
    ensures IsGraphOf(host, roots, units, nodes, deps)
  {
    hide Universe, Explored, FirstFailed, EdgesOf;
    ExploredStable(host, roots, units, |nodes|, |Universe(host, roots, units)|);
    assert nodes[..|nodes|] == nodes;
  }

  lemma InitialState(host: Host, roots: Roots, units: Units, dag: ServiceDag)
    requires dag.Valid() && dag.nodes == [] && dag.depsByNode == map[] && dag.ownerByUnit == map[]
    ensures RootsSoFar(host, roots, dag)
  {
  }

  lemma AfterRoots(host: Host, roots: Roots, units: Units, dag: ServiceDag)
    requires RootsSoFar(host, roots, dag) && dag.nodes == RootNames(host, roots)
    requires HasRoots(host, roots, dag.nodes) && Sound(host, roots, units, dag.nodes)
    ensures dag.Valid() && WorkDone(host, roots, units, 0, dag.nodes)
    ensures Progress(host, roots, units, 0, dag.nodes, dag.depsByNode)
  {
    hide HasRoots, Sound, RootNames;
    assert EdgesOf(host, units, dag.nodes[..0]) == map[];
  }

  lemma SoundNode(host: Host, roots: Roots, units: Units, nodes: seq<string>, n: string)
    requires Sound(host, roots, units, nodes) && n in nodes
    ensures Enabled(host, roots, units, n)
  {
  }

  /** Every node so far is a known name and truly enabled. */
  ghost predicate Sound(host: Host, roots: Roots, units: Units, nodes: seq<string>)
  {
    forall n | n in nodes :: n in Universe(host, roots, units) && Enabled(host, roots, units, n)
  }

  lemma InitialNodes(host: Host, roots: Roots, units: Units, nodes: seq<string>)
    requires forall n | n in nodes :: IsRoot(host, roots, n)
    ensures Sound(host, roots, units, nodes)
  {
    forall n | n in nodes ensures n in Universe(host, roots, units) && Enabled(host, roots, units, n) {
      EnabledRoot(host, roots, units, n);
    }
  }

  lemma SoundFits(host: Host, roots: Roots, units: Units, nodes: seq<string>)
    requires Sound(host, roots, units, nodes) && NoDuplicates(nodes)
    ensures |nodes| <= |Universe(host, roots, units)|
  {
    DistinctFits(nodes, Universe(host, roots, units));
  }

  lemma SoundStep(host: Host, roots: Roots, units: Units, before: seq<string>, after: seq<string>, name: string)
    requires Sound(host, roots, units, before) && name in before
    requires forall n | n in after :: n in before || n in AcceptedDeps(host, name, RawDeps(units, name))
    ensures Sound(host, roots, units, after)
  {
    forall n | n in after ensures n in Universe(host, roots, units) && Enabled(host, roots, units, n) {
      if n !in before {
        AcceptedIsDirect(host, units, name, n);
        EnabledStep(host, roots, units, name, n);
      }
    }
  }

  /** The edge map covers exactly the processed nodes that have dependencies. */
  ghost predicate Processed(host: Host, units: Units, done: seq<string>, deps: map<string, set<string>>)
  {
    && (forall n | n in deps :: n in done)
    && (forall n | n in done :: Expanded(host, units, deps, n))
  }

  lemma ProcessedStep(host: Host, units: Units, done: seq<string>, deps: map<string, set<string>>, name: string)
    requires Processed(host, units, done, deps) && name !in done && (name in units ==> !units[name].Failed?)
    ensures var raws := RawDeps(units, name);
            Processed(host, units, done + [name], if raws == [] then deps
                else deps[name := AcceptedDeps(host, name, raws)])
  {
    var raws := RawDeps(units, name);
    var more := if raws == [] then deps else deps[name := AcceptedDeps(host, name, raws)];
    forall n | n in done + [name] ensures Expanded(host, units, more, n) {
      if n == name {
        if raws != [] { ExpandedNow(host, units, more, name); }
      } else {
        assert Expanded(host, units, deps, n);
      }
    }
  }

  lemma NodesSaturated(host: Host, roots: Roots, units: Units, nodes: seq<string>, deps: map<string, set<string>>)
    requires Sound(host, roots, units, nodes) && Processed(host, units, nodes, deps)
    requires EdgesInside(nodes, deps)
    requires HasRoots(host, roots, nodes)
    ensures Faithful(host, roots, units, nodes, deps)
  {
    var s := iset n | n in nodes;
    forall a, b | a in s && DirectDep(host, units, a, b) ensures b in s {
      assert Expanded(host, units, deps, a);
      assert NodeEdges(nodes, a, deps[a]);
    }
    assert Saturated(host, roots, units, s);
    forall n | n in nodes && n in units ensures !units[n].Failed? {
      assert Expanded(host, units, deps, n);
    }
    forall a, b | a in nodes ensures (a in deps && b in deps[a]) <==> DirectDep(host, units, a, b) {
      assert Expanded(host, units, deps, a);
    }
  }

  /** A node whose unit has been looked at: it loaded, and its recorded edges are its direct dependencies. */
  ghost predicate Expanded(host: Host, units: Units, deps: map<string, set<string>>, n: string)
  {
    && (n in units ==> !units[n].Failed?)
    && forall b :: (n in deps && b in deps[n]) <==> DirectDep(host, units, n, b)
  }

  lemma ExpandedNow(host: Host, units: Units, deps: map<string, set<string>>, n: string)
    requires n in units ==> !units[n].Failed?
    requires n in deps && deps[n] == AcceptedDeps(host, n, RawDeps(units, n))
    ensures Expanded(host, units, deps, n)
  {
    forall b ensures (n in deps && b in deps[n]) <==> DirectDep(host, units, n, b) {
      AcceptedIsDirect(host, units, n, b);
    }
  }
}
