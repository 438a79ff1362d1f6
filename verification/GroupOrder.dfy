/** The start order of one group: the enabled graph's topological order restricted to the group,
    followed by the members outside the graph (group_order.go). */
module GroupOrder {
  import opened Options
  import opened Sorting
  import opened EnabledDag
  import opened Discovery
  import opened EnabledDagBuilder
  import T = Topology

  datatype StartOrder =
    | Starts(names: seq<string>)
    | GroupNotFound
    | UnitError(name: string)
    | CycleError(at: string)

  /** A chain of direct dependencies from `a` to `b`. */
  ghost predicate DepChain(host: Host, units: Units, p: seq<string>, a: string, b: string)
  {
    && |p| >= 2 && p[0] == a && p[|p| - 1] == b
    && forall i | 0 <= i < |p| - 1 :: DirectDep(host, units, p[i], p[i + 1])
  }

  /** `a` transitively depends on `b` in the unit files. */
  ghost predicate Needs(host: Host, units: Units, a: string, b: string)
  {
    exists p :: DepChain(host, units, p, a, b)
  }

  ghost predicate IsMember(host: Host, members: seq<string>, n: string)
  {
    n != "" && exists raw :: raw in members && host.norm(raw) == n
  }

  lemma {:induction false} ChainEnabled(host: Host, roots: Roots, units: Units, p: seq<string>, a: string, b: string,
                                        k: nat)
    requires DepChain(host, units, p, a, b) && Enabled(host, roots, units, a) && k < |p|
    ensures Enabled(host, roots, units, p[k])
  {
    if k > 0 {
      ChainEnabled(host, roots, units, p, a, b, k - 1);
      assert DirectDep(host, units, p[k - 1], p[k]);
      EnabledStep(host, roots, units, p[k - 1], p[k]);
    }
  }

  /** On a faithful graph, its paths and the unit files' dependency chains are the same thing. */
  lemma PathsAreChains(host: Host, roots: Roots, units: Units, dag: ServiceDag, a: string, b: string)
    requires dag.Valid() && Faithful(host, roots, units, dag.nodes, dag.depsByNode) && a in dag.nodes
    ensures T.DependsOn(dag.Adjacency(), a, b) <==> Needs(host, units, a, b)
  {
    var adj := dag.Adjacency();
    if Needs(host, units, a, b) {
      var p :| DepChain(host, units, p, a, b);
      forall i | 0 <= i < |p| - 1 ensures p[i + 1] in T.Deps(adj, p[i]) {
        ChainEnabled(host, roots, units, p, a, b, i);
        dag.AdjacencyDeps(p[i]);
        assert DirectDep(host, units, p[i], p[i + 1]);
      }
      assert T.PathFrom(adj, p, a, b);
    }
    if T.DependsOn(adj, a, b) {
      var p :| T.PathFrom(adj, p, a, b);
      forall i | 0 <= i < |p| - 1 ensures DirectDep(host, units, p[i], p[i + 1]) {
        PathInside(dag, p, i);
        dag.AdjacencyDeps(p[i]);
      }
      assert DepChain(host, units, p, a, b);
    }
  }

  lemma {:induction false} PathInside(dag: ServiceDag, p: seq<string>, k: nat)
    requires dag.Valid() && k < |p| && p[0] in dag.nodes && T.IsPath(dag.Adjacency(), p)
    ensures p[k] in dag.nodes
  {
    if k > 0 {
      PathInside(dag, p, k - 1);
      dag.AdjacencyClosed();
      var i := k - 1;
      assert p[i + 1] in T.Deps(dag.Adjacency(), p[i]);
      assert p[i] in dag.NodeSet();
      assert p[k] in dag.NodeSet();
    }
  }

  /** The graph order in full: it exists exactly when no enabled service needs itself, and then it
      is a permutation of the enabled services with every needed service before the needing one. */
  ghost predicate GoodOrder(host: Host, units: Units, order: seq<string>)
  {
    && NoDuplicates(order)
    && forall i, j | 0 <= i < |order| && 0 <= j < |order| && Needs(host, units, order[i], order[j]) :: j < i
  }

  method EnabledOrder(host: Host, roots: Roots, units: Units, dag: ServiceDag) returns (r: Order)
    requires dag.Valid() && Faithful(host, roots, units, dag.nodes, dag.depsByNode)
    ensures r.Ordered? <==> forall n | Enabled(host, roots, units, n) :: !Needs(host, units, n, n)
    ensures r.Cyclic? ==> Enabled(host, roots, units, r.at) && Needs(host, units, r.at, r.at)
    ensures r.Ordered? && (forall n | n in dag.nodes :: IsLine(n)) ==>
              GoodOrder(host, units, r.names) && forall n :: n in r.names <==> Enabled(host, roots, units, n)
    ensures dag.depsByNode == EdgesOf(host, units, dag.nodes) ==> r == OrderOf(host, units, dag.nodes)
  {
    r := dag.TopologicalServices();
    if dag.depsByNode == EdgesOf(host, units, dag.nodes) { GraphOrder(host, units, dag); }
    hide OrderOf, EdgesOf, T.VisitAll, KeepLines, SplitLines, JoinLines;
    OrderFacts(host, roots, units, dag);
    LinesSurvive(dag);
  }

  lemma LinesSurvive(dag: ServiceDag)
    requires dag.Valid()
    requires T.Closed(dag.Adjacency(), dag.NodeSet())
    ensures var w := T.VisitAll(dag.Adjacency(), dag.NodeSet(), T.Start, dag.nodes);
            w.Finished? && (forall n | n in dag.nodes :: IsLine(n)) ==>
              KeepLines(SplitLines(JoinLines(w.walk.out)), []) == w.walk.out
  {
    T.TopologicalSort(dag.Adjacency(), dag.nodes);
    var w := T.VisitAll(dag.Adjacency(), dag.NodeSet(), T.Start, dag.nodes);
    if w.Finished? {
      SameMultiset(w.walk.out, dag.nodes);
      LinesRoundTrip(w.walk.out);
    }
  }

  lemma AcyclicMeans(dag: ServiceDag)
    ensures T.Acyclic(dag.Adjacency(), dag.NodeSet()) <==>
              forall n | n in dag.nodes :: !T.DependsOn(dag.Adjacency(), n, n)
  {
  }

  /** No cycle in the graph is no enabled service that needs itself. */
  lemma AcyclicHost(host: Host, roots: Roots, units: Units, dag: ServiceDag)
    requires dag.Valid() && Faithful(host, roots, units, dag.nodes, dag.depsByNode)
    ensures T.Acyclic(dag.Adjacency(), dag.NodeSet()) <==>
              forall n | Enabled(host, roots, units, n) :: !Needs(host, units, n, n)
  {
    AcyclicMeans(dag);
    hide Enabled, Needs, T.DependsOn, T.Acyclic;
    forall n | n in dag.nodes ensures T.DependsOn(dag.Adjacency(), n, n) <==> Needs(host, units, n, n) {
      PathsAreChains(host, roots, units, dag, n, n);
    }
  }

  /** A dependencies-first permutation of the nodes is a good order of the host's services. */
  lemma OrderIsGood(host: Host, roots: Roots, units: Units, dag: ServiceDag, out: seq<string>)
    requires dag.Valid() && Faithful(host, roots, units, dag.nodes, dag.depsByNode)
    requires multiset(out) == multiset(dag.nodes) && NoDuplicates(out) && T.DepsFirst(dag.Adjacency(), out)
    ensures GoodOrder(host, units, out) && forall n :: n in out <==> Enabled(host, roots, units, n)
  {
    SameMultiset(out, dag.nodes);
    hide Enabled, Needs, T.DependsOn, T.DepsFirst;
    forall i, j | 0 <= i < |out| && 0 <= j < |out| && Needs(host, units, out[i], out[j]) ensures j < i {
      PathsAreChains(host, roots, units, dag, out[i], out[j]);
      T.OrderRespectsDependsOn(dag.Adjacency(), out, i, j);
    }
  }

  /** The depth-first search on the graph, said about the unit files. */
  lemma OrderFacts(host: Host, roots: Roots, units: Units, dag: ServiceDag)
    requires dag.Valid() && Faithful(host, roots, units, dag.nodes, dag.depsByNode)
    requires T.Closed(dag.Adjacency(), dag.NodeSet())
    ensures var w := T.VisitAll(dag.Adjacency(), dag.NodeSet(), T.Start, dag.nodes);
            && (w.Finished? <==> forall n | Enabled(host, roots, units, n) :: !Needs(host, units, n, n))
            && (w.CycleAt? ==> Enabled(host, roots, units, w.name) && Needs(host, units, w.name, w.name))
            && (w.Finished? ==>
                  GoodOrder(host, units, w.walk.out) && forall n :: n in w.walk.out <==> Enabled(host, roots, units, n))
  {
    T.TopologicalSort(dag.Adjacency(), dag.nodes);
    AcyclicHost(host, roots, units, dag);
    var w := T.VisitAll(dag.Adjacency(), dag.NodeSet(), T.Start, dag.nodes);
    hide Enabled, Needs, T.DependsOn, T.VisitAll, T.Closed, T.DepsFirst, T.Acyclic, GoodOrder;
    if w.Finished? {
      OrderIsGood(host, roots, units, dag, w.walk.out);
    } else {
      PathsAreChains(host, roots, units, dag, w.name, w.name);
    }
  }

  function MemberSet(host: Host, members: seq<string>): set<string>
  {
    set raw | raw in members && host.norm(raw) != "" :: host.norm(raw)
  }

  /** The names of the order that are in the group, each at its first place. */
  function Kept(order: seq<string>, group: set<string>): seq<string>
  {
    if order == [] then []
    else
      var n := |order| - 1;
      var before := Kept(order[..n], group);
      if order[n] in group && order[n] !in before then before + [order[n]] else before
  }

  /** Members in graph order, then the remaining members as the group lists them. */
  function Restricted(host: Host, members: seq<string>, order: seq<string>): seq<string>
  {
    ListNames(host, Kept(order, MemberSet(host, members)), members)
  }

  /** The first loop: members in graph order. */
  method KeepMembers(order: seq<string>, group: set<string>) returns (result: seq<string>)
    ensures result == Kept(order, group) && NoDuplicates(result)
    ensures forall n :: n in result <==> n in order && n in group
    ensures SubsequenceOf(result, order)
  {
    var seen: set<string> := {};
    result := [];
    ghost var at: seq<nat> := [];
    for i := 0 to |order|
      invariant seen == (set n | n in result) && NoDuplicates(result) && result == Kept(order[..i], group)
      invariant forall n :: n in result <==> n in order[..i] && n in group
      invariant Embeds(result, order, at) && forall k | 0 <= k < |at| :: at[k] < i
    {
      assert order[..i + 1] == order[..i] + [order[i]] && order[..i + 1][..i] == order[..i];
      if order[i] in group && order[i] !in seen {
        result := result + [order[i]];
        seen := seen + {order[i]};
        at := at + [i];
      }
    }
    assert order[..|order|] == order;
  }

  /** What the second loop has done after `i` members. */
  ghost predicate Appended(host: Host, members: seq<string>, i: nat, start: seq<string>, result: seq<string>)
    requires i <= |members|
  {
    && result == ListNames(host, start, members[..i]) && NoDuplicates(result) && start <= result
    && (forall n | n in result :: n in start || n in MemberSet(host, members))
    && (forall n | n in result[|start|..] :: n !in start)
    && (forall k | 0 <= k < i :: host.norm(members[k]) == "" || host.norm(members[k]) in result)
  }

  lemma AppendStep(host: Host, members: seq<string>, i: nat, start: seq<string>, result: seq<string>)
    requires i < |members| && Appended(host, members, i, start, result)
    ensures Appended(host, members, i + 1, start, Listed(result, host.norm(members[i])))
  {
    ListStep(host, start, members, i);
    hide ListNames;
    var name := host.norm(members[i]);
    if name != "" && name !in result {
      assert (result + [name])[|start|..] == result[|start|..] + [name];
      assert members[i] in members;
    }
  }

  /** The two loops that fill the result: members in graph order, then the remaining members. */
  method Restrict(host: Host, members: seq<string>, order: seq<string>) returns (result: seq<string>, ghost cut: nat)
    ensures result == Restricted(host, members, order)
    ensures NoDuplicates(result) && forall n :: n in result <==> IsMember(host, members, n)
    ensures cut <= |result| && SubsequenceOf(result[..cut], order)
    ensures forall n | n in result[cut..] :: n !in order
  {
    var groupSet := MemberSet(host, members);
    result := KeepMembers(order, groupSet);
    var seen := set n | n in result;
    ghost var start := result;
    cut := |result|;
    assert Appended(host, members, 0, start, result);
    hide Appended, SubsequenceOf, MemberSet, Kept, ListNames;
    for i := 0 to |members|
      invariant seen == (set n | n in result) && Appended(host, members, i, start, result)
    {
      AppendStep(host, members, i, start, result);
      var normalized := host.norm(members[i]);
      if normalized == "" || normalized in seen { continue; }
      result := result + [normalized];
      seen := seen + {normalized};
    }
    AppendDone(host, members, order, start, result);
  }

  lemma AppendDone(host: Host, members: seq<string>, order: seq<string>, start: seq<string>, result: seq<string>)
    requires Appended(host, members, |members|, start, result)
    requires start == Kept(order, MemberSet(host, members))
    requires forall n :: n in start <==> n in order && n in MemberSet(host, members)
    ensures result == Restricted(host, members, order) && NoDuplicates(result)
    ensures forall n :: n in result <==> IsMember(host, members, n)
    ensures |start| <= |result| && result[..|start|] == start && forall n | n in result[|start|..] :: n !in order
  {
    assert members[..|members|] == members;
    forall n ensures n in result <==> IsMember(host, members, n) {
      if IsMember(host, members, n) {
        var raw :| raw in members && host.norm(raw) == n;
        var k :| 0 <= k < |members| && members[k] == raw;
      }
    }
    hide Kept, ListNames;
    forall n | n in result[|start|..] ensures n !in order {
      assert n in result;
    }
  }

  /** The group start order as a function of the host, the roots, the unit files and the group. */
  ghost function StartOrderOf(host: Host, roots: Roots, units: Units, group: Option<seq<string>>): StartOrder
  {
    if group.None? then GroupNotFound
    else
      var nodes := DiscoveryOrder(host, roots, units);
      var failed := FirstFailed(units, nodes);
      if failed.Some? then UnitError(failed.value)
      else
        match OrderOf(host, units, nodes)
        case Cyclic(c) => CycleError(c)
        case Ordered(names) => Starts(Restricted(host, group.value, names))
  }

  ghost predicate NormalizesAs(host: Host, wireplumber: bool)
  {
    forall raw :: host.norm(raw) == Normalize(wireplumber, raw)
  }

  /** No raw name of the roots or the unit files has a newline inside, and names are normalized as
      normalizeServiceUnitName does. */
  ghost predicate PlainNames(host: Host, roots: Roots, units: Units)
  {
    && (exists wireplumber :: NormalizesAs(host, wireplumber))
    && (forall raw | raw in roots.standalone :: '\n' !in raw)
    && (forall g, raw | g in roots.groups && raw in roots.groups[g] :: '\n' !in raw)
    && (forall n, raw | n in units && units[n].Found? && Mentions(units[n].unit, raw) :: '\n' !in raw)
  }

  /** Then every enabled name is a line of text. */
  lemma PlainNamesAreLines(host: Host, roots: Roots, units: Units)
    requires PlainNames(host, roots, units)
    ensures forall n | Enabled(host, roots, units, n) :: IsLine(n)
  {
    var wireplumber :| NormalizesAs(host, wireplumber);
    hide Normalize, IsLine;
    var s := iset n | IsLine(n);
    forall n | IsRoot(host, roots, n) ensures n in s {
      var raw :| host.norm(raw) == n && '\n' !in raw;
      NormalizeIsLine(wireplumber, raw);
    }
    forall a, b | a in s && DirectDep(host, units, a, b) ensures b in s {
      var raw :| Mentions(units[a].unit, raw) && host.norm(raw) == b;
      NormalizeIsLine(wireplumber, raw);
    }
    assert Saturated(host, roots, units, s);
  }

  /** resolveGroupStartOrder: every normalized member exactly once, and among members of the
      enabled graph whatever one needs, directly or not, is started before it. It fails exactly
      when the group is unknown, an enabled unit cannot be loaded, or an enabled service needs itself.
      The result is a function of the inputs: no map iteration order can show in it. */
  method ResolveGroupStartOrder(host: Host, roots: Roots, units: Units, group: Option<seq<string>>)
    returns (r: StartOrder)
    ensures r == StartOrderOf(host, roots, units, group)
    ensures r.GroupNotFound? <==> group.None?
    ensures r.UnitError? ==> Enabled(host, roots, units, r.name) && r.name in units && units[r.name].Failed?
    ensures r.CycleError? ==> Enabled(host, roots, units, r.at) && Needs(host, units, r.at, r.at)
    ensures r.Starts? ==>
              forall n | Enabled(host, roots, units, n) ::
                !Needs(host, units, n, n) && (n in units ==> !units[n].Failed?)
    ensures r.Starts? ==> NoDuplicates(r.names) && forall n :: n in r.names <==> IsMember(host, group.value, n)
    ensures r.Starts? && (PlainNames(host, roots, units) || forall n | Enabled(host, roots, units, n) :: IsLine(n)) ==>
              NeededFirst(host, roots, units, r.names) && MentionedFirst(host, roots, units, r.names)
  {
    if group.None? { return GroupNotFound; }
    var built := BuildEnabledServiceDag(host, roots, units);
    hide Enabled, Needs, IsMember, DiscoveryOrder, FirstFailed, OrderOf, Restricted, NeededFirst, MentionedFirst,
        PlainNames, IsLine,
        EdgesOf;
    if built.LookupFailed? { return UnitError(built.name); }
    var order := EnabledOrder(host, roots, units, built.dag);
    if order.Cyclic? { return CycleError(order.at); }
    var result, cut := Restrict(host, group.value, order.names);
    r := Starts(result);
    if PlainNames(host, roots, units) { PlainNamesAreLines(host, roots, units); }
    if forall n | Enabled(host, roots, units, n) :: IsLine(n) {
      RestrictionKeepsOrder(host, roots, units, order.names, result, cut);
      NeededIsMentioned(host, roots, units, result);
    }
  }

  /** Of two enabled members, one that is mentioned in Requires, Wants, After, BindsTo or PartOf of the
      other stands before it. */
  ghost predicate MentionedFirst(host: Host, roots: Roots, units: Units, names: seq<string>)
  {
    forall i, j, raw | 0 <= i < |names| && 0 <= j < |names| && names[i] != names[j] && host.norm(raw) == names[j] ::
      && Enabled(host, roots, units, names[i]) && Enabled(host, roots, units, names[j])
      && names[i] in units && units[names[i]].Found?
      && (var u := units[names[i]].unit;
          raw in u.requires_ || raw in u.wants || raw in u.after || raw in u.bindsTo || raw in u.partOf)
      ==> j < i
  }

  lemma NeededIsMentioned(host: Host, roots: Roots, units: Units, names: seq<string>)
    requires NeededFirst(host, roots, units, names) && "" !in names
    ensures MentionedFirst(host, roots, units, names)
  {
    hide Enabled;
    forall i, j, raw | 0 <= i < |names| && 0 <= j < |names| && names[i] != names[j] && host.norm(raw) == names[j]
      ensures && Enabled(host, roots, units, names[i]) && Enabled(host, roots, units, names[j])
              && names[i] in units && units[names[i]].Found?
              && (var u := units[names[i]].unit;
                  raw in u.requires_ || raw in u.wants || raw in u.after || raw in u.bindsTo || raw in u.partOf)
              ==> j < i
    {
      var a, b := names[i], names[j];
      assert Before(host, roots, units, names, i, j);
      if a in units && units[a].Found? && Mentions(units[a].unit, raw) {
        assert b in names && DirectDep(host, units, a, b);
        assert DepChain(host, units, [a, b], a, b);
        assert Needs(host, units, a, b);
      }
    }
  }

  ghost predicate NeededFirst(host: Host, roots: Roots, units: Units, names: seq<string>)
  {
    forall i, j | 0 <= i < |names| && 0 <= j < |names| :: Before(host, roots, units, names, i, j)
  }

  /** If both are enabled and the i-th needs the j-th, the j-th comes first. */
  ghost predicate Before(host: Host, roots: Roots, units: Units, names: seq<string>, i: nat, j: nat)
    requires i < |names| && j < |names|
  {
    Enabled(host, roots, units, names[i]) && Enabled(host, roots, units, names[j]) &&
        Needs(host, units, names[i], names[j])
    ==> j < i
  }

  lemma RestrictionKeepsOrder(host: Host, roots: Roots, units: Units, order: seq<string>, result: seq<string>, cut: nat)
    requires GoodOrder(host, units, order) && forall n :: n in order <==> Enabled(host, roots, units, n)
    requires cut <= |result| && SubsequenceOf(result[..cut], order)
    requires forall n | n in result[cut..] :: n !in order
    ensures NeededFirst(host, roots, units, result)
  {
    forall k | cut <= k < |result| ensures result[k] !in order {
      assert result[cut..][k - cut] == result[k];
    }
    var at :| Embeds(result[..cut], order, at);
    hide Enabled, Needs;
    forall i, j | 0 <= i < |result| && 0 <= j < |result| ensures Before(host, roots, units, result, i, j) {
      if Enabled(host, roots, units, result[i]) && Enabled(host, roots, units, result[j]) &&
          Needs(host, units, result[i], result[j]) {
        assert order[at[i]] == result[i] && order[at[j]] == result[j];
        assert at[j] < at[i];
      }
    }
  }
}
