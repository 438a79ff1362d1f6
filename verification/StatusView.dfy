/** The status model: graph validation, health derivation, deterministic ordering and aggregation
    (internal/statusview/model.go). */
module StatusView {
  import opened Options
  import opened Sorting
  import opened PrimaryPath
  import Text

  /** Health is an open string type; anything but the three bad values ranks with "healthy". */
  datatype Health = Healthy | Unknown | Degraded | Failed | OtherHealth(text: string)

  /** `rest` stands for the fields no rule looks at. */
  datatype Node = Node(id: string, typ: string, scope: string, health: Health, rest: string)

  datatype Edge = Edge(from: string, to: string, relation: string, primary: bool)

  datatype Severity = SeverityFailed | SeverityDegraded | SeverityUnknown | SeverityOther

  datatype Diagnostic = Diagnostic(severity: Severity, orchestration: bool, affectsHealth: bool, rest: string)

  datatype Summary = Summary(orchestration: Health, aggregate: Health, display: string)

  datatype Model = Model(runtime: string, nodes: seq<Node>, edges: seq<Edge>, diagnostics: seq<Diagnostic>,
                         summary: Summary, rest: string)

  function IdOf(): Node -> string { (n: Node) => n.id }

  function IsService(): Node -> bool { (n: Node) => n.typ == "service" }

  function IsPrimary(): Edge -> bool { (e: Edge) => e.primary }

  function EndsOf(): Edge -> Pair { (e: Edge) => (e.from, e.to) }

  function Ids(nodes: seq<Node>): seq<string> { MapSeq(IdOf(), nodes) }

  function ServiceIds(nodes: seq<Node>): seq<string> { Ids(Filter(IsService(), nodes)) }

  function PrimaryPairs(edges: seq<Edge>): seq<Pair> { MapSeq(EndsOf(), Filter(IsPrimary(), edges)) }

  ghost predicate NoDangling(nodes: seq<Node>, edges: seq<Edge>)
  {
    forall e | e in edges :: e.from in Ids(nodes) && e.to in Ids(nodes)
  }

  /** The declared shape of a topology: unique IDs, one service, no dangling edge, and primary edges
      that are absent or form one simple path over every node they touch, ending at the service. */
  ghost predicate GoodGraph(nodes: seq<Node>, edges: seq<Edge>)
  {
    && NoDuplicates(Ids(nodes))
    && |ServiceIds(nodes)| == 1
    && NoDangling(nodes, edges)
    && PathTo(PrimaryPairs(edges), ServiceIds(nodes)[0])
  }

  ghost predicate NonEmptyIds(nodes: seq<Node>) { "" !in Ids(nodes) }

  lemma {:induction false} FilterSnoc<T>(p: T -> bool, xs: seq<T>, i: nat)
    requires i < |xs|
    ensures Filter(p, xs[..i + 1]) == Filter(p, xs[..i]) + (if p(xs[i]) then [xs[i]] else [])
  {
    assert xs[..i + 1] == xs[..i] + [xs[i]];
    FilterConcat(p, xs[..i], [xs[i]]);
    assert [xs[i]][1..] == [];
  }

  lemma MapAppend<S, T>(f: S -> T, a: seq<S>, b: seq<S>)
    ensures MapSeq(f, a + b) == MapSeq(f, a) + MapSeq(f, b)
  {
    hide MapSeq;
    var l, r := MapSeq(f, a + b), MapSeq(f, a) + MapSeq(f, b);
    forall i | 0 <= i < |l| ensures l[i] == r[i] { assert l[i] == f((a + b)[i]); }
  }

  /** ValidateNodeIDs */
  method ValidateNodeIds(nodes: seq<Node>) returns (ok: bool)
    ensures ok <==> NoDuplicates(Ids(nodes))
  {
    var seen: set<string> := {};
    var ids := Ids(nodes);
    for i := 0 to |nodes|
      invariant seen == (set k | 0 <= k < i :: ids[k]) && NoDuplicates(ids[..i])
    {
      if nodes[i].id in seen {
        var k :| 0 <= k < i && ids[k] == nodes[i].id;
        assert ids[k] == ids[i];
        return false;
      }
      forall k | 0 <= k < i ensures ids[k] != ids[i] { assert ids[k] in seen; }
      seen := seen + {nodes[i].id};
    }
    assert ids[..|nodes|] == ids;
    return true;
  }

  /** The loop that finds the service node. */
  method FindService(nodes: seq<Node>) returns (r: Option<string>)
    requires NonEmptyIds(nodes)
    ensures r.Some? <==> |ServiceIds(nodes)| == 1
    ensures r.Some? ==> ServiceIds(nodes) == [r.value]
  {
    var serviceID := "";
    for i := 0 to |nodes|
      invariant ServiceIds(nodes[..i]) == if serviceID == "" then [] else [serviceID]
    {
      FilterSnoc(IsService(), nodes, i);
      var found := Filter(IsService(), nodes[..i]);
      assert Ids(nodes)[i] in Ids(nodes);
      if nodes[i].typ == "service" {
        MapAppend(IdOf(), found, [nodes[i]]);
        if serviceID != "" {
          MoreServices(nodes, i + 1);
          return None;
        }
        serviceID := nodes[i].id;
      } else {
        assert found + [] == found;
      }
    }
    assert nodes[..|nodes|] == nodes;
    return if serviceID == "" then None else Some(serviceID);
  }

  lemma MoreServices(nodes: seq<Node>, i: nat)
    requires i <= |nodes|
    ensures |ServiceIds(nodes)| >= |ServiceIds(nodes[..i])|
  {
    FilterConcat(IsService(), nodes[..i], nodes[i..]);
    assert nodes == nodes[..i] + nodes[i..];
  }

  lemma PairsSnoc(edges: seq<Edge>, i: nat)
    requires i < |edges|
    ensures PrimaryPairs(edges[..i + 1]) ==
              PrimaryPairs(edges[..i]) + (if edges[i].primary then [(edges[i].from, edges[i].to)] else [])
  {
    FilterSnoc(IsPrimary(), edges, i);
    if edges[i].primary {
      MapAppend(EndsOf(), Filter(IsPrimary(), edges[..i]), [edges[i]]);
    } else {
      assert Filter(IsPrimary(), edges[..i]) + [] == Filter(IsPrimary(), edges[..i]);
    }
  }

  lemma PairsPrefix(edges: seq<Edge>, i: nat)
    requires i <= |edges|
    ensures PrimaryPairs(edges[..i]) <= PrimaryPairs(edges)
  {
    FilterConcat(IsPrimary(), edges[..i], edges[i..]);
    assert edges == edges[..i] + edges[i..];
    MapAppend(EndsOf(), Filter(IsPrimary(), edges[..i]), Filter(IsPrimary(), edges[i..]));
  }

  /** A branching prefix rules out every path. */
  lemma BranchRejected(edges: seq<Edge>, i: nat, service: string)
    requires i <= |edges|
    requires var pre := PrimaryPairs(edges[..i]); !(Functional(pre) && Injective(pre))
    ensures !PathTo(PrimaryPairs(edges), service)
  {
    PairsPrefix(edges, i);
    var pre, all := PrimaryPairs(edges[..i]), PrimaryPairs(edges);
    assert Functional(all) ==> Functional(pre) by {
      assert forall k | 0 <= k < |pre| :: pre[k] == all[k];
    }
    assert Injective(all) ==> Injective(pre) by {
      assert forall k | 0 <= k < |pre| :: pre[k] == all[k];
    }
    if PathTo(all, service) {
      PathIsCountable(all, service);
    }
  }

  /** What the edge loop knows after the first `i` edges. */
  ghost predicate EdgesCounted(nodes: seq<Node>, edges: seq<Edge>, i: nat, c: Counts)
    requires i <= |edges|
  {
    NoDangling(nodes, edges[..i]) && Counted(PrimaryPairs(edges[..i]), c) && "" !in c.touched
  }

  lemma EdgesBegin(nodes: seq<Node>, edges: seq<Edge>)
    ensures EdgesCounted(nodes, edges, 0, NoCounts)
  {
    CountsStart();
    NoPairs(edges);
  }

  lemma SideEdge(nodes: seq<Node>, edges: seq<Edge>, i: nat, c: Counts)
    requires i < |edges| && !edges[i].primary && EdgesCounted(nodes, edges, i, c)
    requires edges[i].from in Ids(nodes) && edges[i].to in Ids(nodes)
    ensures EdgesCounted(nodes, edges, i + 1, c)
  {
    hide NoDangling, Counted, PrimaryPairs, Ids;
    DanglingStep(nodes, edges, i);
    PairsSnoc(edges, i);
    assert PrimaryPairs(edges[..i]) + [] == PrimaryPairs(edges[..i]);
  }

  lemma PrimaryEdge(nodes: seq<Node>, edges: seq<Edge>, i: nat, c: Counts, service: string)
    requires NonEmptyIds(nodes) && i < |edges| && edges[i].primary && EdgesCounted(nodes, edges, i, c)
    requires edges[i].from in Ids(nodes) && edges[i].to in Ids(nodes)
    ensures var q := (edges[i].from, edges[i].to);
            if Branches(c, q) then !PathTo(PrimaryPairs(edges), service)
                else EdgesCounted(nodes, edges, i + 1, Count(c, q))
  {
    hide NoDangling, Counted, PrimaryPairs, Ids, PathTo, Branches, Count, Functional, Injective;
    var q := (edges[i].from, edges[i].to);
    DanglingStep(nodes, edges, i);
    PairsSnoc(edges, i);
    CountStep(PrimaryPairs(edges[..i]), c, q);
    TouchedStep(c, q);
    if Branches(c, q) { BranchRejected(edges, i + 1, service); }
  }

  /** The edge loop: endpoints, then the primary counters, with both early errors. */
  method CountEdges(nodes: seq<Node>, edges: seq<Edge>, ghost service: string) returns (r: Option<Counts>)
    requires NonEmptyIds(nodes)
    ensures r.Some? ==> NoDangling(nodes, edges) && Counted(PrimaryPairs(edges), r.value) && "" !in r.value.touched
    ensures r.None? ==> !NoDangling(nodes, edges) || !PathTo(PrimaryPairs(edges), service)
  {
    var known := set k | 0 <= k < |nodes| :: nodes[k].id;
    assert forall x :: x in known <==> x in Ids(nodes);
    var c := NoCounts;
    EdgesBegin(nodes, edges);
    hide *;
    for i := 0 to |edges|
      invariant EdgesCounted(nodes, edges, i, c)
    {
      var e := edges[i];
      if e.from !in known || e.to !in known {
        DanglingStep(nodes, edges, i);
        return None;
      }
      if e.primary {
        PrimaryEdge(nodes, edges, i, c, service);
        if Branches(c, (e.from, e.to)) { return None; }
        c := Count(c, (e.from, e.to));
      } else {
        SideEdge(nodes, edges, i, c);
      }
    }
    EdgesDone(nodes, edges, c);
    return Some(c);
  }

  lemma EdgesDone(nodes: seq<Node>, edges: seq<Edge>, c: Counts)
    requires EdgesCounted(nodes, edges, |edges|, c)
    ensures NoDangling(nodes, edges) && Counted(PrimaryPairs(edges), c) && "" !in c.touched
  {
    assert edges[..|edges|] == edges;
  }

  lemma DanglingStep(nodes: seq<Node>, edges: seq<Edge>, i: nat)
    requires i < |edges|
    ensures edges[i].from !in Ids(nodes) || edges[i].to !in Ids(nodes) ==> !NoDangling(nodes, edges)
    ensures edges[i].from in Ids(nodes) && edges[i].to in Ids(nodes) && NoDangling(nodes, edges[..i]) ==>
              NoDangling(nodes, edges[..i + 1])
  {
    assert edges[i] in edges && edges[..i + 1] == edges[..i] + [edges[i]];
  }

  lemma NoPairs(edges: seq<Edge>)
    ensures PrimaryPairs(edges[..0]) == []
  {
  }

  lemma TouchedStep(c: Counts, q: Pair)
    ensures Count(c, q).touched == c.touched + {q.0, q.1}
  {
  }

  /** validateGraph accepts exactly the good graphs and names their service. */
  method ValidateGraph(nodes: seq<Node>, edges: seq<Edge>) returns (r: Option<string>)
    requires NonEmptyIds(nodes)
    ensures r.Some? <==> GoodGraph(nodes, edges)
    ensures r.Some? ==> ServiceIds(nodes) == [r.value]
  {
    var unique := ValidateNodeIds(nodes);
    if !unique { return None; }
    var service := FindService(nodes);
    if service.None? { return None; }
    var counts := CountEdges(nodes, edges, service.value);
    if counts.None? { return None; }
    var c := counts.value;
    ghost var pairs := PrimaryPairs(edges);
    Untouched(pairs, c);
    if c.touched == {} { return service; }
    if Get(c.outgoing, service.value) != 0 {
      ServiceHasNoWayOut(pairs, c, service.value);
      return None;
    }
    var ok := EndsAtService(pairs, c, service.value);
    return if ok then service else None;
  }

  /** primaryEdges == 0 exactly when nothing was touched. */
  lemma Untouched(pairs: seq<Pair>, c: Counts)
    requires Counted(pairs, c)
    ensures c.touched == {} <==> pairs == []
  {
    if pairs != [] {
      assert pairs[0] in pairs && pairs[0].0 in Froms(pairs);
    }
  }

  lemma ServiceHasNoWayOut(pairs: seq<Pair>, c: Counts, service: string)
    requires Counted(pairs, c) && Get(c.outgoing, service) != 0
    ensures !PathTo(pairs, service)
  {
    assert service in Froms(pairs);
    if PathTo(pairs, service) && pairs != [] {
      var p :| PathWitness(pairs, service, p);
      WitnessChain(pairs, c, service, p);
    }
  }

  // ----- permutations do not matter to validation -----

  lemma IdsPermute(a: seq<Node>, b: seq<Node>)
    requires multiset(a) == multiset(b)
    ensures multiset(Ids(a)) == multiset(Ids(b)) && multiset(ServiceIds(a)) == multiset(ServiceIds(b))
  {
    MapPermutes(IdOf(), a, b);
    FilterPermutes(IsService(), a, b);
    MapPermutes(IdOf(), Filter(IsService(), a), Filter(IsService(), b));
  }

  lemma PathPermutes(a: seq<Pair>, b: seq<Pair>, service: string)
    requires multiset(a) == multiset(b) && PathTo(a, service)
    ensures PathTo(b, service)
  {
    SameMultiset(a, b);
    if a != [] {
      var p :| PathWitness(a, service, p);
      assert PathWitness(b, service, p);
    }
  }

  /** Whether a graph is good depends on its nodes and edges, not on their order. */
  lemma GoodPermutes(n1: seq<Node>, e1: seq<Edge>, n2: seq<Node>, e2: seq<Edge>)
    requires multiset(n1) == multiset(n2) && multiset(e1) == multiset(e2) && GoodGraph(n1, e1)
    ensures GoodGraph(n2, e2) && ServiceIds(n2) == ServiceIds(n1)
  {
    IdsPermute(n1, n2);
    SameMultiset(Ids(n1), Ids(n2));
    NoDuplicatesMultiset(Ids(n1));
    NoDuplicatesMultiset(Ids(n2));
    SameMultiset(ServiceIds(n1), ServiceIds(n2));
    assert ServiceIds(n2)[0] in ServiceIds(n1);
    SameMultiset(e1, e2);
    FilterPermutes(IsPrimary(), e1, e2);
    MapPermutes(EndsOf(), Filter(IsPrimary(), e1), Filter(IsPrimary(), e2));
    PathPermutes(PrimaryPairs(e1), PrimaryPairs(e2), ServiceIds(n1)[0]);
  }

  // ----- health -----

  /** healthRank */
  function Rank(h: Health): nat
  {
    match h
    case Failed => 3
    case Degraded => 2
    case Unknown => 1
    case _ => 0
  }

  /** moreSevere: the left one wins a tie. */
  function MoreSevere(left: Health, right: Health): Health { if Rank(right) > Rank(left) then right else left }

  function Fold(hs: seq<Health>, start: Health): Health
  {
    if hs == [] then start else MoreSevere(Fold(hs[..|hs| - 1], start), hs[|hs| - 1])
  }

  /** The worst of some healths, in words: failed before degraded before unknown before healthy. */
  function Worst(hs: seq<Health>): Health
  {
    if Failed in hs then Failed else if Degraded in hs then Degraded else if Unknown in hs then Unknown else Healthy
  }

  /** Folding severities from healthy yields the worst of them; any other value counts as healthy. */
  lemma {:induction false} FoldIsWorst(hs: seq<Health>)
    ensures Fold(hs, Healthy) == Worst(hs)
  {
    if hs != [] {
      var n := |hs| - 1;
      FoldIsWorst(hs[..n]);
      assert hs == hs[..n] + [hs[n]];
      assert forall h :: h in hs <==> h in hs[..n] || h == hs[n];
    }
  }

  lemma FoldSnoc(hs: seq<Health>, h: Health, start: Health)
    ensures Fold(hs + [h], start) == MoreSevere(Fold(hs, start), h)
  {
    assert (hs + [h])[..|hs|] == hs;
  }

  /** deriveNodeHealth for one node. */
  function Derive(service: string, runtime: string, n: Node): Node
  {
    if n.id == service then
      n.(health := if runtime == "failed" then Failed else if runtime == "unknown" then Unknown else Healthy)
    else if n.health == Failed then n.(health := Degraded)
    else n
  }

  function Deriving(service: string, runtime: string): Node -> Node { (n: Node) => Derive(service, runtime, n) }

  /** The in-place loop over the nodes. */
  method DeriveNodeHealth(nodes0: seq<Node>, service: string, runtime: string) returns (nodes: seq<Node>)
    ensures nodes == MapSeq(Deriving(service, runtime), nodes0)
  {
    nodes := nodes0;
    for i := 0 to |nodes0|
      invariant |nodes| == |nodes0|
      invariant forall k | 0 <= k < i :: nodes[k] == Derive(service, runtime, nodes0[k])
      invariant forall k | i <= k < |nodes| :: nodes[k] == nodes0[k]
    {
      if nodes[i].id == service {
        if runtime == "failed" { nodes := nodes[i := nodes[i].(health := Failed)]; }
        else if runtime == "unknown" { nodes := nodes[i := nodes[i].(health := Unknown)]; }
        else { nodes := nodes[i := nodes[i].(health := Healthy)]; }
        continue;
      }
      if nodes[i].health == Failed { nodes := nodes[i := nodes[i].(health := Degraded)]; }
    }
  }

  // ----- ordering -----

  function NodeKey(n: Node): seq<string> { [n.typ, n.scope, n.id] }

  function NodeLess(): (Node, Node) -> bool { (a: Node, b: Node) => Text.LexLess(NodeKey(a), NodeKey(b)) }

  /** The type and scope of the node with this ID; empty strings when there is none. */
  function Target(nodes: seq<Node>, id: string): (string, string)
  {
    if nodes == [] then ("", "")
    else if nodes[|nodes| - 1].id == id then (nodes[|nodes| - 1].typ, nodes[|nodes| - 1].scope)
    else Target(nodes[..|nodes| - 1], id)
  }

  function EdgeKey(nodes: seq<Node>, e: Edge): seq<string>
  {
    var t := Target(nodes, e.to);
    [e.from, e.relation, t.0, t.1, e.to, if e.primary then "0" else "1"]
  }

  function EdgeLess(nodes: seq<Node>): (Edge, Edge) -> bool
  {
    (a: Edge, b: Edge) => Text.LexLess(EdgeKey(nodes, a), EdgeKey(nodes, b))
  }

  lemma NodeLinear(nodes: seq<Node>)
    requires NoDuplicates(Ids(nodes))
    ensures LinearOn(NodeLess(), nodes)
  {
    forall a | a in nodes ensures !NodeLess()(a, a) { Text.LexIrreflexive(NodeKey(a)); }
    forall a, b | a in nodes && b in nodes ensures a == b || NodeLess()(a, b) || NodeLess()(b, a) {
      Text.LexTotal(NodeKey(a), NodeKey(b));
      if NodeKey(a) == NodeKey(b) {
        assert NodeKey(a)[2] == NodeKey(b)[2];
        SameIdSameNode(nodes, a, b);
      }
    }
    forall a, b, c | a in nodes && b in nodes && c in nodes && NodeLess()(a, b) && NodeLess()(b, c)
      ensures NodeLess()(a, c) {
      Text.LexTransitive(NodeKey(a), NodeKey(b), NodeKey(c));
    }
  }

  lemma SameIdSameNode(nodes: seq<Node>, a: Node, b: Node)
    requires NoDuplicates(Ids(nodes)) && a in nodes && b in nodes && a.id == b.id
    ensures a == b
  {
    var i :| 0 <= i < |nodes| && nodes[i] == a;
    var j :| 0 <= j < |nodes| && nodes[j] == b;
    var ids := Ids(nodes);
    assert ids[i] == ids[j];
  }

  lemma EdgeLinear(nodes: seq<Node>, edges: seq<Edge>)
    ensures LinearOn(EdgeLess(nodes), edges)
  {
    forall a | a in edges ensures !EdgeLess(nodes)(a, a) { Text.LexIrreflexive(EdgeKey(nodes, a)); }
    forall a, b | a in edges && b in edges ensures a == b || EdgeLess(nodes)(a, b) || EdgeLess(nodes)(b, a) {
      Text.LexTotal(EdgeKey(nodes, a), EdgeKey(nodes, b));
      if EdgeKey(nodes, a) == EdgeKey(nodes, b) { SameKeySameEdge(nodes, a, b); }
    }
    forall a, b, c | a in edges && b in edges && c in edges && EdgeLess(nodes)(a, b) && EdgeLess(nodes)(b, c)
      ensures EdgeLess(nodes)(a, c) {
      Text.LexTransitive(EdgeKey(nodes, a), EdgeKey(nodes, b), EdgeKey(nodes, c));
    }
  }

  lemma SameKeySameEdge(nodes: seq<Node>, a: Edge, b: Edge)
    requires EdgeKey(nodes, a) == EdgeKey(nodes, b)
    ensures a == b
  {
    var k, m := EdgeKey(nodes, a), EdgeKey(nodes, b);
    assert k[0] == m[0] && k[1] == m[1] && k[4] == m[4] && k[5] == m[5];
    assert "0" != "1" by { assert "0"[0] != "1"[0]; }
  }

  // ----- aggregation -----

  /** diagnosticHealth */
  function DiagnosticHealth(d: Diagnostic): Health
  {
    match d.severity
    case SeverityFailed => Failed
    case SeverityDegraded => Degraded
    case SeverityUnknown => Unknown
    case SeverityOther => Healthy
  }

  /** What counts towards the aggregate: every node, and every affecting diagnostic short of failed. */
  function AggregateInputs(nodes: seq<Node>, ds: seq<Diagnostic>): seq<Health>
  {
    if ds != [] then
      var d := ds[|ds| - 1];
      AggregateInputs(nodes, ds[..|ds| - 1]) +
      (if d.affectsHealth && d.severity != SeverityFailed then [DiagnosticHealth(d)] else [])
    else if nodes == [] then []
    else AggregateInputs(nodes[..|nodes| - 1], []) + [nodes[|nodes| - 1].health]
  }

  /** What counts towards orchestration: the other nodes, and the affecting orchestration diagnostics. */
  function OrchestrationInputs(nodes: seq<Node>, ds: seq<Diagnostic>, service: string): seq<Health>
  {
    if ds != [] then
      var d := ds[|ds| - 1];
      OrchestrationInputs(nodes, ds[..|ds| - 1], service) +
      (if d.affectsHealth && d.orchestration then [DiagnosticHealth(d)] else [])
    else if nodes == [] then []
    else OrchestrationInputs(nodes[..|nodes| - 1], [], service) +
         (if nodes[|nodes| - 1].id == service then [] else [nodes[|nodes| - 1].health])
  }

  function HealthText(h: Health): string
  {
    match h
    case Healthy => "healthy"
    case Unknown => "unknown"
    case Degraded => "degraded"
    case Failed => "failed"
    case OtherHealth(t) => t
  }

  /** displayState */
  function DisplayState(runtime: string, aggregate: Health): string
  {
    if runtime == "failed" then "failed"
    else if aggregate == Healthy then runtime
    else runtime + " (" + HealthText(aggregate) + ")"
  }

  function Summarize(runtime: string, nodes: seq<Node>, ds: seq<Diagnostic>, service: string): Summary
  {
    var aggregate := Fold(AggregateInputs(nodes, ds), Healthy);
    Summary(Fold(OrchestrationInputs(nodes, ds, service), Healthy), aggregate, DisplayState(runtime, aggregate))
  }

  /** What the two accumulators hold after these nodes and diagnostics. */
  ghost predicate Aggregated(nodes: seq<Node>, ds: seq<Diagnostic>, service: string, orchestration: Health,
                             aggregate: Health)
  {
    && aggregate == Fold(AggregateInputs(nodes, ds), Healthy)
    && orchestration == Fold(OrchestrationInputs(nodes, ds, service), Healthy)
  }

  lemma AggregateNode(nodes: seq<Node>, i: nat, service: string, orchestration: Health, aggregate: Health)
    requires i < |nodes| && Aggregated(nodes[..i], [], service, orchestration, aggregate)
    ensures var h := nodes[i].health;
            Aggregated(nodes[..i + 1], [], service,
                       if nodes[i].id == service then orchestration else MoreSevere(orchestration, h),
                       MoreSevere(aggregate, h))
  {
    assert nodes[..i + 1][..i] == nodes[..i];
    var a, o := AggregateInputs(nodes[..i], []), OrchestrationInputs(nodes[..i], [], service);
    FoldSnoc(a, nodes[i].health, Healthy);
    FoldSnoc(o, nodes[i].health, Healthy);
    hide Fold, MoreSevere;
    assert o + [] == o;
  }

  lemma AggregateDiagnostic(nodes: seq<Node>, ds: seq<Diagnostic>, i: nat, service: string, orchestration: Health,
                            aggregate: Health)
    requires i < |ds| && Aggregated(nodes, ds[..i], service, orchestration, aggregate)
    ensures var d := ds[i]; var h := DiagnosticHealth(d);
            Aggregated(nodes, ds[..i + 1], service,
                       if d.affectsHealth && d.orchestration then MoreSevere(orchestration, h) else orchestration,
                       if d.affectsHealth && d.severity != SeverityFailed then MoreSevere(aggregate, h) else aggregate)
  {
    var h := DiagnosticHealth(ds[i]);
    var a, o := AggregateInputs(nodes, ds[..i]), OrchestrationInputs(nodes, ds[..i], service);
    InputsSnoc(nodes, ds, i, service);
    FoldSnoc(a, h, Healthy);
    FoldSnoc(o, h, Healthy);
    hide Fold, MoreSevere, DiagnosticHealth, AggregateInputs, OrchestrationInputs;
  }

  lemma InputsSnoc(nodes: seq<Node>, ds: seq<Diagnostic>, i: nat, service: string)
    requires i < |ds|
    ensures var d := ds[i]; var h := DiagnosticHealth(d); var a := AggregateInputs(nodes, ds[..i]);
            AggregateInputs(nodes, ds[..i + 1]) ==
              if d.affectsHealth && d.severity != SeverityFailed then a + [h] else a
    ensures var d := ds[i]; var h := DiagnosticHealth(d); var o := OrchestrationInputs(nodes, ds[..i], service);
            OrchestrationInputs(nodes, ds[..i + 1], service) ==
              if d.affectsHealth && d.orchestration then o + [h] else o
  {
    assert ds[..i + 1][..i] == ds[..i] && ds[..i + 1][i] == ds[i] && |ds[..i + 1]| == i + 1;
    hide DiagnosticHealth;
    var a, o := AggregateInputs(nodes, ds[..i]), OrchestrationInputs(nodes, ds[..i], service);
    assert a + [] == a && o + [] == o;
  }

  /** aggregateHealth: two accumulators over the nodes and then the diagnostics. */
  method AggregateHealth(runtime: string, nodes: seq<Node>, ds: seq<Diagnostic>, service: string) returns (r: Summary)
    ensures r == Summarize(runtime, nodes, ds, service)
  {
    var orchestration, aggregate := Healthy, Healthy;
    assert Aggregated(nodes[..0], [], service, orchestration, aggregate);
    hide Fold, MoreSevere, DiagnosticHealth, AggregateInputs, OrchestrationInputs;
    for i := 0 to |nodes|
      invariant Aggregated(nodes[..i], [], service, orchestration, aggregate)
    {
      AggregateNode(nodes, i, service, orchestration, aggregate);
      aggregate := MoreSevere(aggregate, nodes[i].health);
      if nodes[i].id == service { continue; }
      orchestration := MoreSevere(orchestration, nodes[i].health);
    }
    assert nodes[..|nodes|] == nodes && ds[..0] == [];
    for i := 0 to |ds|
      invariant Aggregated(nodes, ds[..i], service, orchestration, aggregate)
    {
      var d := ds[i];
      var health := DiagnosticHealth(d);
      AggregateDiagnostic(nodes, ds, i, service, orchestration, aggregate);
      if !d.affectsHealth { continue; }
      if d.orchestration { orchestration := MoreSevere(orchestration, health); }
      if d.severity != SeverityFailed { aggregate := MoreSevere(aggregate, health); }
    }
    assert ds[..|ds|] == ds;
    r := Summary(orchestration, aggregate, DisplayState(runtime, aggregate));
  }

  // ----- Finalize -----

  /** The finalized form of a good model. */
  function Finalized(m: Model): Model
    requires |ServiceIds(m.nodes)| == 1
  {
    var service := ServiceIds(m.nodes)[0];
    var nodes := SortBy(NodeLess(), MapSeq(Deriving(service, m.runtime), m.nodes));
    m.(nodes := nodes, edges := SortBy(EdgeLess(nodes), m.edges),
       summary := Summarize(m.runtime, nodes, m.diagnostics, service))
  }

  method Finalize(m: Model) returns (r: Option<Model>)
    requires NonEmptyIds(m.nodes)
    ensures r.Some? <==> GoodGraph(m.nodes, m.edges)
    ensures r.Some? ==> r.value == Finalized(m)
    ensures r.Some? ==> SummaryLaw(m, r.value.summary)
  {
    var service := ValidateGraph(m.nodes, m.edges);
    if service.None? { return None; }
    var nodes := DeriveNodeHealth(m.nodes, service.value, m.runtime);
    nodes := SortBy(NodeLess(), nodes);
    var edges := SortBy(EdgeLess(nodes), m.edges);
    var summary := AggregateHealth(m.runtime, nodes, m.diagnostics, service.value);
    SummaryExact(m);
    return Some(m.(nodes := nodes, edges := edges, summary := summary));
  }

  /** What the summary says of the given model, in words of the model. */
  ghost predicate SummaryLaw(m: Model, s: Summary)
  {
    && s.aggregate ==
         (if m.runtime == "failed" then Failed
          else if OtherHas(m, Failed) || OtherHas(m, Degraded) || Reports(m, SeverityDegraded) then Degraded
          else if m.runtime == "unknown" || OtherHas(m, Unknown) || Reports(m, SeverityUnknown) then Unknown
          else Healthy)
    && s.orchestration ==
         (if OrchestrationReports(m, SeverityFailed) then Failed
          else if OtherHas(m, Failed) || OtherHas(m, Degraded) ||
              OrchestrationReports(m, SeverityDegraded) then Degraded
          else if OtherHas(m, Unknown) || OrchestrationReports(m, SeverityUnknown) then Unknown
          else Healthy)
    && s.display ==
         (if s.aggregate == Failed then "failed"
          else if s.aggregate == Degraded then m.runtime + " (degraded)"
          else if s.aggregate == Unknown then m.runtime + " (unknown)"
          else m.runtime)
  }

  lemma SummaryExact(m: Model)
    requires GoodGraph(m.nodes, m.edges)
    ensures SummaryLaw(m, Finalized(m).summary)
  {
    AggregateExact(m);
    OrchestrationExact(m);
    DisplayExact(m);
    hide Finalized, GoodGraph, OtherHas, Reports, OrchestrationReports;
  }

  /** Deriving touches health only. */
  lemma {:induction false} DeriveKeepsShape(nodes: seq<Node>, service: string, runtime: string)
    ensures var d := MapSeq(Deriving(service, runtime), nodes);
            Ids(d) == Ids(nodes) && ServiceIds(d) == ServiceIds(nodes)
  {
    var d := MapSeq(Deriving(service, runtime), nodes);
    assert Ids(d) == Ids(nodes);
    if nodes != [] {
      DeriveKeepsShape(nodes[1..], service, runtime);
      assert d[1..] == MapSeq(Deriving(service, runtime), nodes[1..]);
    }
  }

  lemma FinalizedIsGood(m: Model)
    requires GoodGraph(m.nodes, m.edges)
    ensures GoodGraph(Finalized(m).nodes, Finalized(m).edges) && ServiceIds(Finalized(m).nodes) == ServiceIds(m.nodes)
  {
    var service := ServiceIds(m.nodes)[0];
    var d := MapSeq(Deriving(service, m.runtime), m.nodes);
    DeriveKeepsShape(m.nodes, service, m.runtime);
    assert GoodGraph(d, m.edges);
    SortPermutes(NodeLess(), d);
    var nodes := SortBy(NodeLess(), d);
    SortPermutes(EdgeLess(nodes), m.edges);
    GoodPermutes(d, m.edges, nodes, SortBy(EdgeLess(nodes), m.edges));
  }

  /** Deriving twice is deriving once. */
  lemma DeriveTwice(nodes: seq<Node>, service: string, runtime: string)
    requires forall n | n in nodes :: Derive(service, runtime, n) == n
    ensures MapSeq(Deriving(service, runtime), nodes) == nodes
  {
    var d := MapSeq(Deriving(service, runtime), nodes);
    forall i | 0 <= i < |nodes| ensures d[i] == nodes[i] { assert nodes[i] in nodes; }
  }

  lemma SortedDerived(m: Model)
    requires GoodGraph(m.nodes, m.edges)
    ensures var f := Finalized(m); var service := ServiceIds(m.nodes)[0];
            && LinearOn(NodeLess(), f.nodes) && Sorted(NodeLess(), f.nodes)
            && (forall n | n in f.nodes :: Derive(service, m.runtime, n) == n)
  {
    var service := ServiceIds(m.nodes)[0];
    var d := MapSeq(Deriving(service, m.runtime), m.nodes);
    FinalizedIsGood(m);
    assert Finalized(m).nodes == SortBy(NodeLess(), d);
    DeriveKeepsShape(m.nodes, service, m.runtime);
    DerivedFixed(m.nodes, service, m.runtime);
    hide Finalized, Derive, ServiceIds, PathTo, Ids, NodeLess, SortBy, LinearOn, Sorted;
    NodeLinear(Finalized(m).nodes);
    NodeLinear(d);
    LinearIsWeak(NodeLess(), d);
    SortSorts(NodeLess(), d);
    SortPermutes(NodeLess(), d);
  }

  lemma DerivedFixed(nodes: seq<Node>, service: string, runtime: string)
    ensures forall n | n in MapSeq(Deriving(service, runtime), nodes) :: Derive(service, runtime, n) == n
  {
    var d := MapSeq(Deriving(service, runtime), nodes);
    forall n | n in d ensures Derive(service, runtime, n) == n {
      var i :| 0 <= i < |d| && d[i] == n;
      assert n == Derive(service, runtime, nodes[i]);
    }
  }

  /** The finalized graph has the same node IDs and the same edges, and the runtime state stays. */
  lemma FinalizedPermutes(m: Model)
    requires GoodGraph(m.nodes, m.edges)
    ensures var f := Finalized(m);
            && multiset(Ids(f.nodes)) == multiset(Ids(m.nodes)) && multiset(f.edges) == multiset(m.edges)
            && f.runtime == m.runtime
  {
    var service := ServiceIds(m.nodes)[0];
    var derived := MapSeq(Deriving(service, m.runtime), m.nodes);
    DeriveKeepsShape(m.nodes, service, m.runtime);
    SortPermutes(NodeLess(), derived);
    var nodes := SortBy(NodeLess(), derived);
    IdsPermute(nodes, derived);
    SortPermutes(EdgeLess(nodes), m.edges);
  }

  /** Finalizing a finalized model changes nothing. */
  lemma FinalizeIdempotent(m: Model)
    requires GoodGraph(m.nodes, m.edges)
    ensures GoodGraph(Finalized(m).nodes, Finalized(m).edges) && Finalized(Finalized(m)) == Finalized(m)
  {
    FinalizedIsGood(m);
    SortedDerived(m);
    var f, service := Finalized(m), ServiceIds(m.nodes)[0];
    DeriveTwice(f.nodes, service, m.runtime);
    SortFixed(NodeLess(), f.nodes);
    EdgeLinear(f.nodes, m.edges);
    LinearIsWeak(EdgeLess(f.nodes), m.edges);
    SortSorts(EdgeLess(f.nodes), m.edges);
    SortPermutes(EdgeLess(f.nodes), m.edges);
    EdgeLinear(f.nodes, f.edges);
    SortFixed(EdgeLess(f.nodes), f.edges);
  }

  /** The order in which nodes and edges were collected cannot show in the finalized model. */
  lemma FinalizeOrderInsensitive(m: Model, nodes: seq<Node>, edges: seq<Edge>)
    requires GoodGraph(m.nodes, m.edges) && multiset(nodes) == multiset(m.nodes) && multiset(edges) == multiset(m.edges)
    ensures GoodGraph(nodes, edges) && Finalized(m.(nodes := nodes, edges := edges)) == Finalized(m)
  {
    GoodPermutes(m.nodes, m.edges, nodes, edges);
    var service := ServiceIds(m.nodes)[0];
    var f := Deriving(service, m.runtime);
    MapPermutes(f, m.nodes, nodes);
    DeriveKeepsShape(m.nodes, service, m.runtime);
    NodeLinear(MapSeq(f, m.nodes));
    SortCanonical(NodeLess(), MapSeq(f, m.nodes), MapSeq(f, nodes));
    var sorted := SortBy(NodeLess(), MapSeq(f, m.nodes));
    EdgeLinear(sorted, m.edges);
    SortCanonical(EdgeLess(sorted), m.edges, edges);
  }

  lemma {:induction false} InputsOfDiagnostics(nodes: seq<Node>, ds: seq<Diagnostic>)
    ensures Failed in AggregateInputs(nodes, ds) <==> exists n :: n in nodes && n.health == Failed
    decreases |nodes| + |ds|
  {
    if ds != [] {
      InputsOfDiagnostics(nodes, ds[..|ds| - 1]);
    } else if nodes != [] {
      var k := |nodes| - 1;
      InputsOfDiagnostics(nodes[..k], []);
      assert nodes == nodes[..k] + [nodes[k]];
    }
  }

  /** The aggregate says failed exactly when the runtime state says failed, whatever the other
      nodes' healths and the diagnostics say. */
  lemma AggregateFailedExactly(m: Model)
    requires GoodGraph(m.nodes, m.edges)
    ensures Finalized(m).summary.aggregate == Failed <==> m.runtime == "failed"
  {
    var f, service := Finalized(m), ServiceIds(m.nodes)[0];
    SortedDerived(m);
    FinalizedIsGood(m);
    assert f.summary.aggregate == Fold(AggregateInputs(f.nodes, f.diagnostics), Healthy);
    hide *;
    ServiceNodeExists(f.nodes, service);
    FailedNodesExactly(f.nodes, f.diagnostics, service, m.runtime);
  }

  lemma FailedNodesExactly(nodes: seq<Node>, ds: seq<Diagnostic>, service: string, runtime: string)
    requires forall n | n in nodes :: Derive(service, runtime, n) == n
    requires exists n :: n in nodes && n.id == service
    ensures Fold(AggregateInputs(nodes, ds), Healthy) == Failed <==> runtime == "failed"
  {
    FoldIsWorst(AggregateInputs(nodes, ds));
    InputsOfDiagnostics(nodes, ds);
    var n :| n in nodes && n.id == service;
    hide AggregateInputs, Fold;
    assert Derive(service, runtime, n) == n;
  }

  lemma ServiceNodeExists(nodes: seq<Node>, service: string)
    requires |ServiceIds(nodes)| == 1 && ServiceIds(nodes)[0] == service
    ensures exists n :: n in nodes && n.id == service
  {
    var found := Filter(IsService(), nodes);
    FilterMembers(IsService(), nodes);
    assert found[0] in found && found[0].id == service;
  }

  // ----- the finalized model, on the input -----

  /** The health a node ends with. */
  function FinalHealth(runtime: string, n: Node): Health
  {
    if n.typ == "service" then
      (if runtime == "failed" then Failed else if runtime == "unknown" then Unknown else Healthy)
    else if n.health == Failed then Degraded
    else n.health
  }

  lemma ServiceById(m: Model, n: Node)
    requires GoodGraph(m.nodes, m.edges) && n in m.nodes
    ensures n.id == ServiceIds(m.nodes)[0] <==> n.typ == "service"
  {
    var found := Filter(IsService(), m.nodes);
    FilterMembers(IsService(), m.nodes);
    assert |found| == 1 && found[0] in found && found[0] in m.nodes && ServiceIds(m.nodes)[0] == found[0].id;
    if n.typ == "service" {
      assert n in found;
    } else if n.id == found[0].id {
      SameIdSameNode(m.nodes, n, found[0]);
    }
    hide Filter;
  }

  /** The finalized nodes are the given ones with their final health, and nothing else about them changes. */
  lemma NodesExact(m: Model, f: Node)
    requires GoodGraph(m.nodes, m.edges)
    ensures f in Finalized(m).nodes <==> exists n :: n in m.nodes && f == n.(health := FinalHealth(m.runtime, n))
  {
    var service := ServiceIds(m.nodes)[0];
    var derived := MapSeq(Deriving(service, m.runtime), m.nodes);
    SortPermutes(NodeLess(), derived);
    SameMultiset(SortBy(NodeLess(), derived), derived);
    assert Finalized(m).nodes == SortBy(NodeLess(), derived);
    hide SortBy, Finalized;
    forall n | n in m.nodes ensures Derive(service, m.runtime, n) == n.(health := FinalHealth(m.runtime, n)) {
      ServiceById(m, n);
    }
    hide GoodGraph, ServiceIds;
    assert forall i | 0 <= i < |derived| ::
        m.nodes[i] in m.nodes && derived[i] == Derive(service, m.runtime, m.nodes[i]);
    hide Derive, Deriving, FinalHealth, MapSeq;
    DerivedMember(m.nodes, derived, m.runtime, f);
  }

  lemma DerivedMember(nodes: seq<Node>, derived: seq<Node>, runtime: string, f: Node)
    requires |derived| == |nodes| && forall i | 0 <= i < |nodes| ::
              derived[i] == nodes[i].(health := FinalHealth(runtime, nodes[i]))
    ensures f in derived <==> exists n :: n in nodes && f == n.(health := FinalHealth(runtime, n))
  {
    hide FinalHealth;
    if f in derived {
      var i :| 0 <= i < |derived| && derived[i] == f;
      assert nodes[i] in nodes;
    }
    if n :| n in nodes && f == n.(health := FinalHealth(runtime, n)) {
      var i :| 0 <= i < |nodes| && nodes[i] == n;
      assert derived[i] == f;
    }
  }

  /** A node other than the service has this health. */
  ghost predicate OtherHas(m: Model, h: Health) { exists n :: n in m.nodes && n.typ != "service" && n.health == h }

  /** A diagnostic that affects health has this severity. */
  ghost predicate Reports(m: Model, severity: Severity)
  {
    exists d :: d in m.diagnostics && d.affectsHealth && d.severity == severity
  }

  ghost predicate OrchestrationReports(m: Model, severity: Severity)
  {
    exists d :: d in m.diagnostics && d.affectsHealth && d.orchestration && d.severity == severity
  }

  lemma {:induction false} AggregateMembers(nodes: seq<Node>, ds: seq<Diagnostic>, h: Health)
    ensures h in AggregateInputs(nodes, ds) <==>
              || (exists n :: n in nodes && n.health == h)
              || (exists d :: d in ds && d.affectsHealth && d.severity != SeverityFailed && DiagnosticHealth(d) == h)
    decreases |nodes| + |ds|
  {
    if ds != [] {
      var k := |ds| - 1;
      AggregateMembers(nodes, ds[..k], h);
      assert forall d :: d in ds <==> d in ds[..k] || d == ds[k];
      hide DiagnosticHealth;
    } else if nodes != [] {
      var k := |nodes| - 1;
      AggregateMembers(nodes[..k], [], h);
      assert forall n :: n in nodes <==> n in nodes[..k] || n == nodes[k];
    }
  }

  lemma {:induction false} OrchestrationMembers(nodes: seq<Node>, ds: seq<Diagnostic>, service: string, h: Health)
    ensures h in OrchestrationInputs(nodes, ds, service) <==>
              || (exists n :: n in nodes && n.id != service && n.health == h)
              || (exists d :: d in ds && d.affectsHealth && d.orchestration && DiagnosticHealth(d) == h)
    decreases |nodes| + |ds|
  {
    if ds != [] {
      var k := |ds| - 1;
      OrchestrationMembers(nodes, ds[..k], service, h);
      assert forall d :: d in ds <==> d in ds[..k] || d == ds[k];
      hide DiagnosticHealth;
    } else if nodes != [] {
      var k := |nodes| - 1;
      OrchestrationMembers(nodes[..k], [], service, h);
      assert forall n :: n in nodes <==> n in nodes[..k] || n == nodes[k];
    }
  }

  /** Which final healths other nodes and the service contribute. */
  lemma NodeHealths(m: Model, h: Health)
    requires GoodGraph(m.nodes, m.edges)
    ensures (exists f :: f in Finalized(m).nodes && f.id != ServiceIds(m.nodes)[0] && f.health == h) <==>
              h != Failed && (OtherHas(m, h) || (h == Degraded && OtherHas(m, Failed)))
    ensures (exists f :: f in Finalized(m).nodes && f.health == h) <==>
              || (h != Failed && (OtherHas(m, h) || (h == Degraded && OtherHas(m, Failed))))
              || h == (if m.runtime == "failed" then Failed else if m.runtime == "unknown" then Unknown else Healthy)
  {
    var service, fs := ServiceIds(m.nodes)[0], Finalized(m).nodes;
    forall n | n in m.nodes ensures n.(health := FinalHealth(m.runtime, n)) in fs &&
        (n.id == service <==> n.typ == "service") {
      NodesExact(m, n.(health := FinalHealth(m.runtime, n)));
      ServiceById(m, n);
    }
    forall f | f in fs ensures exists n :: n in m.nodes && f == n.(health := FinalHealth(m.runtime, n)) {
      NodesExact(m, f);
    }
    GoodServiceExists(m);
    hide Finalized, GoodGraph, ServiceIds;
    FinalHealths(m, fs, service, h);
  }

  ghost predicate Finals(m: Model, fs: seq<Node>, service: string)
  {
    && (forall n | n in m.nodes ::
          n.(health := FinalHealth(m.runtime, n)) in fs && (n.id == service <==> n.typ == "service"))
    && (forall f | f in fs :: exists n :: n in m.nodes && f == n.(health := FinalHealth(m.runtime, n)))
  }

  lemma OtherFinal(m: Model, fs: seq<Node>, service: string, h: Health)
    requires Finals(m, fs, service)
    ensures (exists f :: f in fs && f.id != service && f.health == h) <==>
              h != Failed && (OtherHas(m, h) || (h == Degraded && OtherHas(m, Failed)))
  {
    if f :| f in fs && f.id != service && f.health == h {
      var n :| n in m.nodes && f == n.(health := FinalHealth(m.runtime, n));
      assert n.id == f.id && n.typ != "service";
    }
    if n :| n in m.nodes && n.typ != "service" && FinalHealth(m.runtime, n) == h {
      var f := n.(health := FinalHealth(m.runtime, n));
      assert f in fs && f.id != service && f.health == h;
    }
  }

  lemma ServiceFinal(m: Model, fs: seq<Node>, service: string, h: Health)
    requires Finals(m, fs, service) && exists n :: n in m.nodes && n.typ == "service"
    ensures (exists f :: f in fs && f.id == service && f.health == h) <==>
              h == (if m.runtime == "failed" then Failed else if m.runtime == "unknown" then Unknown else Healthy)
  {
    if f :| f in fs && f.id == service && f.health == h {
      var n :| n in m.nodes && f == n.(health := FinalHealth(m.runtime, n));
      assert n.id == f.id && n.typ == "service";
    }
    var s :| s in m.nodes && s.typ == "service";
    var f := s.(health := FinalHealth(m.runtime, s));
    assert f in fs && f.id == service;
  }

  lemma FinalHealths(m: Model, fs: seq<Node>, service: string, h: Health)
    requires Finals(m, fs, service) && exists n :: n in m.nodes && n.typ == "service"
    ensures (exists f :: f in fs && f.id != service && f.health == h) <==>
              h != Failed && (OtherHas(m, h) || (h == Degraded && OtherHas(m, Failed)))
    ensures (exists f :: f in fs && f.health == h) <==>
              || (h != Failed && (OtherHas(m, h) || (h == Degraded && OtherHas(m, Failed))))
              || h == (if m.runtime == "failed" then Failed else if m.runtime == "unknown" then Unknown else Healthy)
  {
    OtherFinal(m, fs, service, h);
    ServiceFinal(m, fs, service, h);
    hide Finals, OtherHas;
    assert (exists f :: f in fs && f.health == h) <==>
             (exists f :: f in fs && f.id != service && f.health == h) ||
                 (exists f :: f in fs && f.id == service && f.health == h);
  }

  lemma GoodServiceExists(m: Model)
    requires GoodGraph(m.nodes, m.edges)
    ensures exists n :: n in m.nodes && n.typ == "service"
  {
    var found := Filter(IsService(), m.nodes);
    FilterMembers(IsService(), m.nodes);
    assert found[0] in found;
  }

  /** The aggregate, on the input: failed exactly with the runtime, and otherwise the worst of the other
      nodes, where failed counts as degraded, the affecting diagnostics short of failed, and an unknown
      runtime. */
  lemma AggregateExact(m: Model)
    requires GoodGraph(m.nodes, m.edges)
    ensures Finalized(m).summary.aggregate ==
              if m.runtime == "failed" then Failed
              else if OtherHas(m, Failed) || OtherHas(m, Degraded) || Reports(m, SeverityDegraded) then Degraded
              else if m.runtime == "unknown" || OtherHas(m, Unknown) || Reports(m, SeverityUnknown) then Unknown
              else Healthy
  {
    var f := Finalized(m);
    assert f.summary.aggregate == Fold(AggregateInputs(f.nodes, m.diagnostics), Healthy);
    FoldIsWorst(AggregateInputs(f.nodes, m.diagnostics));
    AggregateMembers(f.nodes, m.diagnostics, Failed);
    AggregateMembers(f.nodes, m.diagnostics, Degraded);
    AggregateMembers(f.nodes, m.diagnostics, Unknown);
    NodeHealths(m, Failed);
    NodeHealths(m, Degraded);
    NodeHealths(m, Unknown);
    hide Finalized, Fold, AggregateInputs, GoodGraph, OtherHas;
  }

  /** Orchestration health, on the input: the same without the service, and from orchestration
      diagnostics only, which may also say failed. */
  lemma OrchestrationExact(m: Model)
    requires GoodGraph(m.nodes, m.edges)
    ensures Finalized(m).summary.orchestration ==
              if OrchestrationReports(m, SeverityFailed) then Failed
              else if OtherHas(m, Failed) || OtherHas(m, Degraded) || OrchestrationReports(m, SeverityDegraded)
              then Degraded
              else if OtherHas(m, Unknown) || OrchestrationReports(m, SeverityUnknown) then Unknown
              else Healthy
  {
    var f, service := Finalized(m), ServiceIds(m.nodes)[0];
    assert f.summary.orchestration == Fold(OrchestrationInputs(f.nodes, m.diagnostics, service), Healthy);
    FoldIsWorst(OrchestrationInputs(f.nodes, m.diagnostics, service));
    OrchestrationMembers(f.nodes, m.diagnostics, service, Failed);
    OrchestrationMembers(f.nodes, m.diagnostics, service, Degraded);
    OrchestrationMembers(f.nodes, m.diagnostics, service, Unknown);
    NodeHealths(m, Failed);
    NodeHealths(m, Degraded);
    NodeHealths(m, Unknown);
    hide Finalized, Fold, OrchestrationInputs, GoodGraph, OtherHas, ServiceIds;
  }

  /** The text shown: the runtime state, with what else is wrong in parentheses. */
  lemma DisplayExact(m: Model)
    requires GoodGraph(m.nodes, m.edges)
    ensures Finalized(m).summary.display ==
              if m.runtime == "failed" then "failed"
              else if OtherHas(m, Failed) || OtherHas(m, Degraded) || Reports(m, SeverityDegraded)
              then m.runtime + " (degraded)"
              else if m.runtime == "unknown" || OtherHas(m, Unknown) || Reports(m, SeverityUnknown)
              then m.runtime + " (unknown)"
              else m.runtime
  {
    AggregateExact(m);
    assert Finalized(m).summary.display == DisplayState(m.runtime, Finalized(m).summary.aggregate);
    hide *;
    DisplayText(m.runtime);
  }

  lemma DisplayText(runtime: string)
    ensures DisplayState("failed", Failed) == "failed"
    ensures runtime == "failed" ==> forall a :: DisplayState(runtime, a) == "failed"
    ensures runtime != "failed" ==>
              && DisplayState(runtime, Degraded) == runtime + " (degraded)"
              && DisplayState(runtime, Unknown) == runtime + " (unknown)" && DisplayState(runtime, Healthy) == runtime
  {
    assert " (" + "degraded" + ")" == " (degraded)" && " (" + "unknown" + ")" == " (unknown)";
  }

  /** Nodes by type, then scope, then ID. */
  predicate NodeBefore(a: Node, b: Node)
  {
    || Text.Less(a.typ, b.typ)
    || (a.typ == b.typ && (Text.Less(a.scope, b.scope) || (a.scope == b.scope && Text.Less(a.id, b.id))))
  }

  /** Edges by source, relation, the target's type and scope, target, and primary ones first. */
  predicate EdgeBefore(a: Edge, ta: Node, b: Edge, tb: Node)
  {
    || Text.Less(a.from, b.from)
    || (a.from == b.from &&
        (|| Text.Less(a.relation, b.relation)
         || (a.relation == b.relation &&
             (|| Text.Less(ta.typ, tb.typ)
              || (ta.typ == tb.typ &&
                  (|| Text.Less(ta.scope, tb.scope)
                   || (ta.scope == tb.scope &&
                       (|| Text.Less(a.to, b.to)
                        || (a.to == b.to && a.primary && !b.primary)))))))))
  }

  lemma LexCons(x: string, xs: seq<string>, y: string, ys: seq<string>)
    ensures Text.LexLess([x] + xs, [y] + ys) <==> Text.Less(x, y) || (x == y && Text.LexLess(xs, ys))
  {
    assert ([x] + xs)[1..] == xs && ([y] + ys)[1..] == ys;
    hide Text.Less;
  }

  lemma NodeKeyMeans(a: Node, b: Node)
    ensures NodeLess()(a, b) <==> NodeBefore(a, b)
  {
    hide Text.Less;
    LexCons(a.id, [], b.id, []);
    LexCons(a.scope, [a.id], b.scope, [b.id]);
    LexCons(a.typ, [a.scope, a.id], b.typ, [b.scope, b.id]);
    assert !Text.LexLess([], []);
    hide Text.LexLess;
    assert NodeKey(a) == [a.typ] + [a.scope, a.id] && [a.scope, a.id] == [a.scope] + [a.id] && [a.id] == [a.id] + [];
    assert NodeKey(b) == [b.typ] + [b.scope, b.id] && [b.scope, b.id] == [b.scope] + [b.id] && [b.id] == [b.id] + [];
  }

  lemma {:induction false} TargetIs(nodes: seq<Node>, t: Node)
    requires NoDuplicates(Ids(nodes)) && t in nodes
    ensures Target(nodes, t.id) == (t.typ, t.scope)
  {
    var n := |nodes| - 1;
    if nodes[n].id == t.id {
      assert nodes[n] in nodes;
      SameIdSameNode(nodes, t, nodes[n]);
    } else {
      assert Ids(nodes[..n]) == Ids(nodes)[..n];
      TargetIs(nodes[..n], t);
    }
  }

  lemma PrimaryText(a: bool, b: bool)
    ensures var x := if a then "0" else "1"; var y := if b then "0" else "1"; Text.LexLess([x], [y]) <==> a && !b
  {
    assert Text.Less("0", "1") && !Text.Less("1", "0") && !Text.Less("0", "0") && !Text.Less("1", "1");
  }

  lemma EdgeKeyMeans(nodes: seq<Node>, a: Edge, ta: Node, b: Edge, tb: Node)
    requires NoDuplicates(Ids(nodes)) && ta in nodes && tb in nodes && ta.id == a.to && tb.id == b.to
    ensures EdgeLess(nodes)(a, b) <==> EdgeBefore(a, ta, b, tb)
  {
    TargetIs(nodes, ta);
    TargetIs(nodes, tb);
    PrimaryText(a.primary, b.primary);
    var pa, pb := if a.primary then "0" else "1", if b.primary then "0" else "1";
    hide Text.Less, Text.LexLess, Target;
    LexCons(a.to, [pa], b.to, [pb]);
    LexCons(ta.scope, [a.to, pa], tb.scope, [b.to, pb]);
    LexCons(ta.typ, [ta.scope, a.to, pa], tb.typ, [tb.scope, b.to, pb]);
    LexCons(a.relation, [ta.typ, ta.scope, a.to, pa], b.relation, [tb.typ, tb.scope, b.to, pb]);
    LexCons(a.from, [a.relation, ta.typ, ta.scope, a.to, pa], b.from, [b.relation, tb.typ, tb.scope, b.to, pb]);
    Spelled(a.from, a.relation, ta.typ, ta.scope, a.to, pa);
    Spelled(b.from, b.relation, tb.typ, tb.scope, b.to, pb);
  }

  lemma Spelled(a: string, b: string, c: string, d: string, e: string, f: string)
    ensures [a, b, c, d, e, f] == [a] + [b, c, d, e, f] && [b, c, d, e, f] == [b] + [c, d, e, f]
    ensures [c, d, e, f] == [c] + [d, e, f] && [d, e, f] == [d] + [e, f] && [e, f] == [e] + [f]
  {
  }

  /** The order of the finalized graph, field by field. */
  lemma FinalizedOrder(m: Model)
    requires GoodGraph(m.nodes, m.edges)
    ensures var f := Finalized(m);
            && (forall i, j | 0 <= i < j < |f.nodes| :: NodeBefore(f.nodes[i], f.nodes[j]))
            && (forall i, j, ti, tj | 0 <= i < j < |f.edges| && ti in f.nodes && tj in f.nodes &&
                ti.id == f.edges[i].to && tj.id == f.edges[j].to ::
                  !EdgeBefore(f.edges[j], tj, f.edges[i], ti))
  {
    var f := Finalized(m);
    SortedDerived(m);
    FinalizedIsGood(m);
    EdgeLinear(f.nodes, m.edges);
    LinearIsWeak(EdgeLess(f.nodes), m.edges);
    SortSorts(EdgeLess(f.nodes), m.edges);
    assert Sorted(EdgeLess(f.nodes), f.edges) && NoDuplicates(Ids(f.nodes));
    hide Finalized, GoodGraph, NodeBefore, EdgeBefore, NodeLess, EdgeLess;
    forall i, j | 0 <= i < j < |f.nodes| ensures NodeBefore(f.nodes[i], f.nodes[j]) {
      NodeKeyMeans(f.nodes[i], f.nodes[j]);
      NodeKeyMeans(f.nodes[j], f.nodes[i]);
      assert Ids(f.nodes)[i] != Ids(f.nodes)[j];
      assert f.nodes[i] in f.nodes && f.nodes[j] in f.nodes;
    }
    forall i, j, ti, tj | 0 <= i < j < |f.edges| && ti in f.nodes && tj in f.nodes && ti.id == f.edges[i].to &&
        tj.id == f.edges[j].to
      ensures !EdgeBefore(f.edges[j], tj, f.edges[i], ti)
    {
      EdgeKeyMeans(f.nodes, f.edges[j], tj, f.edges[i], ti);
    }
  }
}
