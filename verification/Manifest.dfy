/** The status participation manifest: its validator, its connectivity check, and its
    materialization into a status model (internal/visionapi/status_manifest.go, status_collect.go). */
module Manifest {
  import opened Options
  import opened Sorting
  import opened PrimaryPath
  import SV = StatusView
  import NodeId
  import Text

  datatype Component = Component(key: string, typ: string, name: string, scope: string, identity: string,
                                 serviceName: string, busName: string)

  datatype Relationship = Relationship(namespace: string, from: string, to: string, relation: string, primary: bool)

  datatype Namespace = Namespace(name: string, complete: bool, applicable: bool)

  /** `generatedAtValid` is the outcome of parsing generated_at as a non-zero RFC 3339 time. */
  datatype Manifest = Manifest(version: int, complete: bool, unit: string, mode: string, uid: nat, scope: string,
                               source: string, generatedAtValid: bool, namespaces: seq<Namespace>,
                               components: seq<Component>, relationships: seq<Relationship>)

  const Control := "control"

  /** wantNamespaces */
  function Wanted(): set<string> { {"accounting", "bus", "control", "observation"} }

  /** allowedComponentTypes */
  function ComponentTypes(): set<string>
  {
    {"service", "servicectl-api", "s6", "sys-orchestrd", "dinit", "sys-notifyd", "sysvbus", "dbus", "sysvisiond",
        "sys-cgroupd"}
  }

  function Digits(n: nat): string
  {
    if n < 10 then [(48 + n) as char] else Digits(n / 10) + [(48 + n % 10) as char]
  }

  predicate Blank(s: string) { Text.TrimSpace(s) == "" }

  /** Lines 12 to 38: version, completeness, canonical unit, mode, scope, source and time. */
  predicate HeaderOk(m: Manifest)
  {
    && m.version == 1 && m.complete && !Blank(m.unit) && !Blank(m.scope)
    && Text.TrimSpace(m.unit) == m.unit && Text.HasSuffix(m.unit, ".service")
    && (m.mode == "system" || m.mode == "user")
    && m.scope == (if m.mode == "system" then "system" else "user@" + Digits(m.uid))
    && !Blank(m.source) && m.generatedAtValid
  }

  function NameOf(): Namespace -> string { (n: Namespace) => n.name }

  /** Exactly the four namespaces, each once and complete. */
  ghost predicate NamespacesOk(m: Manifest)
  {
    && NoDuplicates(MapSeq(NameOf(), m.namespaces))
    && (forall n | n in m.namespaces :: n.name in Wanted() && n.complete)
    && (forall w | w in Wanted() :: exists n :: n in m.namespaces && n.name == w)
  }

  /** One component on its own. */
  predicate ComponentOk(m: Manifest, c: Component)
  {
    && !Blank(c.key) && !Blank(c.typ) && !Blank(c.name) && !Blank(c.scope) && !Blank(c.identity)
    && NodeId.NewNodeID(c.typ, c.scope, c.identity) == Some(c.key)
    && c.typ in ComponentTypes()
    && (c.scope == m.scope || (c.typ == "sys-cgroupd" && c.scope == "system"))
    && (c.typ != "dbus" ==> !Blank(c.serviceName))
    && (c.typ == "dbus" ==> !Blank(c.busName))
    && (c.typ == "service" ==> c.scope == m.scope && c.identity == m.unit && c.serviceName == m.unit)
  }

  function KeyOf(): Component -> string { (c: Component) => c.key }

  function IsServiceComponent(): Component -> bool { (c: Component) => c.typ == "service" }

  function Keys(cs: seq<Component>): seq<string> { MapSeq(KeyOf(), cs) }

  function ServiceKeys(cs: seq<Component>): seq<string> { Keys(Filter(IsServiceComponent(), cs)) }

  ghost predicate ComponentsOk(m: Manifest)
  {
    && (forall c | c in m.components :: ComponentOk(m, c))
    && NoDuplicates(Keys(m.components))
    && |ServiceKeys(m.components)| == 1
  }

  /** Which relation may stand in which namespace. */
  predicate RelationFits(relation: string, namespace: string)
  {
    (relation, namespace) in {
      ("controls", "control"), ("supervises", "control"), ("activates", "bus"), ("accounts", "accounting"),
      ("observes", "bus"), ("observes", "observation")
    }
  }

  /** One relationship on its own, given the known keys and the applicable namespaces. */
  predicate RelationshipOk(r: Relationship, keys: set<string>, applicable: set<string>)
  {
    && r.from in keys && r.to in keys && r.namespace in Wanted()
    && (r.primary ==> r.namespace == Control)
    && r.namespace in applicable
    && RelationFits(r.relation, r.namespace)
  }

  ghost function KeySet(m: Manifest): set<string> { set c | c in m.components :: c.key }

  ghost function ApplicableSet(m: Manifest): set<string> { set n | n in m.namespaces && n.applicable :: n.name }

  ghost predicate RelationshipsOk(m: Manifest)
  {
    && (forall r | r in m.relationships :: RelationshipOk(r, KeySet(m), ApplicableSet(m)))
    && NoDuplicates(m.relationships)
  }

  /** materializeStatusModel: one edge per relationship... */
  function ToEdge(): Relationship -> SV.Edge
  {
    (r: Relationship) => SV.Edge(r.from, r.to, r.relation, r.primary)
  }

  function Edges(rs: seq<Relationship>): seq<SV.Edge> { MapSeq(ToEdge(), rs) }

  /** ...and one node per component, with whatever the probe reported. */
  function ToNode(probe: string -> (SV.Health, string)): Component -> SV.Node
  {
    (c: Component) => SV.Node(c.key, c.typ, c.scope, probe(c.key).0, probe(c.key).1)
  }

  function Nodes(cs: seq<Component>, probe: string -> (SV.Health, string)): seq<SV.Node> { MapSeq(ToNode(probe), cs) }

  // ----- connectivity -----

  predicate Joins(r: Relationship, a: string, b: string)
  {
    (r.from == a && r.to == b) || (r.to == a && r.from == b)
  }

  /** The relationships as an undirected graph. */
  ghost predicate Adjacent(rs: seq<Relationship>, a: string, b: string)
  {
    exists r :: r in rs && Joins(r, a, b)
  }

  ghost predicate IsRoute(rs: seq<Relationship>, p: seq<string>, a: string, b: string)
  {
    |p| >= 1 && p[0] == a && p[|p| - 1] == b && forall i | 0 <= i < |p| - 1 :: Adjacent(rs, p[i], p[i + 1])
  }

  ghost predicate Reaches(rs: seq<Relationship>, a: string, b: string)
  {
    exists p :: IsRoute(rs, p, a, b)
  }

  ghost predicate Connected(m: Manifest, service: string)
  {
    forall k | k in KeySet(m) :: Reaches(m.relationships, service, k)
  }

  lemma RouteStep(rs: seq<Relationship>, a: string, b: string, c: string)
    requires Reaches(rs, a, b) && Adjacent(rs, b, c)
    ensures Reaches(rs, a, c)
  {
    var p :| IsRoute(rs, p, a, b);
    assert IsRoute(rs, p + [c], a, c);
  }

  lemma RouteHere(rs: seq<Relationship>, a: string)
    ensures Reaches(rs, a, a)
  {
    assert IsRoute(rs, [a], a, a);
  }

  lemma {:induction false} RouteInside(rs: seq<Relationship>, s: set<string>, p: seq<string>, k: nat)
    requires p != [] && p[0] in s && k < |p|
    requires forall i | 0 <= i < |p| - 1 :: Adjacent(rs, p[i], p[i + 1])
    requires forall a, b | a in s && Adjacent(rs, a, b) :: b in s
    ensures p[k] in s
  {
    if k > 0 {
      RouteInside(rs, s, p, k - 1);
      var i := k - 1;
      assert Adjacent(rs, p[i], p[i + 1]);
    }
  }

  function Neighbours(adjacent: map<string, seq<string>>, a: string): seq<string>
  {
    if a in adjacent then adjacent[a] else []
  }

  /** The adjacency lists, filled in both directions. */
  method BuildAdjacent(rs: seq<Relationship>) returns (adjacent: map<string, seq<string>>)
    ensures forall a, b :: b in Neighbours(adjacent, a) <==> Adjacent(rs, a, b)
  {
    adjacent := map[];
    for i := 0 to |rs|
      invariant forall a, b :: b in Neighbours(adjacent, a) <==> Adjacent(rs[..i], a, b)
    {
      var r := rs[i];
      ghost var before := adjacent;
      adjacent := AddNeighbour(adjacent, r.from, r.to);
      adjacent := AddNeighbour(adjacent, r.to, r.from);
      forall a, b ensures b in Neighbours(adjacent, a) <==> Adjacent(rs[..i + 1], a, b) {
        AdjacentSnoc(rs, i, a, b);
        AddsNeighbour(before, r.from, r.to, a, b);
        AddsNeighbour(AddNeighbour(before, r.from, r.to), r.to, r.from, a, b);
      }
    }
    assert rs[..|rs|] == rs;
  }

  function AddNeighbour(adjacent: map<string, seq<string>>, a: string, b: string): map<string, seq<string>>
  {
    adjacent[a := Neighbours(adjacent, a) + [b]]
  }

  lemma AddsNeighbour(adjacent: map<string, seq<string>>, x: string, y: string, a: string, b: string)
    ensures b in Neighbours(AddNeighbour(adjacent, x, y), a) <==> b in Neighbours(adjacent, a) || (a == x && b == y)
  {
  }

  lemma AdjacentSnoc(rs: seq<Relationship>, i: nat, a: string, b: string)
    requires i < |rs|
    ensures Adjacent(rs[..i + 1], a, b) <==> Adjacent(rs[..i], a, b) || Joins(rs[i], a, b)
  {
    assert rs[..i + 1] == rs[..i] + [rs[i]];
    if Adjacent(rs[..i], a, b) {
      var r :| r in rs[..i] && Joins(r, a, b);
      assert r in rs[..i + 1];
    }
    if Joins(rs[i], a, b) {
      assert rs[i] in rs[..i + 1];
    }
  }

  /** What the search keeps: everything seen or queued is reachable and known, and the neighbours
      of a visited component are visited or queued. */
  ghost predicate Searching(rs: seq<Relationship>, keys: set<string>, service: string, visited: set<string>,
                            queue: seq<string>)
  {
    && (forall x | x in visited || x in queue :: x in keys && Reaches(rs, service, x))
    && (forall a, b | a in visited && Adjacent(rs, a, b) :: b in visited || b in queue)
    && (service in visited || service in queue)
  }

  lemma SearchSkip(rs: seq<Relationship>, keys: set<string>, service: string, visited: set<string>, queue: seq<string>)
    requires Searching(rs, keys, service, visited, queue) && queue != [] && queue[0] in visited
    ensures Searching(rs, keys, service, visited, queue[1..])
  {
    assert queue == [queue[0]] + queue[1..];
  }

  lemma SearchVisit(rs: seq<Relationship>, keys: set<string>, service: string, visited: set<string>,
                    queue: seq<string>, more: seq<string>)
    requires Searching(rs, keys, service, visited, queue) && queue != []
    requires forall b :: b in more <==> Adjacent(rs, queue[0], b) && b !in visited + {queue[0]}
    requires forall a, b | a in keys && Adjacent(rs, a, b) :: b in keys
    ensures Searching(rs, keys, service, visited + {queue[0]}, queue[1..] + more)
  {
    var x := queue[0];
    assert queue == [x] + queue[1..];
    forall b | b in more ensures b in keys && Reaches(rs, service, b) {
      RouteStep(rs, service, x, b);
    }
  }

  lemma SearchDone(rs: seq<Relationship>, keys: set<string>, service: string, visited: set<string>)
    requires Searching(rs, keys, service, visited, [])
    ensures visited == keys <==> forall k | k in keys :: Reaches(rs, service, k)
  {
    forall k | k in keys && Reaches(rs, service, k) ensures k in visited {
      var p :| IsRoute(rs, p, service, k);
      RouteInside(rs, visited, p, |p| - 1);
    }
  }

  /** validateStatusManifestConnectivity passes exactly when every component is reachable from the
      service in the undirected relationship graph. */
  method ValidateConnectivity(service: string, keys: set<string>, rs: seq<Relationship>) returns (ok: bool)
    requires service in keys && forall a, b | a in keys && Adjacent(rs, a, b) :: b in keys
    ensures ok <==> forall k | k in keys :: Reaches(rs, service, k)
  {
    var adjacent := BuildAdjacent(rs);
    var visited: set<string> := {};
    var queue := [service];
    RouteHere(rs, service);
    assert Searching(rs, keys, service, visited, queue);
    while queue != []
      invariant Searching(rs, keys, service, visited, queue) && visited <= keys
      decreases keys - visited, |queue|
    {
      var current := queue[0];
      assert current in queue;
      assert current in keys;
      if current in visited {
        SearchSkip(rs, keys, service, visited, queue);
        queue := queue[1..];
        continue;
      }
      ghost var before := visited;
      visited := visited + {current};
      var more := NotVisited(Neighbours(adjacent, current), visited);
      SearchVisit(rs, keys, service, before, queue, more);
      queue := queue[1..] + more;
      assert keys - visited < keys - before;
    }
    SearchDone(rs, keys, service, visited);
    SubsetCardinality(visited, keys);
    ok := |visited| == |keys|;
  }

  method NotVisited(xs: seq<string>, visited: set<string>) returns (more: seq<string>)
    ensures forall x :: x in more <==> x in xs && x !in visited
  {
    more := [];
    for i := 0 to |xs|
      invariant forall x :: x in more <==> x in xs[..i] && x !in visited
    {
      assert xs[..i + 1] == xs[..i] + [xs[i]];
      if xs[i] !in visited { more := more + [xs[i]]; }
    }
    assert xs[..|xs|] == xs;
  }

  // ----- the validator -----

  /** statusview.CanonicalUnitName; None for an empty name. */
  function CanonicalUnitName(name: string): Option<string>
  {
    var trimmed := Text.TrimSpace(name);
    if trimmed == "" then None
    else if Text.HasSuffix(trimmed, ".service") then Some(trimmed)
    else Some(trimmed + ".service")
  }

  /** A name is its own canonical form exactly if it is trimmed and has the suffix. */
  lemma CanonicalExactly(name: string)
    ensures CanonicalUnitName(name) == Some(name) <==>
              name != "" && Text.Trimmed(name) && Text.HasSuffix(name, ".service")
  {
    Text.TrimSpaceShorter(name);
    SuffixDiffers(name);
    hide Text.TrimSpace;
  }

  /** Adding the suffix to a trimmed name never gives back the name that was trimmed. */
  lemma SuffixDiffers(name: string)
    ensures Text.TrimSpace(name) != "" ==> Text.TrimSpace(name) + ".service" != name
  {
    Text.TrimSpaceTrims(name);
    NotBoth(Text.TrimSpace(name));
    assert |Text.TrimSpace(name) + ".service"| > |Text.TrimSpace(name)|;
    hide Text.TrimSpace;
  }

  /** A trimmed prefix of a service name that lost only blanks lost nothing. */
  lemma NotBoth(trimmed: string)
    ensures Text.Trimmed(trimmed) && trimmed != "" ==> Text.TrimSpace(trimmed + ".service") == trimmed + ".service"
  {
    var name := trimmed + ".service";
    if Text.Trimmed(trimmed) && trimmed != "" {
      assert name[0] == trimmed[0] && name[|name| - 1] == 'e';
      Text.TrimSpaceTrims(name);
    }
  }

  /** The checks before the namespaces, one after another. */
  method ValidateHeader(m: Manifest) returns (ok: bool)
    ensures ok <==> HeaderOk(m)
  {
    BlankMeans(m.unit);
    BlankMeans(m.scope);
    BlankMeans(m.source);
    CanonicalExactly(m.unit);
    Text.TrimSpaceShorter(m.unit);
    hide Text.TrimSpace, Text.HasSuffix, CanonicalUnitName, Digits, Text.Trimmed;
    if m.version != 1 { return false; }
    if !m.complete { return false; }
    if Text.TrimSpace(m.unit) == "" || Text.TrimSpace(m.scope) == "" { return false; }
    if CanonicalUnitName(m.unit) != Some(m.unit) { return false; }
    if m.mode != "system" && m.mode != "user" { return false; }
    var wantScope := if m.mode == "system" then "system" else "user@" + Digits(m.uid);
    if m.scope != wantScope { return false; }
    if Text.TrimSpace(m.source) == "" { return false; }
    return m.generatedAtValid;
  }

  lemma BlankMeans(s: string)
    ensures Blank(s) <==> Text.TrimSpace(s) == ""
  {
  }

  /** The checks of one component but for the duplicate, one after another. */
  method ValidateComponent(m: Manifest, c: Component) returns (ok: bool)
    ensures ok <==> ComponentOk(m, c)
  {
    hide Text.TrimSpace, NodeId.NewNodeID;
    if Text.TrimSpace(c.key) == "" || Text.TrimSpace(c.typ) == "" || Text.TrimSpace(c.name) == "" { return false; }
    if Text.TrimSpace(c.scope) == "" || Text.TrimSpace(c.identity) == "" { return false; }
    var wantKey := NodeId.NewNodeID(c.typ, c.scope, c.identity);
    if wantKey.None? || wantKey.value != c.key { return false; }
    var allowed := ["service", "servicectl-api", "s6", "sys-orchestrd", "dinit", "sys-notifyd", "sysvbus", "dbus",
        "sysvisiond",
                    "sys-cgroupd"];
    if c.typ !in allowed { return false; }
    if c.scope != m.scope && !(c.typ == "sys-cgroupd" && c.scope == "system") { return false; }
    if c.typ != "dbus" && Text.TrimSpace(c.serviceName) == "" { return false; }
    if c.typ == "dbus" && Text.TrimSpace(c.busName) == "" { return false; }
    if c.typ == "service" {
      if c.scope != m.scope || c.identity != m.unit || c.serviceName != m.unit { return false; }
    }
    return true;
  }

  /** statusManifestRelationUsesNamespace: the switch over the relation. */
  method RelationUsesNamespace(relation: string, namespace: string) returns (ok: bool)
    ensures ok <==> RelationFits(relation, namespace)
  {
    if relation == "controls" || relation == "supervises" { return namespace == "control"; }
    if relation == "activates" { return namespace == "bus"; }
    if relation == "accounts" { return namespace == "accounting"; }
    if relation == "observes" { return namespace == "bus" || namespace == "observation"; }
    return false;
  }

  /** The checks of one relationship but for the duplicate, one after another. */
  method ValidateRelationship(r: Relationship, keys: set<string>, applicable: set<string>) returns (ok: bool)
    ensures ok <==> RelationshipOk(r, keys, applicable)
  {
    hide RelationFits;
    if r.from !in keys { return false; }
    if r.to !in keys { return false; }
    if r.namespace !in {"accounting", "bus", "control", "observation"} { return false; }
    if r.primary && r.namespace != "control" { return false; }
    if r.namespace !in applicable { return false; }
    ok := RelationUsesNamespace(r.relation, r.namespace);
  }

  /** The decimal digits of a number read back as that number, without a leading zero. */
  function ReadDigits(s: string): nat
  {
    if s == "" then 0
    else
      var last := s[|s| - 1];
      ReadDigits(s[..|s| - 1]) * 10 + (if '0' <= last <= '9' then last as nat - 48 else 0)
  }

  lemma {:induction false} DigitsExact(n: nat)
    ensures var s := Digits(n);
            && s != "" && ReadDigits(s) == n && (forall c | c in s :: '0' <= c <= '9') && (s[0] == '0' ==> n == 0)
  {
    if n < 10 {
      assert Digits(n)[..0] == "";
    } else {
      DigitsExact(n / 10);
      var s := Digits(n);
      assert s[..|s| - 1] == Digits(n / 10) && s[|s| - 1] == (48 + n % 10) as char;
    }
  }

  /** So the scope of every accepted manifest is one that node IDs accept. */
  lemma ScopeIsCanonical(m: Manifest)
    requires HeaderOk(m)
    ensures NodeId.IsCanonicalScope(m.scope)
  {
    DigitsExact(m.uid);
    var digits := Digits(m.uid);
    if m.mode == "user" {
      assert m.scope[..5] == "user@" && m.scope[5..] == digits;
    }
    hide Digits;
  }

  ghost predicate NamespacesUpTo(m: Manifest, i: nat)
    requires i <= |m.namespaces|
  {
    && NoDuplicates(MapSeq(NameOf(), m.namespaces)[..i])
    && forall k | 0 <= k < i :: m.namespaces[k].name in Wanted() && m.namespaces[k].complete
  }

  lemma NamespaceStep(m: Manifest, i: nat, seen: set<string>)
    requires i < |m.namespaces| && NamespacesUpTo(m, i) && seen == (set k | 0 <= k < i :: m.namespaces[k].name)
    ensures var n := m.namespaces[i]; var ok := n.name in Wanted() && n.name !in seen && n.complete;
            (ok ==> NamespacesUpTo(m, i + 1)) && (!ok ==> !NamespacesOk(m))
  {
    hide Wanted;
    var names, n := MapSeq(NameOf(), m.namespaces), m.namespaces[i];
    assert n in m.namespaces && names[i] == n.name;
    assert forall k | 0 <= k < i :: names[k] == m.namespaces[k].name;
    if n.name in seen {
      var k :| 0 <= k < i && m.namespaces[k].name == n.name;
      assert names[k] == names[i];
    } else {
      FreshName(names, i, set k | 0 <= k < i :: names[k]);
    }
  }

  lemma NamespacesAll(m: Manifest, seen: set<string>)
    requires NamespacesUpTo(m, |m.namespaces|) && seen == (set k | 0 <= k < |m.namespaces| :: m.namespaces[k].name)
    ensures NamespacesOk(m) <==> Wanted() <= seen
  {
    hide Wanted;
    var names := MapSeq(NameOf(), m.namespaces);
    assert names[..|m.namespaces|] == names;
    assert forall k | 0 <= k < |names| :: names[k] == m.namespaces[k].name;
    SeenMeans(m, names, seen);
    forall n | n in m.namespaces ensures n.name in Wanted() && n.complete {
      var k :| 0 <= k < |m.namespaces| && m.namespaces[k] == n;
    }
  }

  lemma ApplicableMeans(m: Manifest, applicable: set<string>)
    requires applicable == (set k | 0 <= k < |m.namespaces| && m.namespaces[k].applicable :: m.namespaces[k].name)
    ensures applicable == ApplicableSet(m)
  {
    forall x | x in ApplicableSet(m) ensures x in applicable {
      var n :| n in m.namespaces && n.applicable && n.name == x;
      var k :| 0 <= k < |m.namespaces| && m.namespaces[k] == n;
    }
  }

  /** The namespace loop, the presence check after it, and the applicable names. */
  method ValidateNamespaces(m: Manifest) returns (ok: bool, applicable: set<string>)
    ensures ok <==> NamespacesOk(m)
    ensures ok ==> applicable == ApplicableSet(m)
  {
    var seen: set<string> := {};
    applicable := {};
    assert NamespacesUpTo(m, 0);
    hide *;
    for i := 0 to |m.namespaces|
      invariant seen == (set k | 0 <= k < i :: m.namespaces[k].name)
      invariant NamespacesUpTo(m, i)
      invariant applicable == (set k | 0 <= k < i && m.namespaces[k].applicable :: m.namespaces[k].name)
    {
      var n := m.namespaces[i];
      NamespaceStep(m, i, seen);
      if n.name !in Wanted() || n.name in seen || !n.complete { return false, {}; }
      seen := seen + {n.name};
      if n.applicable { applicable := applicable + {n.name}; }
    }
    NamespacesAll(m, seen);
    ApplicableMeans(m, applicable);
    ok := Wanted() <= seen;
  }

  lemma FreshName(names: seq<string>, i: nat, seen: set<string>)
    requires i < |names| && NoDuplicates(names[..i]) && seen == (set k | 0 <= k < i :: names[k]) && names[i] !in seen
    ensures NoDuplicates(names[..i + 1])
  {
    forall k | 0 <= k < i ensures names[k] != names[i] { assert names[k] in seen; }
  }

  lemma SeenMeans(m: Manifest, names: seq<string>, seen: set<string>)
    requires names == MapSeq(NameOf(), m.namespaces) && seen == (set k | 0 <= k < |names| :: names[k])
    ensures forall w :: w in seen <==> exists n :: n in m.namespaces && n.name == w
  {
    forall w | exists n :: n in m.namespaces && n.name == w ensures w in seen {
      var n :| n in m.namespaces && n.name == w;
      var k :| 0 <= k < |m.namespaces| && m.namespaces[k] == n;
      assert names[k] == w;
    }
    forall w | w in seen ensures exists n :: n in m.namespaces && n.name == w {
      var k :| 0 <= k < |names| && names[k] == w;
      assert m.namespaces[k] in m.namespaces;
    }
  }

  ghost predicate ComponentsUpTo(m: Manifest, i: nat)
    requires i <= |m.components|
  {
    NoDuplicates(Keys(m.components)[..i]) && forall k | 0 <= k < i :: ComponentOk(m, m.components[k])
  }

  ghost function KeysUpTo(cs: seq<Component>, i: nat): set<string>
    requires i <= |cs|
  {
    set k | 0 <= k < i :: cs[k].key
  }

  lemma KeysUpToStep(cs: seq<Component>, i: nat)
    requires i < |cs|
    ensures KeysUpTo(cs, 0) == {} && KeysUpTo(cs, i + 1) == KeysUpTo(cs, i) + {cs[i].key}
  {
  }

  lemma ComponentStep(m: Manifest, i: nat, keys: set<string>)
    requires i < |m.components| && ComponentsUpTo(m, i) && keys == KeysUpTo(m.components, i)
    ensures var c := m.components[i]; var ok := ComponentOk(m, c) && c.key !in keys;
            (ok ==> ComponentsUpTo(m, i + 1)) && (!ok ==> !ComponentsOk(m))
  {
    hide ComponentOk, ServiceKeys;
    var all, c := Keys(m.components), m.components[i];
    assert c in m.components && all[i] == c.key;
    assert forall k | 0 <= k < i :: all[k] == m.components[k].key;
    if c.key in keys {
      var k :| 0 <= k < i && m.components[k].key == c.key;
      assert all[k] == all[i];
    } else {
      FreshName(all, i, set k | 0 <= k < i :: all[k]);
    }
  }

  lemma ComponentsAll(m: Manifest, keys: set<string>)
    requires ComponentsUpTo(m, |m.components|) && keys == KeysUpTo(m.components, |m.components|)
    ensures keys == KeySet(m) && (ComponentsOk(m) <==> |ServiceKeys(m.components)| == 1)
  {
    hide ComponentOk, ServiceKeys;
    var all := Keys(m.components);
    assert all[..|m.components|] == all;
    forall c | c in m.components ensures ComponentOk(m, c) && c.key in keys {
      var k :| 0 <= k < |m.components| && m.components[k] == c;
    }
  }

  /** The component loop with its duplicate check and service count. */
  method ValidateComponents(m: Manifest) returns (ok: bool, keys: set<string>, service: string)
    ensures ok <==> ComponentsOk(m)
    ensures ok ==> keys == KeySet(m) && ServiceKeys(m.components) == [service]
  {
    var cs := m.components;
    keys, service := {}, "";
    var count := 0;
    assert ComponentsUpTo(m, 0) && ServiceCount(cs, 0, 0, "") && KeysUpTo(cs, 0) == {};
    hide *;
    for i := 0 to |cs|
      invariant keys == KeysUpTo(cs, i)
      invariant ComponentsUpTo(m, i)
      invariant ServiceCount(cs, i, count, service)
    {
      var c := cs[i];
      ComponentStep(m, i, keys);
      var fine := ValidateComponent(m, c);
      if !fine || c.key in keys { return false, {}, ""; }
      KeysUpToStep(cs, i);
      ServiceCountStep(cs, i, count, service);
      keys := keys + {c.key};
      if c.typ == "service" {
        count := count + 1;
        service := c.key;
      }
    }
    ComponentsAll(m, keys);
    ServiceCountAll(cs, count, service);
    ok := count == 1;
  }

  /** How many service components there are among the first `i`, and the last one's key. */
  ghost predicate ServiceCount(cs: seq<Component>, i: nat, count: nat, service: string)
    requires i <= |cs|
  {
    |ServiceKeys(cs[..i])| == count && (count > 0 ==> ServiceKeys(cs[..i])[count - 1] == service)
  }

  lemma ServiceCountStep(cs: seq<Component>, i: nat, count: nat, service: string)
    requires i < |cs| && ServiceCount(cs, i, count, service)
    ensures if cs[i].typ == "service" then ServiceCount(cs, i + 1, count + 1, cs[i].key)
              else ServiceCount(cs, i + 1, count, service)
  {
    ServiceSnoc(cs, i);
  }

  lemma ServiceCountAll(cs: seq<Component>, count: nat, service: string)
    requires ServiceCount(cs, |cs|, count, service)
    ensures |ServiceKeys(cs)| == count && (count == 1 ==> ServiceKeys(cs) == [service])
  {
    assert cs[..|cs|] == cs;
  }

  lemma ServiceSnoc(cs: seq<Component>, i: nat)
    requires i < |cs|
    ensures ServiceKeys(cs[..i + 1]) == ServiceKeys(cs[..i]) + (if cs[i].typ == "service" then [cs[i].key] else [])
  {
    SV.FilterSnoc(IsServiceComponent(), cs, i);
    var found := Filter(IsServiceComponent(), cs[..i]);
    if cs[i].typ == "service" {
      SV.MapAppend(KeyOf(), found, [cs[i]]);
    } else {
      assert found + [] == found;
    }
  }

  ghost predicate RelationshipsUpTo(m: Manifest, i: nat)
    requires i <= |m.relationships|
  {
    (forall k | 0 <= k < i :: RelationshipOk(m.relationships[k], KeySet(m), ApplicableSet(m))) &&
        NoDuplicates(m.relationships[..i])
  }

  /** What the relationship loop knows after the first `i` relationships. */
  ghost predicate RelationshipsCounted(m: Manifest, i: nat, seen: set<Relationship>, c: Counts)
    requires i <= |m.relationships|
  {
    && seen == SeenUpTo(m.relationships, i) && RelationshipsUpTo(m, i) && |Edges(m.relationships)| == |m.relationships|
    && Counted(SV.PrimaryPairs(Edges(m.relationships)[..i]), c) && "" !in c.touched
  }

  lemma RelationshipsBegin(m: Manifest)
    ensures RelationshipsCounted(m, 0, {}, NoCounts)
  {
    CountsStart();
    SV.NoPairs(Edges(m.relationships));
  }

  lemma SideRelationship(m: Manifest, i: nat, seen: set<Relationship>, c: Counts)
    requires i < |m.relationships| && RelationshipsCounted(m, i, seen, c) && !m.relationships[i].primary
    requires RelationshipOk(m.relationships[i], KeySet(m), ApplicableSet(m)) && m.relationships[i] !in seen
    ensures RelationshipsCounted(m, i + 1, seen + {m.relationships[i]}, c)
  {
    hide RelationshipsUpTo, SeenUpTo, Counted, SV.PrimaryPairs, Edges, RelationshipOk, KeySet, ApplicableSet;
    RelationshipStep(m, i, seen);
    SeenUpToStep(m.relationships, i);
    EdgeAt(m.relationships, i);
    SV.PairsSnoc(Edges(m.relationships), i);
    var pairs := SV.PrimaryPairs(Edges(m.relationships)[..i]);
    assert pairs + [] == pairs;
  }

  lemma PrimaryRelationship(m: Manifest, i: nat, seen: set<Relationship>, c: Counts, service: string)
    requires i < |m.relationships| && RelationshipsCounted(m, i, seen, c) && m.relationships[i].primary &&
              "" !in KeySet(m)
    requires RelationshipOk(m.relationships[i], KeySet(m), ApplicableSet(m)) && m.relationships[i] !in seen
    ensures var r := m.relationships[i]; var q := (r.from, r.to);
            if Branches(c, q) then !PathTo(SV.PrimaryPairs(Edges(m.relationships)), service)
            else RelationshipsCounted(m, i + 1, seen + {r}, Count(c, q))
  {
    hide RelationshipsUpTo, SeenUpTo, Counted, SV.PrimaryPairs, Edges, RelationshipOk, KeySet, ApplicableSet;
    hide PathTo, Branches, Count, Functional, Injective;
    var r := m.relationships[i];
    var q := (r.from, r.to);
    RelationshipStep(m, i, seen);
    SeenUpToStep(m.relationships, i);
    EdgeAt(m.relationships, i);
    EndsKnown(r, KeySet(m), ApplicableSet(m));
    SV.PairsSnoc(Edges(m.relationships), i);
    CountStep(SV.PrimaryPairs(Edges(m.relationships)[..i]), c, q);
    SV.TouchedStep(c, q);
    if Branches(c, q) { SV.BranchRejected(Edges(m.relationships), i + 1, service); }
  }

  lemma RelationshipsDone(m: Manifest, seen: set<Relationship>, c: Counts)
    requires RelationshipsCounted(m, |m.relationships|, seen, c)
    ensures RelationshipsOk(m) && Counted(SV.PrimaryPairs(Edges(m.relationships)), c) && "" !in c.touched
  {
    RelationshipsAll(m);
    assert Edges(m.relationships)[..|m.relationships|] == Edges(m.relationships);
    hide *;
  }

  /** The relationship loop: each check, the duplicate key, and the primary counters. */
  method ValidateRelationships(m: Manifest, keys: set<string>, applicable: set<string>, ghost service: string)
    returns (r: Option<Counts>)
    requires keys == KeySet(m) && applicable == ApplicableSet(m) && "" !in keys
    ensures r.Some? ==>
              && RelationshipsOk(m) && Counted(SV.PrimaryPairs(Edges(m.relationships)), r.value)
              && "" !in r.value.touched
    ensures r.None? ==> !RelationshipsOk(m) || !PathTo(SV.PrimaryPairs(Edges(m.relationships)), service)
  {
    var seen: set<Relationship> := {};
    var c := NoCounts;
    RelationshipsBegin(m);
    hide *;
    for i := 0 to |m.relationships|
      invariant RelationshipsCounted(m, i, seen, c)
    {
      var rel := m.relationships[i];
      var fine := ValidateRelationship(rel, keys, applicable);
      if !fine || rel in seen {
        RelationshipFails(m, i, seen, c);
        return None;
      }
      if rel.primary {
        PrimaryRelationship(m, i, seen, c, service);
        if Branches(c, (rel.from, rel.to)) { return None; }
        c := Count(c, (rel.from, rel.to));
      } else {
        SideRelationship(m, i, seen, c);
      }
      seen := seen + {rel};
    }
    RelationshipsDone(m, seen, c);
    return Some(c);
  }

  lemma RelationshipFails(m: Manifest, i: nat, seen: set<Relationship>, c: Counts)
    requires i < |m.relationships| && RelationshipsCounted(m, i, seen, c)
    requires !RelationshipOk(m.relationships[i], KeySet(m), ApplicableSet(m)) || m.relationships[i] in seen
    ensures !RelationshipsOk(m)
  {
    RelationshipStep(m, i, seen);
  }

  lemma EdgeAt(rs: seq<Relationship>, i: nat)
    requires i < |rs|
    ensures |Edges(rs)| == |rs| && Edges(rs)[i] == SV.Edge(rs[i].from, rs[i].to, rs[i].relation, rs[i].primary)
  {
  }

  ghost function SeenUpTo(rs: seq<Relationship>, i: nat): set<Relationship>
    requires i <= |rs|
  {
    set k | 0 <= k < i :: rs[k]
  }

  lemma SeenUpToStep(rs: seq<Relationship>, i: nat)
    requires i < |rs|
    ensures SeenUpTo(rs, i + 1) == SeenUpTo(rs, i) + {rs[i]}
  {
  }

  lemma EndsKnown(r: Relationship, keys: set<string>, applicable: set<string>)
    requires RelationshipOk(r, keys, applicable)
    ensures r.from in keys && r.to in keys
  {
  }

  lemma RelationshipStep(m: Manifest, i: nat, seen: set<Relationship>)
    requires i < |m.relationships| && RelationshipsUpTo(m, i) && seen == SeenUpTo(m.relationships, i)
    ensures var r := m.relationships[i]; var ok := RelationshipOk(r, KeySet(m), ApplicableSet(m)) && r !in seen;
            (ok ==> RelationshipsUpTo(m, i + 1)) && (!ok ==> !RelationshipsOk(m))
  {
    var rs := m.relationships;
    assert rs[i] in rs;
    if rs[i] in seen {
      var k :| 0 <= k < i && rs[k] == rs[i];
    } else {
      forall k | 0 <= k < i ensures rs[k] != rs[i] { assert rs[k] in seen; }
    }
  }

  lemma RelationshipsAll(m: Manifest)
    requires RelationshipsUpTo(m, |m.relationships|)
    ensures RelationshipsOk(m)
  {
    var rs := m.relationships;
    assert rs[..|rs|] == rs;
  }

  /** Everything the validator promises of an accepted manifest. */
  ghost predicate ManifestGood(m: Manifest)
  {
    && HeaderOk(m) && NamespacesOk(m) && ComponentsOk(m) && RelationshipsOk(m)
    && (Control in ApplicableSet(m) <==> SV.PrimaryPairs(Edges(m.relationships)) != [])
    && PathTo(SV.PrimaryPairs(Edges(m.relationships)), ServiceKeys(m.components)[0])
    && Connected(m, ServiceKeys(m.components)[0])
  }

  lemma KeysClosed(m: Manifest)
    requires RelationshipsOk(m)
    ensures forall a, b | a in KeySet(m) && Adjacent(m.relationships, a, b) :: b in KeySet(m)
  {
    forall a, b | a in KeySet(m) && Adjacent(m.relationships, a, b) ensures b in KeySet(m) {
      var r :| r in m.relationships && Joins(r, a, b);
      assert RelationshipOk(r, KeySet(m), ApplicableSet(m));
    }
  }

  lemma KeysNonEmpty(m: Manifest)
    requires ComponentsOk(m)
    ensures "" !in KeySet(m) && ServiceKeys(m.components)[0] in KeySet(m)
  {
    forall k | k in KeySet(m) ensures k != "" {
      var c :| c in m.components && c.key == k;
      assert ComponentOk(m, c);
      assert Text.TrimSpace("") == "";
    }
    var found := Filter(IsServiceComponent(), m.components);
    FilterMembers(IsServiceComponent(), m.components);
    assert found[0] in found && found[0].key == ServiceKeys(m.components)[0];
  }

  /** ValidateStatusParticipationManifest accepts exactly the good manifests. */
  method ValidateManifest(m: Manifest) returns (ok: bool)
    ensures ok <==> ManifestGood(m)
  {
    var headerOk := ValidateHeader(m);
    if !headerOk { return false; }
    var namespacesOk, applicable := ValidateNamespaces(m);
    if !namespacesOk { return false; }
    var componentsOk, keys, service := ValidateComponents(m);
    if !componentsOk { return false; }
    KeysNonEmpty(m);
    var counts := ValidateRelationships(m, keys, applicable, service);
    if counts.None? { return false; }
    var c := counts.value;
    ghost var pairs := SV.PrimaryPairs(Edges(m.relationships));
    SV.Untouched(pairs, c);
    KeysClosed(m);
    hide HeaderOk, NamespacesOk, ComponentsOk, RelationshipsOk, PathTo, Counted, SV.PrimaryPairs, Reaches;
    if c.touched == {} {
      if Control in applicable { return false; }
      EmptyIsPath(pairs, service);
      ok := ValidateConnectivity(service, keys, m.relationships);
      return;
    }
    if Control !in applicable { return false; }
    var path := EndsAtService(pairs, c, service);
    if !path { return false; }
    ok := ValidateConnectivity(service, keys, m.relationships);
  }

  lemma EmptyIsPath(pairs: seq<Pair>, service: string)
    requires pairs == []
    ensures PathTo(pairs, service)
  {
  }

  // ----- the two validators agree -----

  lemma {:induction false} NodesShape(cs: seq<Component>, probe: string -> (SV.Health, string))
    ensures SV.Ids(Nodes(cs, probe)) == Keys(cs) && SV.ServiceIds(Nodes(cs, probe)) == ServiceKeys(cs)
  {
    if cs != [] {
      NodesShape(cs[1..], probe);
      assert Nodes(cs, probe)[1..] == Nodes(cs[1..], probe);
    }
  }

  /** Every accepted manifest materializes, for any probe results, into a graph that validateGraph
      and so Finalize accept. */
  lemma AcceptedManifestFinalizes(m: Manifest, probe: string -> (SV.Health, string))
    requires ManifestGood(m)
    ensures SV.NonEmptyIds(Nodes(m.components, probe)) &&
              SV.GoodGraph(Nodes(m.components, probe), Edges(m.relationships))
  {
    var nodes, edges := Nodes(m.components, probe), Edges(m.relationships);
    NodesShape(m.components, probe);
    KeysNonEmpty(m);
    EdgesStayInside(m);
    forall k ensures k in Keys(m.components) <==> k in KeySet(m) {
      KeyMember(m, k);
    }
    hide HeaderOk, NamespacesOk, ComponentOk, RelationshipsOk, PathTo, Connected, Keys, ServiceKeys, Nodes, Edges,
        KeySet, SV.Ids, SV.ServiceIds;
  }

  lemma EdgesStayInside(m: Manifest)
    requires RelationshipsOk(m)
    ensures forall e | e in Edges(m.relationships) :: e.from in KeySet(m) && e.to in KeySet(m)
  {
    var edges := Edges(m.relationships);
    forall e | e in edges ensures e.from in KeySet(m) && e.to in KeySet(m) {
      var i :| 0 <= i < |edges| && edges[i] == e;
      assert m.relationships[i] in m.relationships;
      assert RelationshipOk(m.relationships[i], KeySet(m), ApplicableSet(m));
    }
  }

  lemma KeyMember(m: Manifest, k: string)
    ensures k in Keys(m.components) <==> k in KeySet(m)
  {
    var cs := m.components;
    if k in Keys(cs) {
      var i :| 0 <= i < |cs| && Keys(cs)[i] == k;
      assert cs[i] in cs;
    }
    if k in KeySet(m) {
      var c :| c in cs && c.key == k;
      var i :| 0 <= i < |cs| && cs[i] == c;
      assert Keys(cs)[i] == k;
    }
  }

  // ----- from manifest to finalized model -----

  /** A component without a probe result gets the `missing` one. */
  function Probe(results: map<string, (SV.Health, string)>, missing: (SV.Health, string)): string -> (SV.Health, string)
  {
    (key: string) => if key in results then results[key] else missing
  }

  /** The service speaks through its observation diagnostic, any other node only when not healthy. */
  function NodeDiagnostics(n: SV.Node, observed: SV.Node -> seq<SV.Diagnostic>,
                           other: SV.Node -> SV.Diagnostic): seq<SV.Diagnostic>
  {
    if n.typ == "service" then observed(n) else if n.health != SV.Healthy then [other(n)] else []
  }

  function AllDiagnostics(nodes: seq<SV.Node>, observed: SV.Node -> seq<SV.Diagnostic>,
                          other: SV.Node -> SV.Diagnostic): seq<SV.Diagnostic>
  {
    if nodes == [] then []
    else
      var n := |nodes| - 1;
      AllDiagnostics(nodes[..n], observed, other) + NodeDiagnostics(nodes[n], observed, other)
  }

  lemma DiagnosticsSnoc(nodes: seq<SV.Node>, n: SV.Node, observed: SV.Node -> seq<SV.Diagnostic>,
                        other: SV.Node -> SV.Diagnostic)
    ensures AllDiagnostics(nodes + [n], observed, other) ==
              AllDiagnostics(nodes, observed, other) + NodeDiagnostics(n, observed, other)
  {
    assert (nodes + [n])[..|nodes|] == nodes;
  }

  lemma NodeAt(cs: seq<Component>, results: map<string, (SV.Health, string)>, missing: (SV.Health, string), i: nat)
    requires i < |cs|
    ensures var probe := Probe(results, missing); var r := if cs[i].key in results then results[cs[i].key] else missing;
            |Nodes(cs, probe)| == |cs| && Nodes(cs, probe)[i] == SV.Node(cs[i].key, cs[i].typ, cs[i].scope, r.0, r.1)
  {
  }

  /** The component loop. */
  method BuildNodes(m: Manifest, results: map<string, (SV.Health, string)>, missing: (SV.Health, string),
                    observed: SV.Node -> seq<SV.Diagnostic>, other: SV.Node -> SV.Diagnostic)
    returns (nodes: seq<SV.Node>, diagnostics: seq<SV.Diagnostic>)
    ensures nodes == Nodes(m.components, Probe(results, missing))
    ensures diagnostics == AllDiagnostics(nodes, observed, other)
  {
    ghost var all := Nodes(m.components, Probe(results, missing));
    nodes, diagnostics := [], [];
    assert diagnostics == AllDiagnostics(nodes, observed, other) && |all| == |m.components|;
    hide *;
    for i := 0 to |m.components|
      invariant |all| == |m.components| && nodes == all[..i] && diagnostics == AllDiagnostics(nodes, observed, other)
    {
      var c := m.components[i];
      var result := if c.key in results then results[c.key] else missing;
      var node := SV.Node(c.key, c.typ, c.scope, result.0, result.1);
      NodeAt(m.components, results, missing, i);
      DiagnosticsSnoc(nodes, node, observed, other);
      OwnDiagnostics(node, observed, other);
      nodes := nodes + [node];
      if c.typ == "service" {
        diagnostics := diagnostics + observed(node);
      } else if node.health != SV.Healthy {
        diagnostics := diagnostics + [other(node)];
      } else {
        assert diagnostics + [] == diagnostics;
      }
    }
  }

  lemma OwnDiagnostics(n: SV.Node, observed: SV.Node -> seq<SV.Diagnostic>, other: SV.Node -> SV.Diagnostic)
    ensures NodeDiagnostics(n, observed, other) ==
              if n.typ == "service" then observed(n) else if n.health != SV.Healthy then [other(n)] else []
  {
  }

  /** The relationship loop. */
  method BuildEdges(m: Manifest) returns (edges: seq<SV.Edge>)
    ensures edges == Edges(m.relationships)
  {
    ghost var all := Edges(m.relationships);
    edges := [];
    assert |all| == |m.relationships|;
    hide *;
    for i := 0 to |m.relationships|
      invariant |all| == |m.relationships| && edges == all[..i]
    {
      var r := m.relationships[i];
      EdgeAt(m.relationships, i);
      edges := edges + [SV.Edge(r.from, r.to, r.relation, r.primary)];
    }
  }

  /** materializeStatusModel: the component loop and the relationship loop. */
  method MaterializeStatusModel(m: Manifest, results: map<string, (SV.Health, string)>, missing: (SV.Health, string),
                                observed: SV.Node -> seq<SV.Diagnostic>, other: SV.Node -> SV.Diagnostic,
                                blank: SV.Model)
    returns (model: SV.Model)
    ensures model.nodes == Nodes(m.components, Probe(results, missing)) && model.edges == Edges(m.relationships)
    ensures model.diagnostics == AllDiagnostics(model.nodes, observed, other)
    ensures model == blank.(nodes := model.nodes, edges := model.edges, diagnostics := model.diagnostics)
  {
    hide *;
    var nodes, diagnostics := BuildNodes(m, results, missing, observed, other);
    var edges := BuildEdges(m);
    model := blank.(nodes := nodes, edges := edges, diagnostics := diagnostics);
  }

  /** The collection path: validate, materialize, add the log diagnostics, finalize. The only thing
      that can stop it is the manifest validator; whatever the probes and the logs say, an accepted
      manifest ends in a finalized model whose aggregate is failed exactly when the runtime is. */
  method CollectStatus(m: Manifest, results: map<string, (SV.Health, string)>, missing: (SV.Health, string),
                       observed: SV.Node -> seq<SV.Diagnostic>, other: SV.Node -> SV.Diagnostic,
                       logs: seq<SV.Diagnostic>, blank: SV.Model)
    returns (r: Option<SV.Model>)
    ensures r.Some? <==> ManifestGood(m)
    ensures r.Some? ==>
              && r.value.runtime == blank.runtime
              && (r.value.summary.aggregate == SV.Failed <==> blank.runtime == "failed")
    ensures r.Some? ==>
              && multiset(Keys(m.components)) == multiset(SV.Ids(r.value.nodes))
              && multiset(Edges(m.relationships)) == multiset(r.value.edges)
  {
    hide ManifestGood, SV.GoodGraph, SV.Finalized, Keys, SV.Ids;
    var ok := ValidateManifest(m);
    if !ok { return None; }
    var model := MaterializeStatusModel(m, results, missing, observed, other, blank);
    AcceptedManifestFinalizes(m, Probe(results, missing));
    NodesShape(m.components, Probe(results, missing));
    model := model.(diagnostics := model.diagnostics + logs);
    SV.AggregateFailedExactly(model);
    SV.FinalizedPermutes(model);
    r := SV.Finalize(model);
  }
}
