/** The enabled-service graph: name normalization, the worklist builder, the hint comparator,
    the topological order and the projection on orchestrators (enabled_dag.go). */
module EnabledDag {
  import opened Options
  import opened Sorting
  import Text
  import T = Topology

  /** A unit's five dependency lists. */
  datatype Unit = Unit(requires_: seq<string>, wants: seq<string>, after: seq<string>,
                       bindsTo: seq<string>, partOf: seq<string>)

  /** What `lookup` says about a name; a name missing from the map is a nil or not-found unit. */
  datatype Lookup = Found(unit: Unit) | Missing | Failed

  type Units = map<string, Lookup>

  datatype Roots = Roots(standalone: seq<string>, groups: map<string, seq<string>>)

  /** The parts of the host the graph consults: the name normalizer (`Normalize` below, for the
      installed units) and how orchestrators are named. */
  datatype Host = Host(norm: string -> string, unitOwner: string -> string, groupOwner: string -> string)

  /** unit_parse.go: resolveUnitAlias */
  function ResolveAlias(wireplumber: bool, name: string): string
  {
    var clean := Text.TrimSuffix(Text.TrimSpace(name), ".service");
    if clean == "pipewire-session-manager" && wireplumber then "wireplumber" else clean
  }

  /** normalizeServiceUnitName, given whether a wireplumber unit exists: the canonical service name, or
      "" for what is not a service. */
  function Normalize(wireplumber: bool, raw: string): string
  {
    var value := Text.TrimSpace(raw);
    if value == "" || Text.HasSuffix(value, ".target") || Text.HasSuffix(value, ".socket") then ""
    else
      var stem := Text.TrimSuffix(ResolveAlias(wireplumber, Text.TrimSuffix(value, ".service")), ".service");
      if stem == "" then "" else stem + ".service"
  }

  /** One line of text, as uniqueLinesPreserveOrder keeps it. */
  predicate IsLine(s: string)
  {
    s != "" && '\n' !in s && Text.Trimmed(s)
  }

  lemma TrimSuffixKeepsHead(s: string, suffix: string)
    requires s == "" || !Text.IsSpace(s[0])
    ensures var t := Text.TrimSuffix(s, suffix); t <= s && (t == "" || !Text.IsSpace(t[0]))
  {
  }

  lemma AliasHead(wireplumber: bool, name: string)
    requires '\n' !in name
    ensures var r := ResolveAlias(wireplumber, name); '\n' !in r && (r == "" || !Text.IsSpace(r[0]))
  {
    Text.TrimSpaceTrims(name);
    TrimSuffixKeepsHead(Text.TrimSpace(name), ".service");
  }

  lemma ServiceNameIsLine(stem: string)
    requires stem != "" && '\n' !in stem && !Text.IsSpace(stem[0])
    ensures IsLine(stem + ".service")
  {
    var name := stem + ".service";
    assert name[0] == stem[0] && name[|name| - 1] == 'e';
  }

  /** A normalized name is a line of text whenever the raw name has no newline inside. */
  lemma NormalizeIsLine(wireplumber: bool, raw: string)
    requires '\n' !in raw && Normalize(wireplumber, raw) != ""
    ensures IsLine(Normalize(wireplumber, raw))
  {
    var value := Text.TrimSpace(raw);
    Text.TrimSpaceTrims(raw);
    var inner := Text.TrimSuffix(value, ".service");
    TrimSuffixKeepsHead(value, ".service");
    AliasHead(wireplumber, inner);
    var alias := ResolveAlias(wireplumber, inner);
    TrimSuffixKeepsHead(alias, ".service");
    ServiceNameIsLine(Text.TrimSuffix(alias, ".service"));
  }

  /** A name that is its own normal form: without blanks around it, without the suffix, and not the alias. */
  predicate Canonical(wireplumber: bool, stem: string)
  {
    stem != "" && Text.Trimmed(stem) && !Text.HasSuffix(stem, ".service")
    && !(wireplumber && stem == "pipewire-session-manager")
  }

  lemma LastDecides(s: string, suffix: string)
    requires s != "" && suffix != "" && s[|s| - 1] != suffix[|suffix| - 1]
    ensures !Text.HasSuffix(s, suffix)
  {
    if |suffix| <= |s| {
      assert s[|s| - |suffix|..][|suffix| - 1] == s[|s| - 1];
    }
  }

  lemma ServiceSuffix(stem: string)
    ensures Text.HasSuffix(stem + ".service", ".service") && Text.TrimSuffix(stem + ".service", ".service") == stem
    ensures !Text.HasSuffix(stem + ".service", ".target") && !Text.HasSuffix(stem + ".service", ".socket")
  {
    var name := stem + ".service";
    assert name[|name| - 8..] == ".service" && name[..|name| - 8] == stem;
    LastDecides(name, ".target");
    LastDecides(name, ".socket");
  }

  lemma ServiceTrimmed(stem: string)
    requires stem != "" && !Text.IsSpace(stem[0])
    ensures Text.Trimmed(stem + ".service")
  {
    var name := stem + ".service";
    assert name[0] == stem[0] && name[|name| - 1] == 'e';
  }

  /** A service name is left alone by normalization if and only if it is canonical. */
  lemma NormalizeFixed(wireplumber: bool, stem: string)
    requires stem != "" && !Text.IsSpace(stem[0])
    ensures Normalize(wireplumber, stem + ".service") == stem + ".service" <==> Canonical(wireplumber, stem)
  {
    var name := stem + ".service";
    ServiceSuffix(stem);
    ServiceTrimmed(stem);
    Text.TrimSpaceTrims(name);
    Text.TrimSpaceTrims(stem);
    var clean := Text.TrimSuffix(Text.TrimSpace(stem), ".service");
    var alias := ResolveAlias(wireplumber, stem);
    var last := Text.TrimSuffix(alias, ".service");
    assert Normalize(wireplumber, name) == if last == "" then "" else last + ".service";
    SameStem(last, stem);
    Text.TrimSpaceShorter(stem);
    hide Text.TrimSpace;
    assert |"wireplumber"| == 11 && |"pipewire-session-manager"| == 24;
  }

  lemma SameStem(a: string, b: string)
    ensures a + ".service" == b + ".service" <==> a == b
  {
    ServiceSuffix(a);
    ServiceSuffix(b);
  }

  /** Blanks around a name, and one suffix, do not matter; a canonical name gets the suffix. */
  lemma NormalizeBare(wireplumber: bool, raw: string, stem: string)
    requires Text.TrimSpace(raw) == stem && Canonical(wireplumber, stem)
    requires !Text.HasSuffix(stem, ".target") && !Text.HasSuffix(stem, ".socket")
    ensures Normalize(wireplumber, raw) == stem + ".service"
  {
    Text.TrimSpaceTrims(stem);
    hide Text.TrimSpace;
  }

  /** What is not a service: nothing, a target, a socket, or nothing but a suffix. */
  lemma NormalizeEmpty(wireplumber: bool, raw: string)
    ensures var value := Text.TrimSpace(raw);
            value == "" || value == ".service" || Text.HasSuffix(value, ".target") ||
            Text.HasSuffix(value, ".socket") ==>
              Normalize(wireplumber, raw) == ""
  {
    hide Text.TrimSpace;
    var value := Text.TrimSpace(raw);
    if value == ".service" { EmptyStem(wireplumber); }
  }

  lemma EmptyStem(wireplumber: bool)
    ensures Text.TrimSuffix(".service", ".service") == "" && ResolveAlias(wireplumber, "") == "" &&
              Text.TrimSuffix("", ".service") == ""
  {
  }

  lemma NormalizeOther(wireplumber: bool, name: string, alias: string)
    requires Text.Trimmed(name) && name != "" && alias != ""
    requires name[|name| - 1] == 'r' && alias[|alias| - 1] == 'r' && ResolveAlias(wireplumber, name) == alias
    ensures Normalize(wireplumber, name) == alias + ".service"
  {
    Text.TrimSpaceTrims(name);
    LastDecides(name, ".service");
    LastDecides(name, ".target");
    LastDecides(name, ".socket");
    LastDecides(alias, ".service");
    hide Text.TrimSpace, Text.HasSuffix, ResolveAlias;
  }

  lemma AliasShape()
    ensures var name := "pipewire-session-manager"; |name| == 24 && name[0] == 'p' && name[23] == 'r'
  {
  }

  lemma AliasResolves(name: string)
    requires name == "pipewire-session-manager" && Text.Trimmed(name) && !Text.HasSuffix(name, ".service")
    ensures ResolveAlias(true, name) == "wireplumber"
  {
    Text.TrimSpaceTrims(name);
    hide Text.TrimSpace, Text.HasSuffix, Text.Trimmed;
  }

  lemma EndsTrim(name: string)
    requires |name| == 24 && name[0] == 'p' && name[23] == 'r'
    ensures Text.Trimmed(name) && !Text.HasSuffix(name, ".service")
  {
    LastDecides(name, ".service");
  }

  /** The one alias. */
  lemma NormalizeAlias()
    ensures Normalize(true, "pipewire-session-manager") == "wireplumber" + ".service"
  {
    hide *;
    AliasShape();
    EndsTrim("pipewire-session-manager");
    AliasResolves("pipewire-session-manager");
    NormalizeOther(true, "pipewire-session-manager", "wireplumber");
  }

  /** looseDependencies */
  function LooseDependencies(u: Unit): seq<string>
  {
    u.requires_ + u.wants + u.after + u.bindsTo + u.partOf
  }

  function RawDeps(units: Units, name: string): seq<string>
  {
    if name in units && units[name].Found? then LooseDependencies(units[name].unit) else []
  }

  /** A name in one of the five lists of a unit. */
  predicate Mentions(u: Unit, raw: string)
  {
    raw in u.requires_ || raw in u.wants || raw in u.after || raw in u.bindsTo || raw in u.partOf
  }

  /** `b` is an accepted dependency of `a`: mentioned by a's unit, a service, and not `a` itself. */
  ghost predicate DirectDep(host: Host, units: Units, a: string, b: string)
  {
    && b != "" && b != a && a in units && units[a].Found?
    && exists raw :: Mentions(units[a].unit, raw) && host.norm(raw) == b
  }

  function AcceptedDeps(host: Host, name: string, raws: seq<string>): set<string>
  {
    set raw | raw in raws && host.norm(raw) != "" && host.norm(raw) != name :: host.norm(raw)
  }

  lemma AcceptedIsDirect(host: Host, units: Units, name: string, b: string)
    ensures b in AcceptedDeps(host, name, RawDeps(units, name)) <==> DirectDep(host, units, name, b)
  {
    if name in units && units[name].Found? {
      LooseIsMentioned(units[name].unit);
    }
  }

  /** looseDependencies gathers the five lists and nothing else. */
  lemma LooseIsMentioned(u: Unit)
    ensures forall raw :: raw in LooseDependencies(u) <==> Mentions(u, raw)
  {
  }

  ghost predicate IsRoot(host: Host, roots: Roots, name: string)
  {
    && name != ""
    && ((exists raw :: raw in roots.standalone && host.norm(raw) == name)
        || InSomeGroup(host, roots, name))
  }

  ghost predicate InSomeGroup(host: Host, roots: Roots, name: string)
  {
    exists g, raw :: g in roots.groups && raw in roots.groups[g] && host.norm(raw) == name
  }

  /** A set holding the roots and closed under the dependencies of found units. */
  ghost predicate Saturated(host: Host, roots: Roots, units: Units, s: iset<string>)
  {
    && (forall n | IsRoot(host, roots, n) :: n in s)
    && (forall a, b | a in s && DirectDep(host, units, a, b) :: b in s)
  }

  /** `name` belongs to the least saturated set. */
  ghost predicate Enabled(host: Host, roots: Roots, units: Units, name: string)
  {
    forall s: iset<string> | Saturated(host, roots, units, s) :: name in s
  }

  /** compareByHint */
  function CompareByHint(hint: map<string, int>, a: string, b: string): int
  {
    if a in hint && b in hint && hint[a] != hint[b] then
      if hint[a] < hint[b] then -1 else 1
    else if Text.Less(a, b) then -1
    else if Text.Less(b, a) then 1
    else 0
  }

  function ByHint(hint: map<string, int>): (string, string) -> bool
  {
    (a, b) => CompareByHint(hint, a, b) < 0
  }

  /** The comparison is antisymmetric, decides all different names, and goes by the hints if both names have
      different ones and by the names otherwise. */
  lemma CompareExact(hint: map<string, int>, a: string, b: string)
    ensures CompareByHint(hint, a, b) == -CompareByHint(hint, b, a)
    ensures CompareByHint(hint, a, b) == 0 <==> a == b
    ensures CompareByHint(hint, a, b) == -1 <==>
              if a in hint && b in hint && hint[a] != hint[b] then hint[a] < hint[b] else Text.Less(a, b)
  {
    Text.LessTotal(a, b);
    NeverBoth(a, b);
    Text.LessIrreflexive(a);
    hide Text.Less;
  }

  /** An unhinted name between two hinted ones whose hints go against the names. */
  ghost predicate HintGap(hint: map<string, int>, x: string, y: string, z: string)
  {
    x in hint && y !in hint && z in hint && hint[z] < hint[x] && Text.Less(x, y) && Text.Less(y, z)
  }

  /** Three names that break transitivity are such a gap, in one of three roles. */
  lemma BrokenIsGap(hint: map<string, int>, a: string, b: string, c: string)
    requires var less := ByHint(hint); less(a, b) && less(b, c) && !less(a, c)
    ensures HintGap(hint, a, b, c) || HintGap(hint, b, c, a) || HintGap(hint, c, a, b)
  {
    Text.LessTotal(a, c);
    if Text.Less(a, b) && Text.Less(b, c) { Text.LessTransitive(a, b, c); }
    if Text.Less(c, a) && Text.Less(a, b) { Text.LessTransitive(c, a, b); }
    if Text.Less(b, c) && Text.Less(c, a) { Text.LessTransitive(b, c, a); }
    NeverBoth(a, b);
    NeverBoth(b, c);
    NeverBoth(a, c);
    hide Text.Less;
  }

  lemma NeverBoth(a: string, b: string)
    ensures !(Text.Less(a, b) && Text.Less(b, a))
  {
    if Text.Less(a, b) && Text.Less(b, a) {
      Text.LessTransitive(a, b, a);
      Text.LessIrreflexive(a);
    }
  }

  /** The comparator is a linear order on some names if and only if there is no gap among them. */
  lemma HintOrderExact(hint: map<string, int>, xs: seq<string>)
    ensures LinearOn(ByHint(hint), xs) <==>
              !exists x, y, z :: x in xs && y in xs && z in xs && HintGap(hint, x, y, z)
  {
    var less := ByHint(hint);
    forall a, b | a in xs && b in xs ensures !less(a, a) && (a == b || less(a, b) || less(b, a)) {
      Text.LessIrreflexive(a);
      Text.LessTotal(a, b);
    }
    forall a, b, c | a in xs && b in xs && c in xs && less(a, b) && less(b, c) && !less(a, c)
      ensures HintGap(hint, a, b, c) || HintGap(hint, b, c, a) || HintGap(hint, c, a, b)
    {
      BrokenIsGap(hint, a, b, c);
    }
    forall x, y, z | x in xs && y in xs && z in xs && HintGap(hint, x, y, z)
      ensures less(x, y) && less(y, z) && !less(x, z)
    {
    }
    hide Text.Less, CompareByHint;
  }

  /** With a hint for every name, as the builder gives it, there is no gap. */
  lemma HintLinear(hint: map<string, int>, xs: seq<string>)
    requires forall x | x in xs :: x in hint
    ensures LinearOn(ByHint(hint), xs)
  {
    HintOrderExact(hint, xs);
    hide ByHint;
  }

  /** A gap: the names a, b and c with only a and c hinted, the wrong way round. */
  lemma HintGapExample()
    ensures !LinearOn(ByHint(map["a" := 2, "c" := 1]), ["a", "b", "c"])
  {
    var hint, xs := map["a" := 2, "c" := 1], ["a", "b", "c"];
    assert Text.Less("a", "b") && Text.Less("b", "c");
    HintOrderExact(hint, xs);
    assert xs[0] in xs && xs[1] in xs && xs[2] in xs;
    assert HintGap(hint, xs[0], xs[1], xs[2]);
    hide ByHint, LinearOn, Text.Less;
  }

  /** strings.Join(xs, "\n") */
  function JoinLines(xs: seq<string>): string
  {
    if xs == [] then "" else if |xs| == 1 then xs[0] else xs[0] + "\n" + JoinLines(xs[1..])
  }

  /** strings.Split(s, "\n") */
  function SplitLines(s: string): (r: seq<string>)
    ensures r != []
  {
    if s == "" then [""]
    else if s[0] == '\n' then [""] + SplitLines(s[1..])
    else var rest := SplitLines(s[1..]); [[s[0]] + rest[0]] + rest[1..]
  }

  /** Keep the first occurrence of every non-blank trimmed line. */
  function KeepLines(lines: seq<string>, kept: seq<string>): seq<string>
    decreases |lines|
  {
    if lines == [] then kept
    else
      var line := Text.TrimSpace(lines[0]);
      KeepLines(lines[1..], if line == "" || line in kept then kept else kept + [line])
  }

  /** uniqueLinesPreserveOrder */
  method UniqueLinesPreserveOrder(content: string) returns (entries: seq<string>)
    ensures entries == KeepLines(SplitLines(content), [])
  {
    var lines := SplitLines(content);
    var seen: set<string> := {};
    entries := [];
    for i := 0 to |lines|
      invariant seen == set e | e in entries
      invariant KeepLines(lines[i..], entries) == KeepLines(lines, [])
    {
      assert lines[i..][1..] == lines[i + 1..];
      var line := Text.TrimSpace(lines[i]);
      if line == "" || line in seen { continue; }
      seen := seen + {line};
      entries := entries + [line];
    }
  }

  lemma {:induction false} SplitPrefix(a: string, s: string)
    requires '\n' !in a
    ensures SplitLines(a + "\n" + s) == [a] + SplitLines(s)
    ensures SplitLines(a) == [a]
  {
    if a == "" {
      assert a + "\n" + s == "\n" + s;
    } else {
      SplitPrefix(a[1..], s);
      assert (a + "\n" + s)[1..] == a[1..] + "\n" + s;
      assert a == [a[0]] + a[1..];
    }
  }

  lemma {:induction false} SplitJoin(xs: seq<string>)
    requires xs != [] && forall x | x in xs :: '\n' !in x
    ensures SplitLines(JoinLines(xs)) == xs
  {
    if |xs| == 1 {
      SplitPrefix(xs[0], "");
    } else {
      SplitPrefix(xs[0], JoinLines(xs[1..]));
      SplitJoin(xs[1..]);
    }
  }

  lemma {:induction false} KeepAll(lines: seq<string>, kept: seq<string>)
    requires forall l | l in lines :: IsLine(l)
    requires NoDuplicates(kept + lines)
    ensures KeepLines(lines, kept) == kept + lines
    decreases |lines|
  {
    if lines != [] {
      assert IsLine(lines[0]);
      Text.TrimSpaceTrims(lines[0]);
      assert Text.TrimSpace(lines[0]) == lines[0];
      assert lines[0] !in kept by {
        forall i | 0 <= i < |kept| ensures kept[i] != lines[0] {
          assert (kept + lines)[i] != (kept + lines)[|kept|];
        }
      }
      assert kept + lines == (kept + [lines[0]]) + lines[1..];
      KeepAll(lines[1..], kept + [lines[0]]);
    }
  }

  lemma {:induction false} KeepOnlyLines(lines: seq<string>, kept: seq<string>)
    requires forall l | l in lines :: '\n' !in l
    requires forall l | l in kept :: IsLine(l)
    ensures forall l | l in KeepLines(lines, kept) :: IsLine(l)
    decreases |lines|
  {
    if lines != [] {
      Text.TrimSpaceTrims(lines[0]);
      var line := Text.TrimSpace(lines[0]);
      KeepOnlyLines(lines[1..], if line == "" || line in kept then kept else kept + [line]);
    }
  }

  lemma {:induction false} SplitHasNoNewline(s: string)
    ensures forall l | l in SplitLines(s) :: '\n' !in l
  {
    if s != "" {
      SplitHasNoNewline(s[1..]);
    }
  }

  /** The final join, split and deduplicate is the identity on a duplicate-free list exactly
      when every name is a line of text. */
  lemma LinesRoundTrip(xs: seq<string>)
    requires NoDuplicates(xs)
    ensures KeepLines(SplitLines(JoinLines(xs)), []) == xs <==> forall x | x in xs :: IsLine(x)
  {
    var lines := SplitLines(JoinLines(xs));
    SplitHasNoNewline(JoinLines(xs));
    KeepOnlyLines(lines, []);
    if forall x | x in xs :: IsLine(x) {
      if xs == [] {
        assert KeepLines([""], []) == KeepLines([], []);
      } else {
        SplitJoin(xs);
        KeepAll(xs, []);
        assert [] + xs == xs;
      }
    }
  }

  /** markNode: list a name that is new and not empty. */
  function Listed(nodes: seq<string>, name: string): seq<string>
  {
    if name == "" || name in nodes then nodes else nodes + [name]
  }

  /** List the normalized names one after another. */
  function ListNames(host: Host, nodes: seq<string>, raws: seq<string>): seq<string>
  {
    if raws == [] then nodes
    else Listed(ListNames(host, nodes, raws[..|raws| - 1]), host.norm(raws[|raws| - 1]))
  }

  lemma ListStep(host: Host, nodes: seq<string>, raws: seq<string>, i: nat)
    requires i < |raws|
    ensures ListNames(host, nodes, raws[..i + 1]) == Listed(ListNames(host, nodes, raws[..i]), host.norm(raws[i]))
  {
    assert raws[..i + 1][..i] == raws[..i];
  }

  lemma {:induction false} ListGrows(host: Host, nodes: seq<string>, raws: seq<string>)
    ensures nodes <= ListNames(host, nodes, raws)
  {
    if raws != [] {
      ListGrows(host, nodes, raws[..|raws| - 1]);
    }
  }

  lemma {:induction false} ListConcat(host: Host, nodes: seq<string>, a: seq<string>, b: seq<string>)
    ensures ListNames(host, nodes, a + b) == ListNames(host, ListNames(host, nodes, a), b)
  {
    if b == [] {
      assert a + b == a;
    } else {
      var n := |b| - 1;
      assert (a + b)[..|a + b| - 1] == a + b[..n];
      ListConcat(host, nodes, a, b[..n]);
    }
  }

  datatype Order = Ordered(names: seq<string>) | Cyclic(at: string)

  /** Distinct non-empty nodes, each hinted by its discovery position. */
  ghost predicate HintsIndex(nodes: seq<string>, hint: map<string, int>)
  {
    && NoDuplicates(nodes) && "" !in nodes
    && (forall n :: n in hint <==> n in nodes)
    && (forall i | 0 <= i < |nodes| :: hint[nodes[i]] == i)
  }

  ghost predicate NodeEdges(nodes: seq<string>, n: string, deps: set<string>)
  {
    n in nodes && n !in deps && forall d | d in deps :: d in nodes
  }

  ghost predicate EdgesInside(nodes: seq<string>, deps: map<string, set<string>>)
  {
    forall n | n in deps :: NodeEdges(nodes, n, deps[n])
  }

  lemma DiscoverKeeps(nodes: seq<string>, hint: map<string, int>, deps: map<string, set<string>>, name: string)
    requires HintsIndex(nodes, hint) && EdgesInside(nodes, deps) && name != "" && name !in hint
    ensures HintsIndex(nodes + [name], hint[name := |nodes|]) && EdgesInside(nodes + [name], deps)
  {
    forall n | n in deps ensures NodeEdges(nodes + [name], n, deps[n]) {
      assert NodeEdges(nodes, n, deps[n]);
    }
  }

  lemma EdgeKeeps(nodes: seq<string>, deps: map<string, set<string>>, name: string, ds: set<string>)
    requires EdgesInside(nodes, deps) && NodeEdges(nodes, name, ds)
    ensures EdgesInside(nodes, deps[name := ds])
  {
    var more := deps[name := ds];
    forall n | n in more ensures NodeEdges(nodes, n, more[n]) {
      if n != name { assert NodeEdges(nodes, n, deps[n]); }
    }
  }

  lemma AcceptedStep(host: Host, name: string, raws: seq<string>, i: nat)
    requires i < |raws|
    ensures AcceptedDeps(host, name, raws[..i + 1]) ==
              AcceptedDeps(host, name, raws[..i]) + AcceptedDeps(host, name, [raws[i]])
  {
    assert raws[..i + 1] == raws[..i] + [raws[i]];
  }

  /** Listing a node's dependencies adds accepted ones only. */
  lemma {:induction false} ListedAreAccepted(host: Host, nodes: seq<string>, name: string, raws: seq<string>)
    requires name in nodes
    ensures forall n | n in ListNames(host, nodes, raws) :: n in nodes || n in AcceptedDeps(host, name, raws)
  {
    if raws != [] {
      var i := |raws| - 1;
      ListedAreAccepted(host, nodes, name, raws[..i]);
      assert raws == raws[..i] + [raws[i]];
    }
  }

  lemma Overwrite(m: map<string, set<string>>, k: string, a: set<string>, b: set<string>)
    ensures m[k := a][k := b] == m[k := b]
  {
  }

  /** serviceDAG */
  class ServiceDag {
    var nodes: seq<string>
    var depsByNode: map<string, set<string>>
    var orderHint: map<string, int>
    var ownerByUnit: map<string, string>

    constructor ()
      ensures nodes == [] && depsByNode == map[] && orderHint == map[] && ownerByUnit == map[]
      ensures Valid()
    {
      nodes, depsByNode, orderHint, ownerByUnit := [], map[], map[], map[];
    }

    /** Nodes are distinct, the hint of a node is its discovery position, and every recorded
        dependency of a node is a node other than itself. */
    ghost predicate Valid()
      reads this
    {
      HintsIndex(nodes, orderHint) && EdgesInside(nodes, depsByNode)
    }

    /** The dependencies of a node in the order the search visits them. */
    ghost function SortedDeps(n: string): (r: seq<string>)
      reads this
    {
      if n in depsByNode then SortBy(ByHint(orderHint), Listing(depsByNode[n])) else []
    }

    ghost function NodeSet(): set<string>
      reads this
    {
      set n | n in nodes
    }

    ghost function Adjacency(): (adj: T.Adjacency)
      reads this
    {
      map n | n in depsByNode :: SortedDeps(n)
    }

    lemma AdjacencyDeps(n: string)
      ensures T.Deps(Adjacency(), n) == SortedDeps(n)
      ensures forall d :: d in SortedDeps(n) <==> n in depsByNode && d in depsByNode[n]
    {
      if n in depsByNode {
        SortPermutes(ByHint(orderHint), Listing(depsByNode[n]));
      }
    }

    lemma AdjacencyClosed()
      requires Valid()
      ensures T.Closed(Adjacency(), NodeSet())
    {
      forall n, d | n in nodes && d in T.Deps(Adjacency(), n) ensures d in nodes {
        AdjacencyDeps(n);
        assert NodeEdges(nodes, n, depsByNode[n]);
      }
    }

    /** orderHint entry and markNode of one discovered service. */
    method Discover(name: string)
      requires Valid() && name != ""
      modifies this`nodes, this`orderHint
      ensures Valid()
      ensures nodes == Listed(old(nodes), name)
    {
      if name !in orderHint {
        DiscoverKeeps(nodes, orderHint, depsByNode, name);
        orderHint := orderHint[name := |nodes|];
        nodes := nodes + [name];
      }
    }

    /** Record one accepted dependency of `name`. */
    method AddDependency(host: Host, name: string, raw: string)
      requires Valid() && name in depsByNode
      modifies this`nodes, this`orderHint, this`depsByNode
      ensures Valid() && name in depsByNode
      ensures depsByNode == old(depsByNode)[name := old(depsByNode)[name] + AcceptedDeps(host, name, [raw])]
      ensures nodes == Listed(old(nodes), host.norm(raw))
    {
      assert NodeEdges(nodes, name, depsByNode[name]);
      var dep := host.norm(raw);
      if dep == "" || dep == name {
        assert AcceptedDeps(host, name, [raw]) == {};
        assert depsByNode[name] + {} == depsByNode[name];
        return;
      }
      assert AcceptedDeps(host, name, [raw]) == {dep};
      Discover(dep);
      var more := depsByNode[name] + {dep};
      EdgeKeeps(nodes, depsByNode, name, more);
      depsByNode := depsByNode[name := more];
    }

    /** The inner loop over a found unit's dependencies. */
    method AddDependencies(host: Host, name: string, raws: seq<string>)
      requires Valid() && name in nodes && name !in depsByNode
      modifies this`nodes, this`orderHint, this`depsByNode
      ensures Valid()
      ensures depsByNode == old(depsByNode)[name := AcceptedDeps(host, name, raws)]
      ensures nodes == ListNames(host, old(nodes), raws)
    {
      ghost var nodes0, deps0 := nodes, depsByNode;
      EdgeKeeps(nodes, depsByNode, name, {});
      depsByNode := depsByNode[name := {}];
      assert AcceptedDeps(host, name, raws[..0]) == {};
      assert nodes == ListNames(host, nodes0, raws[..0]);
      hide HintsIndex, EdgesInside, AcceptedDeps, ListNames, Listed;
      for i := 0 to |raws|
        invariant Valid() && nodes == ListNames(host, nodes0, raws[..i])
        invariant depsByNode == deps0[name := AcceptedDeps(host, name, raws[..i])]
      {
        AcceptedStep(host, name, raws, i);
        ListStep(host, nodes0, raws, i);
        Overwrite(deps0, name, AcceptedDeps(host, name, raws[..i]), AcceptedDeps(host, name, raws[..i + 1]));
        AddDependency(host, name, raws[i]);
      }
      assert raws[..|raws|] == raws;
    }

    /** Collect a node's dependencies in whatever order the map iteration gives them and sort. */
    method CollectDeps(name: string) returns (deps: seq<string>)
      requires Valid()
      ensures deps == SortedDeps(name)
    {
      deps := [];
      if name in depsByNode {
        var rest := depsByNode[name];
        assert NodeEdges(nodes, name, depsByNode[name]);
        while rest != {}
          invariant rest <= depsByNode[name]
          invariant NoDuplicates(deps) && forall d :: d in deps <==> d in depsByNode[name] - rest
          decreases rest
        {
          var d :| d in rest;
          assert d !in deps;
          deps := deps + [d];
          rest := rest - {d};
        }
        SameElementsPermute(deps, Listing(depsByNode[name]));
        HintLinear(orderHint, deps);
        SortCanonical(ByHint(orderHint), deps, Listing(depsByNode[name]));
        deps := SortBy(ByHint(orderHint), deps);
      }
    }

    lemma NodesSorted()
      requires Valid()
      ensures SortBy(ByHint(orderHint), nodes) == nodes
    {
      HintLinear(orderHint, nodes);
      SortFixed(ByHint(orderHint), nodes);
    }

    /** TopologicalServices: the same order whatever order the maps were iterated in. */
    method TopologicalServices() returns (r: Order)
      requires Valid()
      ensures T.Closed(Adjacency(), NodeSet())
      ensures match T.VisitAll(Adjacency(), NodeSet(), T.Start, nodes)
              case CycleAt(c) => r == Cyclic(c)
              case Finished(w) => r == Ordered(KeepLines(SplitLines(JoinLines(w.out)), []))
    {
      var sorted := SortBy(ByHint(orderHint), nodes);
      NodesSorted();
      AdjacencyClosed();
      var search := new Search(this, NodeSet());
      var cycle := search.VisitEach(sorted);
      match cycle {
        case Some(c) => r := Cyclic(c);
        case None =>
          var entries := UniqueLinesPreserveOrder(JoinLines(search.result));
          r := Ordered(entries);
      }
    }

    /** ProjectOrchestrdDependencies, for non-blank owner names. */
    method ProjectOrchestrdDependencies() returns (r: map<string, set<string>>)
      ensures forall o :: o in r <==>
                (exists s :: && s in ownerByUnit && ownerByUnit[s] == o
                             && (Text.TrimSpace(o) != "" || (o != "" && s in depsByNode)))
      ensures forall o, p | o in r :: p in r[o] <==> OwnerEdge(o, p)
    {
      r := map[];
      var rest := ownerByUnit.Keys;
      while rest != {}
        invariant rest <= ownerByUnit.Keys
        invariant forall o :: o in r <==>
                    (exists s :: s in ownerByUnit.Keys - rest && ownerByUnit[s] == o && Text.TrimSpace(o) != "")
        invariant forall o | o in r :: r[o] == {}
        decreases rest
      {
        var s :| s in rest;
        ghost var before := ownerByUnit.Keys - rest;
        rest := rest - {s};
        assert ownerByUnit.Keys - rest == before + {s};
        var owner := ownerByUnit[s];
        if Text.TrimSpace(owner) != "" && owner !in r {
          r := r[owner := {}];
        }
      }
      ghost var owners := r.Keys;
      var services := depsByNode.Keys;
      while services != {}
        invariant services <= depsByNode.Keys
        invariant forall o :: o in r <==>
                    || o in owners
                    || (o != "" && exists s ::
                          s in depsByNode.Keys - services && s in ownerByUnit && ownerByUnit[s] == o)
        invariant forall o, p | o in r :: p in r[o] <==> EdgeFrom(depsByNode.Keys - services, o, p)
        decreases services
      {
        var s :| s in services;
        ghost var before := depsByNode.Keys - services;
        services := services - {s};
        assert depsByNode.Keys - services == before + {s};
        if s in ownerByUnit && ownerByUnit[s] != "" {
          var source := ownerByUnit[s];
          var known := if source in r then r[source] else {};
          var targets :=
            set d | d in depsByNode[s] && d in ownerByUnit && ownerByUnit[d] != "" && ownerByUnit[d] != source
                  :: ownerByUnit[d];
          ghost var r0 := r;
          assert source !in r0 ==> forall p :: !EdgeFrom(before, source, p);
          r := r[source := known + targets];
          forall o, p | o in r ensures p in r[o] <==> EdgeFrom(before + {s}, o, p) {
            assert o in r0 ==> (p in r0[o] <==> EdgeFrom(before, o, p));
          }
        } else {
          forall o, p ensures EdgeFrom(before + {s}, o, p) <==> EdgeFrom(before, o, p) { }
        }
      }
    }

    /** A direct edge from a service in `from` owned by `o` to a service owned by a different `p`. */
    ghost predicate EdgeFrom(from: set<string>, o: string, p: string)
      reads this
    {
      && o != "" && p != "" && o != p
      && exists s, d :: s in from && s in depsByNode && d in depsByNode[s]
                     && s in ownerByUnit && d in ownerByUnit && ownerByUnit[s] == o && ownerByUnit[d] == p
    }

    ghost predicate OwnerEdge(o: string, p: string)
      reads this
    {
      EdgeFrom(depsByNode.Keys, o, p)
    }
  }

  /** The variables the closure `visit` shares: the marks and the growing result. */
  class Search {
    const dag: ServiceDag
    ghost const adj: T.Adjacency
    ghost const universe: set<string>
    var mark: map<string, T.Mark>
    var result: seq<string>

    constructor (dag: ServiceDag, ghost universe: set<string>)
      ensures this.dag == dag && this.universe == universe && adj == dag.Adjacency()
      ensures State() == T.Start
    {
      this.dag, this.universe, this.adj := dag, universe, dag.Adjacency();
      mark, result := map[], [];
    }

    ghost function State(): T.Walk
      reads this
    {
      T.Walk(mark, result)
    }

    ghost predicate Ready()
      reads dag
    {
      dag.Valid() && adj == dag.Adjacency() && T.Closed(adj, universe)
    }

    method Visit(name: string) returns (cycle: Option<string>)
      requires Ready() && name in universe
      modifies this
      ensures match T.Visit(adj, universe, old(State()), name)
              case CycleAt(c) => cycle == Some(c)
              case Finished(w) => cycle == None && State() == w
      decreases T.Unmarked(universe, State()), 0
    {
      if name in mark {
        return if mark[name].Done? then None else Some(name);
      }
      T.UnmarkedShrinks(universe, State(), name);
      mark := mark[name := T.Active];
      var deps := dag.CollectDeps(name);
      dag.AdjacencyDeps(name);
      cycle := VisitEach(deps);
      if cycle.None? {
        mark := mark[name := T.Done];
        result := result + [name];
      }
    }

    method VisitEach(names: seq<string>) returns (cycle: Option<string>)
      requires Ready() && forall n | n in names :: n in universe
      modifies this
      ensures match T.VisitAll(adj, universe, old(State()), names)
              case CycleAt(c) => cycle == Some(c)
              case Finished(w) => cycle == None && State() == w
      decreases T.Unmarked(universe, State()), |names|
    {
      cycle := None;
      for i := 0 to |names|
        invariant cycle == None && old(mark).Keys <= mark.Keys
        invariant T.VisitAll(adj, universe, State(), names[i..])
               == T.VisitAll(adj, universe, old(State()), names)
      {
        T.UnmarkedMonotone(universe, old(State()), State());
        assert names[i..][1..] == names[i + 1..];
        cycle := Visit(names[i]);
        if cycle.Some? { return; }
      }
    }
  }
}
