/**
 * The dependency snapshot of the capability-boundary audit and the "may only
 * shrink" comparison of a snapshot with the one measured at the base commit.
 */
module DependencyRatchet {
  import opened Graph
  import SccSearch

  // ---- Dependencies and their debt categories ------------------------------------

  datatype Location = Capability(owner: string, entrypoint: string) | Server(name: string)
  datatype Target = Unresolved | Resolved(location: Location)
  datatype Kind = TypeOnly | Value
  datatype Dependency = Dependency(source: Location, target: Target, kind: Kind)

  datatype Category =
    | CapabilityToServer
    | PlatformCapabilityToServer
    | ServerToCapabilityDeep
    | ServerToCapabilityPublic
    | CrossCapabilityValue
    | CrossCapabilityTypeOnly

  datatype Entry = Skip | Entry(category: Category, pair: Arc)

  const PLATFORM_SERVER_MODULES: set<string> := {"ai", "boss"}
  const PUBLIC_ENTRYPOINTS: set<string> := {"public", "ui-public"}
  const EDGE_UNIT := "distinct-source-file-to-resolved-module"

  /** Which count a dependency adds to. */
  function Classify(d: Dependency): Entry {
    match (d.source, d.target)
    case (Capability(owner, _), Resolved(Server(name))) =>
      Entry(if name in PLATFORM_SERVER_MODULES then PlatformCapabilityToServer else CapabilityToServer,
            Arc(owner, name))
    case (Server(name), Resolved(Capability(owner, entrypoint))) =>
      Entry(if entrypoint in PUBLIC_ENTRYPOINTS then ServerToCapabilityPublic else ServerToCapabilityDeep,
            Arc(name, owner))
    case (Capability(from, _), Resolved(Capability(to, _))) =>
      if from == to then Skip
      else Entry(if d.kind == Value then CrossCapabilityValue else CrossCapabilityTypeOnly, Arc(from, to))
    case _ => Skip
  }

  /** The owner pairs that the dependencies of one category contribute, one per dependency. */
  ghost function Pairs(deps: seq<Dependency>, c: Category): multiset<Arc> {
    if deps == [] then multiset{}
    else
      var before := Pairs(deps[..|deps| - 1], c);
      match Classify(deps[|deps| - 1])
      case Skip => before
      case Entry(d, pair) => if d == c then before + multiset{pair} else before
  }

  /** `counts` lists exactly the pairs that occur, each with its number of occurrences. */
  ghost predicate Tallies(counts: map<Arc, nat>, pairs: multiset<Arc>) {
    && (forall p :: p in counts <==> p in pairs)
    && (forall p :: p in counts ==> counts[p] == pairs[p])
  }

  // ---- Snapshots --------------------------------------------------------------------

  datatype Debt = Debt(total: nat, byOwnerPair: map<Arc, nat>)

  datatype Snapshot = Snapshot(
    schemaVersion: int,
    edgeUnit: string,
    capabilityToServer: Debt,
    serverToCapabilityDeep: Debt,
    crossCapabilityValue: Debt,
    nontrivialSccs: seq<set<Node>>)

  /** Categories that are reported but not ratcheted. */
  datatype Report = Report(platformCapabilityToServer: Debt, serverToCapabilityPublic: Debt, crossCapabilityTypeOnly: Debt)

  ghost predicate Measures(debt: Debt, pairs: multiset<Arc>) {
    Tallies(debt.byOwnerPair, pairs) && debt.total == |pairs|
  }

  /** `snapshot` is what the summary of `deps` contains, up to the order of the component list. */
  ghost predicate Summarizes(snapshot: Snapshot, deps: seq<Dependency>) {
    && snapshot.schemaVersion == 1 && snapshot.edgeUnit == "distinct-source-file-to-resolved-module"
    && Measures(snapshot.capabilityToServer, Pairs(deps, CapabilityToServer))
    && Measures(snapshot.serverToCapabilityDeep, Pairs(deps, ServerToCapabilityDeep))
    && Measures(snapshot.crossCapabilityValue, Pairs(deps, CrossCapabilityValue))
    && ListsNontrivialSccs(ValueGraph(deps), snapshot.nontrivialSccs)
  }

  /** The graph of cross-capability value dependencies between named owners. */
  ghost function ValueGraph(deps: seq<Dependency>): Digraph {
    Induced(set p | p in Pairs(deps, CrossCapabilityValue) && p.from != "" && p.to != "")
  }

  function Increment(counts: map<Arc, nat>, pair: Arc): map<Arc, nat> {
    counts[pair := (if pair in counts then counts[pair] else 0) + 1]
  }

  method Total(counts: map<Arc, nat>, ghost pairs: multiset<Arc>) returns (sum: nat)
    requires Tallies(counts, pairs)
    ensures sum == |pairs|
  {
    sum := 0;
    var rest := counts.Keys;
    ghost var left := pairs;
    while rest != {}
      invariant rest <= counts.Keys
      invariant forall p :: left[p] == if p in rest then pairs[p] else 0
      invariant sum + |left| == |pairs|
      decreases rest
    {
      var pair :| pair in rest;
      sum := sum + counts[pair];
      rest := rest - {pair};
      left := left[pair := 0];
    }
    assert left == multiset{};
  }

  method DebtFrom(counts: map<Arc, nat>, ghost pairs: multiset<Arc>) returns (debt: Debt)
    requires Tallies(counts, pairs)
    ensures Measures(debt, pairs)
  {
    var total := Total(counts, pairs);
    debt := Debt(total, counts);
  }

  method Keys(counts: map<Arc, nat>) returns (keys: seq<Arc>)
    ensures forall p :: p in keys <==> p in counts
  {
    keys := [];
    var rest := counts.Keys;
    while rest != {}
      invariant rest <= counts.Keys
      invariant forall p :: p in keys <==> p in counts && p !in rest
      decreases rest
    {
      var pair :| pair in rest;
      keys, rest := keys + [pair], rest - {pair};
    }
  }

  /** What counting one more dependency does to the tally of category `c`. */
  ghost function Counted(counts: map<Arc, nat>, entry: Entry, c: Category): map<Arc, nat> {
    if entry.Entry? && entry.category == c then Increment(counts, entry.pair) else counts
  }

  lemma TallyStep(counts: map<Arc, nat>, deps: seq<Dependency>, i: nat, c: Category)
    requires i < |deps| && Tallies(counts, Pairs(deps[..i], c))
    ensures Tallies(Counted(counts, Classify(deps[i]), c), Pairs(deps[..i + 1], c))
  {
    assert deps[..i + 1][..i] == deps[..i];
  }

  /** Counts every dependency once into its category, then totals the pairs and finds the cycles. */
  method SummarizeDependencies(deps: seq<Dependency>) returns (snapshot: Snapshot, report: Report)
    ensures Summarizes(snapshot, deps)
    ensures CountsDependencies(snapshot.capabilityToServer, deps, CapabilityToServer)
    ensures CountsDependencies(snapshot.serverToCapabilityDeep, deps, ServerToCapabilityDeep)
    ensures CountsDependencies(snapshot.crossCapabilityValue, deps, CrossCapabilityValue)
    ensures CountsDependencies(report.platformCapabilityToServer, deps, PlatformCapabilityToServer)
    ensures CountsDependencies(report.serverToCapabilityPublic, deps, ServerToCapabilityPublic)
    ensures CountsDependencies(report.crossCapabilityTypeOnly, deps, CrossCapabilityTypeOnly)
    ensures Measures(report.platformCapabilityToServer, Pairs(deps, PlatformCapabilityToServer))
    ensures Measures(report.serverToCapabilityPublic, Pairs(deps, ServerToCapabilityPublic))
    ensures Measures(report.crossCapabilityTypeOnly, Pairs(deps, CrossCapabilityTypeOnly))
  {
    hide Pairs, Tallies, ListsNontrivialSccs, Increment, CountsDependencies;
    var capabilityToServer: map<Arc, nat> := map[];
    var platformCapabilityToServer: map<Arc, nat> := map[];
    var serverToCapabilityDeep: map<Arc, nat> := map[];
    var serverToCapabilityPublic: map<Arc, nat> := map[];
    var crossCapabilityValue: map<Arc, nat> := map[];
    var crossCapabilityTypeOnly: map<Arc, nat> := map[];
    EmptyTallies();
    assert deps[..0] == [];
    for i := 0 to |deps|
      invariant Tallies(capabilityToServer, Pairs(deps[..i], CapabilityToServer))
      invariant Tallies(platformCapabilityToServer, Pairs(deps[..i], PlatformCapabilityToServer))
      invariant Tallies(serverToCapabilityDeep, Pairs(deps[..i], ServerToCapabilityDeep))
      invariant Tallies(serverToCapabilityPublic, Pairs(deps[..i], ServerToCapabilityPublic))
      invariant Tallies(crossCapabilityValue, Pairs(deps[..i], CrossCapabilityValue))
      invariant Tallies(crossCapabilityTypeOnly, Pairs(deps[..i], CrossCapabilityTypeOnly))
    {
      TallyStep(capabilityToServer, deps, i, CapabilityToServer);
      TallyStep(platformCapabilityToServer, deps, i, PlatformCapabilityToServer);
      TallyStep(serverToCapabilityDeep, deps, i, ServerToCapabilityDeep);
      TallyStep(serverToCapabilityPublic, deps, i, ServerToCapabilityPublic);
      TallyStep(crossCapabilityValue, deps, i, CrossCapabilityValue);
      TallyStep(crossCapabilityTypeOnly, deps, i, CrossCapabilityTypeOnly);
      var dependency := deps[i];
      match (dependency.source, dependency.target)
      case (Capability(owner, _), Resolved(Server(name))) =>
        if name in PLATFORM_SERVER_MODULES {
          platformCapabilityToServer := Increment(platformCapabilityToServer, Arc(owner, name));
        } else {
          capabilityToServer := Increment(capabilityToServer, Arc(owner, name));
        }
      case (Server(name), Resolved(Capability(owner, entrypoint))) =>
        if entrypoint in PUBLIC_ENTRYPOINTS {
          serverToCapabilityPublic := Increment(serverToCapabilityPublic, Arc(name, owner));
        } else {
          serverToCapabilityDeep := Increment(serverToCapabilityDeep, Arc(name, owner));
        }
      case (Capability(from, _), Resolved(Capability(to, _))) =>
        if from != to {
          if dependency.kind == Value {
            crossCapabilityValue := Increment(crossCapabilityValue, Arc(from, to));
          } else {
            crossCapabilityTypeOnly := Increment(crossCapabilityTypeOnly, Arc(from, to));
          }
        }
      case _ =>
    }
    assert deps[..|deps|] == deps;
    var serverDebt := DebtFrom(capabilityToServer, Pairs(deps, CapabilityToServer));
    var deepDebt := DebtFrom(serverToCapabilityDeep, Pairs(deps, ServerToCapabilityDeep));
    var valueDebt := DebtFrom(crossCapabilityValue, Pairs(deps, CrossCapabilityValue));
    var keys := Keys(crossCapabilityValue);
    var sccs := SccSearch.NontrivialSccs(keys);
    KeysAreNamedPairs(keys, crossCapabilityValue, deps);
    snapshot := Snapshot(1, EDGE_UNIT, serverDebt, deepDebt, valueDebt, sccs);
    var platform := DebtFrom(platformCapabilityToServer, Pairs(deps, PlatformCapabilityToServer));
    var public := DebtFrom(serverToCapabilityPublic, Pairs(deps, ServerToCapabilityPublic));
    var typeOnly := DebtFrom(crossCapabilityTypeOnly, Pairs(deps, CrossCapabilityTypeOnly));
    report := Report(platform, public, typeOnly);
    MeasuredIsCounted(serverDebt, deps, CapabilityToServer);
    MeasuredIsCounted(deepDebt, deps, ServerToCapabilityDeep);
    MeasuredIsCounted(valueDebt, deps, CrossCapabilityValue);
    MeasuredIsCounted(platform, deps, PlatformCapabilityToServer);
    MeasuredIsCounted(public, deps, ServerToCapabilityPublic);
    MeasuredIsCounted(typeOnly, deps, CrossCapabilityTypeOnly);
  }

  lemma EmptyTallies()
    ensures forall c :: Tallies(map[], Pairs([], c))
  {
  }

  lemma KeysAreNamedPairs(keys: seq<Arc>, counts: map<Arc, nat>, deps: seq<Dependency>)
    requires Tallies(counts, Pairs(deps, CrossCapabilityValue))
    requires forall p :: p in keys <==> p in counts
    ensures Induced(Named(keys)) == ValueGraph(deps)
  {
    assert Named(keys) == set p | p in Pairs(deps, CrossCapabilityValue) && p.from != "" && p.to != "";
  }

  // ---- The comparison ---------------------------------------------------------------

  datatype Violation =
    | UnsupportedCeiling
    | PairAbove(debt: Category, pair: Arc, current: nat, ceiling: nat)
    | TotalAbove(debt: Category, current: nat, ceiling: nat)
    | SccGrew(grown: seq<set<Node>>)

  function CountOf(debt: Debt, pair: Arc): nat {
    if pair in debt.byOwnerPair then debt.byOwnerPair[pair] else 0
  }

  ghost predicate WithinCeiling(actual: Debt, ceiling: Debt) {
    && actual.total <= ceiling.total
    && forall p :: p in actual.byOwnerPair ==> CountOf(actual, p) <= CountOf(ceiling, p)
  }

  /** `v` reports a pair of the category above its ceiling, or its total. */
  ghost predicate Exceeds(debt: Category, actual: Debt, ceiling: Debt, v: Violation) {
    || (v.PairAbove? && v.pair in actual.byOwnerPair && v.current > v.ceiling
        && v == PairAbove(debt, v.pair, CountOf(actual, v.pair), CountOf(ceiling, v.pair)))
    || (actual.total > ceiling.total && v == TotalAbove(debt, actual.total, ceiling.total))
  }

  /** One violation for every pair above its ceiling, and one for a total above its ceiling. */
  method CompareCounts(debt: Category, actual: Debt, ceiling: Debt) returns (violations: seq<Violation>)
    ensures forall v :: v in violations <==> Exceeds(debt, actual, ceiling, v)
    ensures violations == [] <==> WithinCeiling(actual, ceiling)
  {
    violations := [];
    var rest := actual.byOwnerPair.Keys;
    while rest != {}
      invariant rest <= actual.byOwnerPair.Keys
      invariant forall v :: v in violations <==>
        v.PairAbove? && v.pair in actual.byOwnerPair && v.pair !in rest && v.current > v.ceiling
        && v == PairAbove(debt, v.pair, CountOf(actual, v.pair), CountOf(ceiling, v.pair))
      decreases rest
    {
      var pair :| pair in rest;
      rest := rest - {pair};
      var current := CountOf(actual, pair);
      var expected := CountOf(ceiling, pair);
      if current <= expected { continue; }
      violations := violations + [PairAbove(debt, pair, current, expected)];
    }
    if actual.total > ceiling.total {
      violations := violations + [TotalAbove(debt, actual.total, ceiling.total)];
    }
    if violations == [] {
      forall p | p in actual.byOwnerPair ensures CountOf(actual, p) <= CountOf(ceiling, p) {
        assert PairAbove(debt, p, CountOf(actual, p), CountOf(ceiling, p)) !in violations;
      }
    } else {
      assert violations[0] in violations;
    }
  }

  function CanonicalSccs(components: seq<set<Node>>): seq<set<Node>> {
    if components == [] then []
    else (if |components[0]| > 1 then [components[0]] else []) + CanonicalSccs(components[1..])
  }

  predicate Covered(component: set<Node>, ceiling: seq<set<Node>>) {
    exists i :: 0 <= i < |ceiling| && component <= ceiling[i]
  }

  /** The components that no ceiling component contains. */
  function Grown(actual: seq<set<Node>>, ceiling: seq<set<Node>>): seq<set<Node>> {
    if actual == [] then []
    else (if Covered(actual[0], ceiling) then [] else [actual[0]]) + Grown(actual[1..], ceiling)
  }

  function CompareSccs(actual: seq<set<Node>>, ceiling: seq<set<Node>>): seq<Violation> {
    var grown := Grown(CanonicalSccs(actual), CanonicalSccs(ceiling));
    if grown == [] then [] else [SccGrew(grown)]
  }

  method CompareDependencySnapshot(actual: Snapshot, ceiling: Snapshot) returns (violations: seq<Violation>)
    ensures violations == [] <==> Accepts(actual, ceiling)
    ensures
      if ceiling.schemaVersion != 1 || ceiling.edgeUnit != "distinct-source-file-to-resolved-module"
      then violations == [UnsupportedCeiling]
      else forall v :: v in violations <==> Regression(actual, ceiling, v)
  {
    if ceiling.schemaVersion != 1 || ceiling.edgeUnit != EDGE_UNIT { return [UnsupportedCeiling]; }
    var first := CompareCounts(CapabilityToServer, actual.capabilityToServer, ceiling.capabilityToServer);
    var second := CompareCounts(ServerToCapabilityDeep, actual.serverToCapabilityDeep, ceiling.serverToCapabilityDeep);
    var third := CompareCounts(CrossCapabilityValue, actual.crossCapabilityValue, ceiling.crossCapabilityValue);
    violations := first + second + third + CompareSccs(actual.nontrivialSccs, ceiling.nontrivialSccs);
  }

  /** A pair or a total of one of the three debts above its ceiling, or the components no ceiling component contains. */
  ghost predicate Regression(actual: Snapshot, ceiling: Snapshot, v: Violation) {
    || Exceeds(CapabilityToServer, actual.capabilityToServer, ceiling.capabilityToServer, v)
    || Exceeds(ServerToCapabilityDeep, actual.serverToCapabilityDeep, ceiling.serverToCapabilityDeep, v)
    || Exceeds(CrossCapabilityValue, actual.crossCapabilityValue, ceiling.crossCapabilityValue, v)
    || (v.SccGrew? && v.grown != []
        && v.grown == Grown(CanonicalSccs(actual.nontrivialSccs), CanonicalSccs(ceiling.nontrivialSccs)))
  }

  /** The reported components are those of two or more nodes that no such ceiling component contains. */
  lemma {:induction false} GrownMember(actual: seq<set<Node>>, ceiling: seq<set<Node>>, c: set<Node>)
    ensures c in Grown(actual, ceiling) <==> c in actual && !Covered(c, ceiling)
    decreases |actual|
  {
    if actual != [] {
      GrownMember(actual[1..], ceiling, c);
      assert actual == [actual[0]] + actual[1..];
    }
  }

  lemma GrownComponents(actual: seq<set<Node>>, ceiling: seq<set<Node>>, c: set<Node>)
    ensures c in Grown(CanonicalSccs(actual), CanonicalSccs(ceiling)) <==>
      && c in actual && |c| > 1
      && (forall d :: d in ceiling && |d| > 1 ==> !(c <= d))
  {
    hide Grown;
    GrownMember(CanonicalSccs(actual), CanonicalSccs(ceiling), c);
    CanonicalMember(actual, c);
    var sets := CanonicalSccs(ceiling);
    if Covered(c, sets) {
      var i :| 0 <= i < |sets| && c <= sets[i];
      CanonicalMember(ceiling, sets[i]);
    }
    forall d | d in ceiling && |d| > 1 && c <= d ensures Covered(c, sets) {
      CanonicalMember(ceiling, d);
      var i :| 0 <= i < |sets| && sets[i] == d;
    }
  }

  /** No violation: the conjunction of every check the comparison makes. */
  ghost predicate Accepts(actual: Snapshot, ceiling: Snapshot) {
    && ceiling.schemaVersion == 1 && ceiling.edgeUnit == "distinct-source-file-to-resolved-module"
    && WithinCeiling(actual.capabilityToServer, ceiling.capabilityToServer)
    && WithinCeiling(actual.serverToCapabilityDeep, ceiling.serverToCapabilityDeep)
    && WithinCeiling(actual.crossCapabilityValue, ceiling.crossCapabilityValue)
    && CompareSccs(actual.nontrivialSccs, ceiling.nontrivialSccs) == []
  }

  // ---- What is counted, said of the dependencies ---------------------------------------

  /** The dependency is counted in category `c` for the pair of owners. */
  ghost predicate Counts(d: Dependency, c: Category, from: string, to: string) {
    match c
    case CapabilityToServer =>
      && d.source.Capability? && d.target.Resolved? && d.target.location.Server?
      && d.source.owner == from && d.target.location.name == to && to != "ai" && to != "boss"
    case PlatformCapabilityToServer =>
      && d.source.Capability? && d.target.Resolved? && d.target.location.Server?
      && d.source.owner == from && d.target.location.name == to && (to == "ai" || to == "boss")
    case ServerToCapabilityDeep =>
      && d.source.Server? && d.target.Resolved? && d.target.location.Capability?
      && d.source.name == from && d.target.location.owner == to
      && d.target.location.entrypoint != "public" && d.target.location.entrypoint != "ui-public"
    case ServerToCapabilityPublic =>
      && d.source.Server? && d.target.Resolved? && d.target.location.Capability?
      && d.source.name == from && d.target.location.owner == to
      && (d.target.location.entrypoint == "public" || d.target.location.entrypoint == "ui-public")
    case CrossCapabilityValue =>
      && d.source.Capability? && d.target.Resolved? && d.target.location.Capability?
      && d.source.owner == from && d.target.location.owner == to && from != to && d.kind.Value?
    case CrossCapabilityTypeOnly =>
      && d.source.Capability? && d.target.Resolved? && d.target.location.Capability?
      && d.source.owner == from && d.target.location.owner == to && from != to && d.kind.TypeOnly?
  }

  /** The places in the list that are counted for a pair. */
  ghost function Places(deps: seq<Dependency>, c: Category, from: string, to: string): set<int> {
    set i | 0 <= i < |deps| && Counts(deps[i], c, from, to)
  }

  ghost predicate InCategory(d: Dependency, c: Category) { exists from, to :: Counts(d, c, from, to) }

  /** The places in the list that are counted in a category. */
  ghost function AllPlaces(deps: seq<Dependency>, c: Category): set<int> {
    set i | 0 <= i < |deps| && InCategory(deps[i], c)
  }

  lemma ClassifyMeans(d: Dependency, c: Category, from: string, to: string)
    ensures Classify(d) == Entry(c, Arc(from, to)) <==> Counts(d, c, from, to)
  {
  }

  lemma InCategoryMeans(d: Dependency, c: Category)
    ensures InCategory(d, c) <==> Classify(d).Entry? && Classify(d).category == c
  {
    hide Classify, Counts;
    forall from, to ensures Classify(d) == Entry(c, Arc(from, to)) <==> Counts(d, c, from, to) {
      ClassifyMeans(d, c, from, to);
    }
    if Classify(d).Entry? && Classify(d).category == c {
      assert Counts(d, c, Classify(d).pair.from, Classify(d).pair.to);
    }
  }

  lemma PlacesSnoc(deps: seq<Dependency>, d: Dependency, c: Category, from: string, to: string)
    ensures |Places(deps + [d], c, from, to)| == |Places(deps, c, from, to)| + if Counts(d, c, from, to) then 1 else 0
  {
    hide Counts;
    var before, after := Places(deps, c, from, to), Places(deps + [d], c, from, to);
    forall i ensures i in after <==> i in before || (i == |deps| && Counts(d, c, from, to)) { }
    OneMore(before, after, |deps|, Counts(d, c, from, to));
  }

  lemma AllPlacesSnoc(deps: seq<Dependency>, d: Dependency, c: Category)
    ensures |AllPlaces(deps + [d], c)| == |AllPlaces(deps, c)| + if InCategory(d, c) then 1 else 0
  {
    hide InCategory;
    var before, after := AllPlaces(deps, c), AllPlaces(deps + [d], c);
    forall i ensures i in after <==> i in before || (i == |deps| && InCategory(d, c)) { }
    OneMore(before, after, |deps|, InCategory(d, c));
  }

  lemma OneMore<X>(before: set<X>, after: set<X>, x: X, more: bool)
    requires forall y :: y in after <==> y in before || (y == x && more)
    requires x !in before
    ensures |after| == |before| + if more then 1 else 0
  {
    assert after == if more then before + {x} else before;
  }

  lemma PairsSnoc(deps: seq<Dependency>, d: Dependency, c: Category)
    ensures Pairs(deps + [d], c) == Pairs(deps, c) +
      if Classify(d).Entry? && Classify(d).category == c then multiset{Classify(d).pair} else multiset{}
  {
    hide Classify;
    assert (deps + [d])[..|deps|] == deps;
  }

  /** A pair occurs as often as there are places in the list counted for it. */
  lemma {:induction false} PairsAreCounted(deps: seq<Dependency>, c: Category, from: string, to: string)
    ensures Pairs(deps, c)[Arc(from, to)] == |Places(deps, c, from, to)|
    ensures |Pairs(deps, c)| == |AllPlaces(deps, c)|
    decreases |deps|
  {
    if deps == [] {
      assert Places(deps, c, from, to) == {} && AllPlaces(deps, c) == {};
    } else {
      hide Classify, Counts, InCategory, Pairs, Places, AllPlaces;
      var before, d := deps[..|deps| - 1], deps[|deps| - 1];
      assert deps == before + [d];
      PairsAreCounted(before, c, from, to);
      PairsSnoc(before, d, c);
      PlacesSnoc(before, d, c, from, to);
      AllPlacesSnoc(before, d, c);
      ClassifyMeans(d, c, from, to);
      InCategoryMeans(d, c);
    }
  }

  /** A debt says of every pair how many dependencies count for it, and how many count in all. */
  ghost predicate CountsDependencies(debt: Debt, deps: seq<Dependency>, c: Category) {
    && debt.total == |AllPlaces(deps, c)|
    && forall from, to :: CountOf(debt, Arc(from, to)) == |Places(deps, c, from, to)|
  }

  lemma MeasuredIsCounted(debt: Debt, deps: seq<Dependency>, c: Category)
    requires Measures(debt, Pairs(deps, c))
    ensures CountsDependencies(debt, deps, c)
  {
    hide Pairs, Places, AllPlaces;
    PairsAreCounted(deps, c, "", "");
    forall from, to ensures CountOf(debt, Arc(from, to)) == |Places(deps, c, from, to)| {
      PairsAreCounted(deps, c, from, to);
      assert Arc(from, to) in debt.byOwnerPair <==> Arc(from, to) in Pairs(deps, c);
    }
  }

  /** A value import from one named capability into another. */
  ghost function ValueImports(deps: seq<Dependency>): (Node, Node) -> bool {
    (v, w) => v != "" && w != "" && exists i :: 0 <= i < |deps| && Counts(deps[i], CrossCapabilityValue, v, w)
  }

  /** Two capabilities are reported in one cycle exactly when value imports lead from each of them to the other. */
  lemma CyclesMean(snapshot: Snapshot, deps: seq<Dependency>, a: Node, b: Node)
    requires Summarizes(snapshot, deps) && a != b
    ensures Together(snapshot.nontrivialSccs, a, b) <==>
      (exists p :: Chain(ValueImports(deps), p, a, b)) && (exists q :: Chain(ValueImports(deps), q, b, a))
  {
    var g, step := ValueGraph(deps), ValueImports(deps);
    hide Pairs, Counts;
    forall v, w ensures step(v, w) <==> v in g && w in g[v] {
      PairsAreCounted(deps, CrossCapabilityValue, v, w);
      PlacesEmptyIff(deps, CrossCapabilityValue, v, w);
    }
    TogetherIffChains(g, step, snapshot.nontrivialSccs, a, b);
  }

  lemma PlacesEmptyIff(deps: seq<Dependency>, c: Category, from: string, to: string)
    ensures |Places(deps, c, from, to)| > 0 <==> exists i :: 0 <= i < |deps| && Counts(deps[i], c, from, to)
  {
    if i :| 0 <= i < |deps| && Counts(deps[i], c, from, to) {
      assert i in Places(deps, c, from, to);
    }
    if |Places(deps, c, from, to)| > 0 {
      var i :| i in Places(deps, c, from, to);
    }
  }

  // ---- What acceptance means -----------------------------------------------------------

  /** No owner pair of a ratcheted category has more dependencies than before. */
  ghost predicate NoPairGrew(head: seq<Dependency>, base: seq<Dependency>) {
    && Pairs(head, CapabilityToServer) <= Pairs(base, CapabilityToServer)
    && Pairs(head, ServerToCapabilityDeep) <= Pairs(base, ServerToCapabilityDeep)
    && Pairs(head, CrossCapabilityValue) <= Pairs(base, CrossCapabilityValue)
  }

  lemma WithinIffFewer(actual: Debt, ceiling: Debt, a: multiset<Arc>, c: multiset<Arc>)
    requires Measures(actual, a) && Measures(ceiling, c)
    ensures WithinCeiling(actual, ceiling) <==> a <= c
  {
    if a <= c {
      assert c == a + (c - a);
      forall p | p in actual.byOwnerPair ensures CountOf(actual, p) <= CountOf(ceiling, p) {
        assert a[p] <= c[p];
      }
    }
    if WithinCeiling(actual, ceiling) {
      forall p ensures a[p] <= c[p] {
        assert p in actual.byOwnerPair <==> p in a;
        assert p in ceiling.byOwnerPair <==> p in c;
      }
    }
  }

  lemma {:induction false} CanonicalMember(components: seq<set<Node>>, c: set<Node>)
    ensures c in CanonicalSccs(components) <==> c in components && |c| > 1
    decreases |components|
  {
    if components != [] {
      CanonicalMember(components[1..], c);
      assert components == [components[0]] + components[1..];
    }
  }

  lemma {:induction false} GrownEmptyIff(actual: seq<set<Node>>, ceiling: seq<set<Node>>)
    ensures Grown(actual, ceiling) == [] <==> forall c :: c in actual ==> Covered(c, ceiling)
    decreases |actual|
  {
    if actual != [] {
      GrownEmptyIff(actual[1..], ceiling);
      assert actual == [actual[0]] + actual[1..];
    }
  }

  /** A larger cycle structure covers a smaller one: adding edges only merges components. */
  lemma SccsShrinkWithEdges(g: Digraph, h: Digraph, actual: seq<set<Node>>, ceiling: seq<set<Node>>)
    requires forall v :: v in g ==> v in h && g[v] <= h[v]
    requires ListsNontrivialSccs(g, actual) && ListsNontrivialSccs(h, ceiling)
    ensures CompareSccs(actual, ceiling) == []
  {
    forall c | c in CanonicalSccs(actual) ensures Covered(c, CanonicalSccs(ceiling)) {
      CanonicalMember(actual, c);
      assert NontrivialScc(g, c);
      var v :| v in g && c == Scc(g, v);
      forall w | w in c ensures w in Scc(h, v) {
        ReachMono(g, h, v, w);
        ReachMono(g, h, w, v);
      }
      SubsetCardinality(c, Scc(h, v));
      assert NontrivialScc(h, Scc(h, v));
      CanonicalMember(ceiling, Scc(h, v));
    }
    GrownEmptyIff(CanonicalSccs(actual), CanonicalSccs(ceiling));
  }

  lemma SubsetCardinality(a: set<Node>, b: set<Node>)
    requires a <= b
    ensures |a| <= |b|
  {
    assert b == a + (b - a);
  }

  /** The total check and the cycle check never reject what the pair check allows. */
  lemma AcceptsIffNoPairGrew(actual: Snapshot, head: seq<Dependency>, ceiling: Snapshot, base: seq<Dependency>)
    requires Summarizes(actual, head) && Summarizes(ceiling, base)
    ensures Accepts(actual, ceiling) <==> NoPairGrew(head, base)
  {
    WithinIffFewer(actual.capabilityToServer, ceiling.capabilityToServer,
                   Pairs(head, CapabilityToServer), Pairs(base, CapabilityToServer));
    WithinIffFewer(actual.serverToCapabilityDeep, ceiling.serverToCapabilityDeep,
                   Pairs(head, ServerToCapabilityDeep), Pairs(base, ServerToCapabilityDeep));
    WithinIffFewer(actual.crossCapabilityValue, ceiling.crossCapabilityValue,
                   Pairs(head, CrossCapabilityValue), Pairs(base, CrossCapabilityValue));
    if NoPairGrew(head, base) {
      assert forall p :: p in Pairs(head, CrossCapabilityValue) ==> p in Pairs(base, CrossCapabilityValue);
      SccsShrinkWithEdges(ValueGraph(head), ValueGraph(base), actual.nontrivialSccs, ceiling.nontrivialSccs);
    }
  }

  /** The same said of the dependencies: for no pair of owners does the head have more of the three counted kinds. */
  lemma AcceptsIffNoCountGrew(actual: Snapshot, head: seq<Dependency>, ceiling: Snapshot, base: seq<Dependency>)
    requires Summarizes(actual, head) && Summarizes(ceiling, base)
    ensures Accepts(actual, ceiling) <==> forall from, to ::
      && |Places(head, CapabilityToServer, from, to)| <= |Places(base, CapabilityToServer, from, to)|
      && |Places(head, ServerToCapabilityDeep, from, to)| <= |Places(base, ServerToCapabilityDeep, from, to)|
      && |Places(head, CrossCapabilityValue, from, to)| <= |Places(base, CrossCapabilityValue, from, to)|
  {
    AcceptsIffNoPairGrew(actual, head, ceiling, base);
    hide Accepts, Summarizes;
    FewerIffCounts(head, base, CapabilityToServer);
    FewerIffCounts(head, base, ServerToCapabilityDeep);
    FewerIffCounts(head, base, CrossCapabilityValue);
    hide Places, Pairs;
  }

  lemma FewerIffCounts(head: seq<Dependency>, base: seq<Dependency>, c: Category)
    ensures Pairs(head, c) <= Pairs(base, c) <==>
      forall from, to :: |Places(head, c, from, to)| <= |Places(base, c, from, to)|
  {
    hide Places, Pairs;
    forall from, to
      ensures Pairs(head, c)[Arc(from, to)] == |Places(head, c, from, to)|
      ensures Pairs(base, c)[Arc(from, to)] == |Places(base, c, from, to)|
    {
      PairsAreCounted(head, c, from, to);
      PairsAreCounted(base, c, from, to);
    }
    if forall from, to :: |Places(head, c, from, to)| <= |Places(base, c, from, to)| {
      forall p ensures Pairs(head, c)[p] <= Pairs(base, c)[p] {
        assert p == Arc(p.from, p.to);
      }
    }
  }

  /** Commits that each pass against their predecessor: the last one passes against the first. */
  lemma {:induction false} AcceptanceChains(snapshots: seq<Snapshot>, commits: seq<seq<Dependency>>)
    requires |snapshots| == |commits| > 0
    requires forall i :: 0 <= i < |commits| ==> Summarizes(snapshots[i], commits[i])
    requires forall i :: 0 < i < |commits| ==> Accepts(snapshots[i], snapshots[i - 1])
    ensures Accepts(snapshots[|snapshots| - 1], snapshots[0])
    decreases |commits|
  {
    hide Accepts, Summarizes, Pairs;
    var last := |commits| - 1;
    if last == 0 {
      AcceptsIffNoPairGrew(snapshots[0], commits[0], snapshots[0], commits[0]);
    } else {
      AcceptanceChains(snapshots[..last], commits[..last]);
      AcceptsIffNoPairGrew(snapshots[last - 1], commits[last - 1], snapshots[0], commits[0]);
      AcceptsIffNoPairGrew(snapshots[last], commits[last], snapshots[last - 1], commits[last - 1]);
      AcceptsIffNoPairGrew(snapshots[last], commits[last], snapshots[0], commits[0]);
    }
  }
}
