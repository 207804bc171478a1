/**
 * The reciprocal-read check: every public-port read between owners on dependency
 * cycles must name its consumer file in the hand-kept catalog.
 */
module CycleCatalog {
  import opened Graph
  import SccSearch

  datatype OwnerEdge = OwnerEdge(from: Node, to: Node, file: string)
  datatype CatalogEntry = CatalogEntry(consumer: Node, owner: Node, files: seq<string>)
  datatype Violation = Uncatalogued(direction: Arc) | FilesMissing(direction: Arc, missing: set<string>)

  function Direction(e: OwnerEdge): Arc { Arc(e.from, e.to) }

  /** Owner edges carry directory names, which are never empty. */
  predicate NamedOwners(edges: seq<OwnerEdge>) {
    forall e :: e in edges ==> e.from != "" && e.to != ""
  }

  function OwnerGraph(edges: seq<OwnerEdge>): Digraph {
    Induced(set e | e in edges :: Direction(e))
  }

  ghost function CyclicOwners(g: Digraph): set<Node> {
    set v | v in g && |Scc(g, v)| > 1
  }

  /** The edges whose two ends are both among `owners`, in their original order. */
  function Within(edges: seq<OwnerEdge>, owners: set<Node>): seq<OwnerEdge> {
    if edges == [] then []
    else (if edges[0].from in owners && edges[0].to in owners then [edges[0]] else []) + Within(edges[1..], owners)
  }

  lemma {:induction false} WithinMember(edges: seq<OwnerEdge>, owners: set<Node>, e: OwnerEdge)
    ensures e in Within(edges, owners) <==> e in edges && e.from in owners && e.to in owners
    decreases |edges|
  {
    if edges != [] {
      WithinMember(edges[1..], owners, e);
      assert edges == [edges[0]] + edges[1..];
    }
  }

  method Directions(edges: seq<OwnerEdge>) returns (arcs: seq<Arc>)
    requires NamedOwners(edges)
    ensures Induced(Named(arcs)) == OwnerGraph(edges)
  {
    arcs := [];
    for i := 0 to |edges|
      invariant forall a :: a in arcs <==> exists j :: 0 <= j < i && Direction(edges[j]) == a
    {
      arcs := arcs + [Direction(edges[i])];
    }
    assert Named(arcs) == (set e | e in edges :: Direction(e)) by {
      forall a ensures a in Named(arcs) <==> a in (set e | e in edges :: Direction(e)) {
        if a in arcs {
          var j :| 0 <= j < |edges| && Direction(edges[j]) == a;
          assert edges[j] in edges;
        }
        if a in (set e | e in edges :: Direction(e)) {
          var e :| e in edges && Direction(e) == a;
          var j :| 0 <= j < |edges| && edges[j] == e;
        }
      }
    }
  }

  method CollectIntraSccEdges(edges: seq<OwnerEdge>) returns (kept: seq<OwnerEdge>)
    requires NamedOwners(edges)
    ensures kept == Within(edges, CyclicOwners(OwnerGraph(edges)))
  {
    var arcs := Directions(edges);
    ghost var g := OwnerGraph(edges);
    var components := SccSearch.NontrivialSccs(arcs);
    var cyclicOwners := set i, v | 0 <= i < |components| && v in components[i] :: v;
    MembersAreCyclic(g, components, cyclicOwners);
    kept := Within(edges, cyclicOwners);
  }

  lemma MembersAreCyclic(g: Digraph, components: seq<set<Node>>, owners: set<Node>)
    requires ListsNontrivialSccs(g, components)
    requires owners == set i, v | 0 <= i < |components| && v in components[i] :: v
    ensures owners == CyclicOwners(g)
  {
    forall v | v in owners ensures v in CyclicOwners(g) {
      var i :| 0 <= i < |components| && v in components[i];
      assert NontrivialScc(g, components[i]);
      var w :| w in g && components[i] == Scc(g, w);
      SccsEqualOrDisjoint(g, w, v);
    }
    forall v | v in CyclicOwners(g) ensures v in owners {
      ReachSelf(g, v);
      assert NontrivialScc(g, Scc(g, v));
      var i :| 0 <= i < |components| && components[i] == Scc(g, v);
      assert v in components[i];
    }
  }

  // ---- The catalog comparison ---------------------------------------------------------

  /** Later entries for the same direction replace earlier ones. */
  function EntryFor(catalog: seq<CatalogEntry>, direction: Arc): (entry: seq<CatalogEntry>)
    ensures |entry| <= 1
  {
    if catalog == [] then []
    else
      var last := catalog[|catalog| - 1];
      if Arc(last.consumer, last.owner) == direction then [last]
      else EntryFor(catalog[..|catalog| - 1], direction)
  }

  predicate Lists(catalog: seq<CatalogEntry>, e: OwnerEdge) {
    var entry := EntryFor(catalog, Direction(e));
    entry != [] && e.file in entry[0].files
  }

  method CatalogByDirection(catalog: seq<CatalogEntry>) returns (index: map<Arc, CatalogEntry>)
    ensures forall d :: EntryFor(catalog, d) == if d in index then [index[d]] else []
  {
    index := map[];
    for i := 0 to |catalog|
      invariant forall d :: EntryFor(catalog[..i], d) == if d in index then [index[d]] else []
    {
      assert catalog[..i + 1][..i] == catalog[..i];
      index := index[Arc(catalog[i].consumer, catalog[i].owner) := catalog[i]];
    }
    assert catalog[..|catalog|] == catalog;
  }

  function FilesOf(edges: seq<OwnerEdge>, direction: Arc): set<string> {
    set e | e in edges && Direction(e) == direction :: e.file
  }

  function Grouped(edges: seq<OwnerEdge>): map<Arc, set<string>> {
    map d | d in (set e | e in edges :: Direction(e)) :: FilesOf(edges, d)
  }

  method FilesByDirection(edges: seq<OwnerEdge>) returns (files: map<Arc, set<string>>)
    ensures files == Grouped(edges)
  {
    hide Grouped;
    files := map[];
    GroupedEmpty();
    assert edges[..0] == [];
    for i := 0 to |edges|
      invariant files == Grouped(edges[..i])
    {
      var e := edges[i];
      var key := Direction(e);
      AddFile(edges[..i], e);
      assert edges[..i + 1] == edges[..i] + [e];
      files := files[key := (if key in files then files[key] else {}) + {e.file}];
    }
    assert edges[..|edges|] == edges;
  }

  lemma GroupedEmpty()
    ensures Grouped([]) == map[]
  {
  }

  lemma AddFile(edges: seq<OwnerEdge>, e: OwnerEdge)
    ensures
      var files := Grouped(edges);
      var key := Direction(e);
      Grouped(edges + [e]) == files[key := (if key in files then files[key] else {}) + {e.file}]
  {
    forall f ensures f in edges + [e] <==> f in edges || f == e { }
    var files := Grouped(edges);
    var key := Direction(e);
    assert (set f | f in edges + [e] :: Direction(f)) == (set f | f in edges :: Direction(f)) + {key};
    forall d ensures FilesOf(edges + [e], d) == FilesOf(edges, d) + (if d == key then {e.file} else {}) { }
    assert key !in files ==> FilesOf(edges, key) == {};
    var grown := files[key := (if key in files then files[key] else {}) + {e.file}];
    assert Grouped(edges + [e]).Keys == grown.Keys;
    forall d | d in grown ensures Grouped(edges + [e])[d] == grown[d] { }
  }

  /** The one violation a direction deserves: no entry at all, or an entry that misses consumer files. */
  ghost predicate Deserved(kept: seq<OwnerEdge>, catalog: seq<CatalogEntry>, v: Violation) {
    var entry := EntryFor(catalog, v.direction);
    && (exists e :: e in kept && Direction(e) == v.direction)
    && match v
       case Uncatalogued(_) => entry == []
       case FilesMissing(d, missing) =>
         entry != [] && missing != {} && missing == FilesOf(kept, d) - set f | f in entry[0].files
  }

  method FindUncataloguedReciprocalReads(edges: seq<OwnerEdge>, catalog: seq<CatalogEntry>)
    returns (violations: seq<Violation>)
    requires NamedOwners(edges)
    ensures forall v :: v in violations <==> Deserved(Within(edges, CyclicOwners(OwnerGraph(edges))), catalog, v)
  {
    var kept := CollectIntraSccEdges(edges);
    var filesByDirection := FilesByDirection(kept);
    var catalogByDirection := CatalogByDirection(catalog);
    violations := [];
    var rest := filesByDirection.Keys;
    while rest != {}
      invariant rest <= filesByDirection.Keys
      invariant forall v :: v in violations <==> Deserved(kept, catalog, v) && v.direction !in rest
      decreases rest
    {
      var direction :| direction in rest;
      rest := rest - {direction};
      var files := filesByDirection[direction];
      if direction !in catalogByDirection {
        violations := violations + [Uncatalogued(direction)];
        continue;
      }
      var entry := catalogByDirection[direction];
      assert EntryFor(catalog, direction) == [entry];
      var missing := set f | f in files && f !in entry.files;
      assert missing == FilesOf(kept, direction) - set f | f in entry.files;
      if missing != {} {
        violations := violations + [FilesMissing(direction, missing)];
      }
    }
  }

  /** The report is empty exactly when the catalog lists every kept edge with its file. */
  lemma CleanIffAllListed(kept: seq<OwnerEdge>, catalog: seq<CatalogEntry>)
    ensures (forall v :: !Deserved(kept, catalog, v)) <==> forall e :: e in kept ==> Lists(catalog, e)
  {
    if forall v :: !Deserved(kept, catalog, v) {
      forall e | e in kept ensures Lists(catalog, e) {
        var d := Direction(e);
        assert !Deserved(kept, catalog, Uncatalogued(d));
        var missing := FilesOf(kept, d) - set f | f in EntryFor(catalog, d)[0].files;
        assert !Deserved(kept, catalog, FilesMissing(d, missing));
        assert e.file !in missing;
      }
    }
    if forall e :: e in kept ==> Lists(catalog, e) {
      forall v ensures !Deserved(kept, catalog, v) {
        assert forall e :: e in kept ==> e.file in FilesOf(kept, Direction(e));
      }
    }
  }

  // ---- The report, said of edges and entries ------------------------------------------------

  /** The last entry for reads of `consumer` from `owner`. */
  ghost predicate LastEntry(catalog: seq<CatalogEntry>, consumer: Node, owner: Node, i: nat) {
    && i < |catalog| && catalog[i].consumer == consumer && catalog[i].owner == owner
    && forall j :: i < j < |catalog| ==> !(catalog[j].consumer == consumer && catalog[j].owner == owner)
  }

  lemma {:induction false} EntryForIs(catalog: seq<CatalogEntry>, consumer: Node, owner: Node)
    ensures EntryFor(catalog, Arc(consumer, owner)) == [] <==>
      forall j :: 0 <= j < |catalog| ==> !(catalog[j].consumer == consumer && catalog[j].owner == owner)
    ensures forall i: nat :: LastEntry(catalog, consumer, owner, i) ==> EntryFor(catalog, Arc(consumer, owner)) == [catalog[i]]
    ensures EntryFor(catalog, Arc(consumer, owner)) != [] ==> exists i: nat :: LastEntry(catalog, consumer, owner, i)
    decreases |catalog|
  {
    if catalog != [] {
      var n := |catalog| - 1;
      var last := catalog[n];
      if last.consumer == consumer && last.owner == owner {
        assert LastEntry(catalog, consumer, owner, n);
      } else {
        EntryForIs(catalog[..n], consumer, owner);
        forall i: nat
          ensures LastEntry(catalog, consumer, owner, i) <==> LastEntry(catalog[..n], consumer, owner, i)
        {
        }
      }
    }
  }

  ghost predicate ReadsFile(kept: seq<OwnerEdge>, consumer: Node, owner: Node, file: string) {
    exists i :: 0 <= i < |kept| && kept[i] == OwnerEdge(consumer, owner, file)
  }

  /** What a violation of the report says of the kept edges and the catalog entries. */
  ghost predicate Complaint(kept: seq<OwnerEdge>, catalog: seq<CatalogEntry>, v: Violation) {
    var consumer, owner := v.direction.from, v.direction.to;
    match v
    case Uncatalogued(_) =>
      && (exists file :: ReadsFile(kept, consumer, owner, file))
      && (forall j :: 0 <= j < |catalog| ==> !(catalog[j].consumer == consumer && catalog[j].owner == owner))
    case FilesMissing(_, missing) =>
      exists i: nat :: LastEntry(catalog, consumer, owner, i) && missing != {} &&
        forall file :: file in missing <==> ReadsFile(kept, consumer, owner, file) && file !in catalog[i].files
  }

  lemma FilesAre(kept: seq<OwnerEdge>, consumer: Node, owner: Node, file: string)
    ensures file in FilesOf(kept, Arc(consumer, owner)) <==> ReadsFile(kept, consumer, owner, file)
  {
    if ReadsFile(kept, consumer, owner, file) {
      assert OwnerEdge(consumer, owner, file) in kept;
    }
    if file in FilesOf(kept, Arc(consumer, owner)) {
      var e :| e in kept && Direction(e) == Arc(consumer, owner) && e.file == file;
      var i :| 0 <= i < |kept| && kept[i] == e;
    }
  }

  lemma DeservedIff(kept: seq<OwnerEdge>, catalog: seq<CatalogEntry>, v: Violation)
    ensures Deserved(kept, catalog, v) <==> Complaint(kept, catalog, v)
  {
    var consumer, owner := v.direction.from, v.direction.to;
    EntryForIs(catalog, consumer, owner);
    forall file ensures file in FilesOf(kept, v.direction) <==> ReadsFile(kept, consumer, owner, file) {
      FilesAre(kept, consumer, owner, file);
    }
    assert (exists e :: e in kept && Direction(e) == v.direction) <==> (exists file :: file in FilesOf(kept, v.direction)) by {
      if e :| e in kept && Direction(e) == v.direction { assert e.file in FilesOf(kept, v.direction); }
    }
    hide EntryFor, LastEntry, ReadsFile, FilesOf;
    if v.FilesMissing? && EntryFor(catalog, v.direction) != [] {
      var i: nat :| LastEntry(catalog, consumer, owner, i);
      MissingIff(FilesOf(kept, v.direction), catalog[i].files, v.missing);
    }
  }

  lemma MissingIff(files: set<string>, listed: seq<string>, missing: set<string>)
    ensures missing == files - (set f | f in listed) <==> forall f :: f in missing <==> f in files && f !in listed
    ensures missing != {} && (forall f :: f in missing <==> f in files && f !in listed) ==> exists f :: f in files
  {
    if missing != {} {
      var f :| f in missing;
    }
  }

  /** A read between two owners. */
  ghost function Reads(edges: seq<OwnerEdge>): (Node, Node) -> bool {
    (v, w) => exists i :: 0 <= i < |edges| && edges[i].from == v && edges[i].to == w
  }

  ghost predicate BothWays(edges: seq<OwnerEdge>, v: Node, w: Node) {
    v != w && (exists p :: Chain(Reads(edges), p, v, w)) && (exists q :: Chain(Reads(edges), q, w, v))
  }

  /** An owner counts as cyclic exactly when reads lead from it to another owner and back. */
  lemma CyclicIff(edges: seq<OwnerEdge>, v: Node)
    ensures v in CyclicOwners(OwnerGraph(edges)) <==> exists w :: BothWays(edges, v, w)
  {
    var g, step := OwnerGraph(edges), Reads(edges);
    forall a, b ensures step(a, b) <==> a in g && b in g[a] {
      if i :| 0 <= i < |edges| && edges[i].from == a && edges[i].to == b {
        EndpointsInGraph(edges, edges[i]);
      }
      if a in g && b in g[a] {
        var e :| e in edges && Direction(e) == Arc(a, b);
        var i :| 0 <= i < |edges| && edges[i] == e;
      }
    }
    forall a, b ensures Reach(g, a, b) <==> exists p :: Chain(step, p, a, b) { ReachIffChain(g, step, a, b); }
    GraphIsClosed(edges);
    hide Chain, Reads, OwnerGraph;
    if v in CyclicOwners(g) {
      var w := OtherMember(Scc(g, v), v);
      assert Mutual(g, v, w);
      assert BothWays(edges, v, w);
    }
    if w :| BothWays(edges, v, w) {
      hide Reach;
      SharedComponent(g, v, w);
      EndsOfReach(g, v, w);
    }
  }

  lemma GraphIsClosed(edges: seq<OwnerEdge>)
    ensures Closed(OwnerGraph(edges))
  {
  }

  lemma EndsOfReach(g: Digraph, v: Node, w: Node)
    requires Reach(g, v, w) && v != w
    ensures v in g
  {
  }

  lemma OtherMember(s: set<Node>, v: Node) returns (w: Node)
    requires |s| > 1
    ensures w in s && w != v
  {
    w :| w in s;
    if w == v {
      assert |s - {v}| == |s| - 1;
      w :| w in s - {v};
    }
  }

  // ---- What a clean report means ----------------------------------------------------------

  /** The edge closes a directed cycle through at least two owners. */
  ghost predicate OnCycle(g: Digraph, e: OwnerEdge) {
    e.from != e.to && Reach(g, e.to, e.from)
  }

  lemma EndpointsInGraph(edges: seq<OwnerEdge>, e: OwnerEdge)
    requires e in edges
    ensures e.from in OwnerGraph(edges) && e.to in OwnerGraph(edges)[e.from] && e.to in OwnerGraph(edges)
  {
    assert Direction(e) in (set f | f in edges :: Direction(f));
  }

  /** Both ends of an edge on a cycle are cyclic owners, so the check keeps it. */
  lemma CycleEdgesAreKept(edges: seq<OwnerEdge>, e: OwnerEdge)
    requires e in edges && OnCycle(OwnerGraph(edges), e)
    ensures e in Within(edges, CyclicOwners(OwnerGraph(edges)))
  {
    var g := OwnerGraph(edges);
    EndpointsInGraph(edges, e);
    ReachEdge(g, e.from, e.to);
    ReachSelf(g, e.from);
    ReachSelf(g, e.to);
    TwoMembers(Scc(g, e.from), e.from, e.to);
    TwoMembers(Scc(g, e.to), e.from, e.to);
    WithinMember(edges, CyclicOwners(g), e);
  }

  lemma TwoMembers(s: set<Node>, a: Node, b: Node)
    requires a in s && b in s && a != b
    ensures |s| > 1
  {
    assert s == {a, b} + (s - {a, b});
  }

  /** A clean report: every edge on a cycle of two or more owners is catalogued with its file. */
  lemma CleanReportCoversCycles(edges: seq<OwnerEdge>, catalog: seq<CatalogEntry>)
    requires forall v :: !Deserved(Within(edges, CyclicOwners(OwnerGraph(edges))), catalog, v)
    ensures forall e :: e in edges && OnCycle(OwnerGraph(edges), e) ==> Lists(catalog, e)
  {
    CleanIffAllListed(Within(edges, CyclicOwners(OwnerGraph(edges))), catalog);
    forall e | e in edges && OnCycle(OwnerGraph(edges), e) ensures Lists(catalog, e) {
      CycleEdgesAreKept(edges, e);
    }
  }

  /** The kept edges that lie on no cycle are exactly the self reads and the reads from one component to another. */
  lemma KeptOffCycleIff(edges: seq<OwnerEdge>, e: OwnerEdge)
    requires e in Within(edges, CyclicOwners(OwnerGraph(edges)))
    ensures
      var g := OwnerGraph(edges);
      !OnCycle(g, e) <==> e.from == e.to || Scc(g, e.from) !! Scc(g, e.to)
  {
    hide Reach, CyclicOwners, OwnerGraph;
    var g := OwnerGraph(edges);
    WithinMember(edges, CyclicOwners(g), e);
    EndpointsInGraph(edges, e);
    SameComponentIff(g, e.from, e.to);
  }

  lemma SameComponentIff(g: Digraph, a: Node, b: Node)
    requires a in g && b in g && b in g[a]
    ensures Reach(g, b, a) <==> !(Scc(g, a) !! Scc(g, b))
  {
    hide Reach;
    ReachEdge(g, a, b);
    ReachSelf(g, b);
    SccsEqualOrDisjoint(g, a, b);
    if Reach(g, b, a) {
      assert b in Scc(g, a) && b in Scc(g, b);
    } else {
      assert b !in Scc(g, a) && b in Scc(g, b);
    }
  }

  /** Two separate cycles with a one-way read between them: that read is kept and must be catalogued. */
  lemma BridgeIsKept()
    ensures
      var edges := [OwnerEdge("a", "b", "1"), OwnerEdge("b", "a", "2"), OwnerEdge("b", "c", "3"),
                    OwnerEdge("c", "d", "4"), OwnerEdge("d", "c", "5")];
      && edges[2] in Within(edges, CyclicOwners(OwnerGraph(edges)))
      && !OnCycle(OwnerGraph(edges), edges[2])
  {
    hide Reach, Within, OwnerGraph, CyclicOwners;
    var edges := [OwnerEdge("a", "b", "1"), OwnerEdge("b", "a", "2"), OwnerEdge("b", "c", "3"),
                  OwnerEdge("c", "d", "4"), OwnerEdge("d", "c", "5")];
    var g := OwnerGraph(edges);
    TwoCycle(edges, edges[1], edges[0]);
    TwoCycle(edges, edges[4], edges[3]);
    WithinMember(edges, CyclicOwners(g), edges[2]);
    assert {"c", "d"} !! {"b"};
    if Reach(g, "c", "b") {
      forall v, w | v in {"c", "d"} && v in g && w in g[v] ensures w in {"c", "d"} {
        EdgeOf(edges, v, w);
      }
      ReachStaysInside(g, {"c", "d"}, "c", "b");
      assert false;
    }
  }

  lemma EdgeOf(edges: seq<OwnerEdge>, v: Node, w: Node)
    requires v in OwnerGraph(edges) && w in OwnerGraph(edges)[v]
    ensures exists i :: 0 <= i < |edges| && edges[i].from == v && edges[i].to == w
  {
    var e :| e in edges && Direction(e) == Arc(v, w);
  }

  lemma TwoCycle(edges: seq<OwnerEdge>, e: OwnerEdge, f: OwnerEdge)
    requires e in edges && f in edges && e.from == f.to && e.to == f.from && e.from != e.to
    ensures e.from in CyclicOwners(OwnerGraph(edges)) && e.to in CyclicOwners(OwnerGraph(edges))
  {
    EndpointsInGraph(edges, f);
    ReachEdge(OwnerGraph(edges), f.from, f.to);
    CycleEdgesAreKept(edges, e);
    WithinMember(edges, CyclicOwners(OwnerGraph(edges)), e);
  }
}
