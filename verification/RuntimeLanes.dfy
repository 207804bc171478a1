/**
 * Runtime reachability in the provider-lane audit: the source closure, the set of
 * paths any composition root reaches, and the roles whose roots reach one target.
 */
module RuntimeLanes {
  import opened Graph

  // ---- Worklist search --------------------------------------------------------------

  /** `g` without the nodes in `avoid`. */
  ghost function Avoiding(g: Digraph, avoid: set<Node>): Digraph {
    map v | v in g && v !in avoid :: g[v] - avoid
  }

  /** `t` can be reached from one of `starts` without touching `avoid`. */
  ghost predicate Explores(g: Digraph, starts: set<Node>, avoid: set<Node>, t: Node) {
    exists a :: a in starts && a !in avoid && Reach(Avoiding(g, avoid), a, t)
  }

  /** A worklist search in progress: what is visited is explored, and nothing has been dropped. */
  ghost predicate Searching(g: Digraph, starts: set<Node>, avoid: set<Node>, visited: set<Node>, queue: seq<Node>) {
    && visited !! avoid
    && (forall v :: v in visited ==> Explores(g, starts, avoid, v))
    && (forall q :: q in queue ==> q in avoid || Explores(g, starts, avoid, q))
    && (forall a :: a in starts ==> a in visited || a in avoid || a in queue)
    && (forall v :: v in visited && v in g ==> forall w :: w in g[v] ==> w in visited || w in avoid || w in queue)
  }

  lemma SearchStarts(g: Digraph, starts: set<Node>, avoid: set<Node>, queue: seq<Node>)
    requires forall a :: a in starts <==> a in queue
    ensures Searching(g, starts, avoid, {}, queue)
  {
    forall q | q in queue && q !in avoid ensures Explores(g, starts, avoid, q) {
      ReachSelf(Avoiding(g, avoid), q);
    }
  }

  /** Taking `current` off the worklist and putting its successors on. */
  lemma SearchStep(
    g: Digraph, starts: set<Node>, avoid: set<Node>, visited: set<Node>, queue: seq<Node>,
    current: Node, rest: seq<Node>, next: seq<Node>)
    requires Searching(g, starts, avoid, visited, queue)
    requires forall q :: q in queue <==> q in rest || q == current
    requires forall q :: q in next <==> q in rest || (current !in avoid + visited && current in g && q in g[current])
    ensures Searching(g, starts, avoid, if current in avoid then visited else visited + {current}, next)
  {
    hide Reach;
    if current !in avoid + visited {
      forall q | q in next && q !in avoid ensures Explores(g, starts, avoid, q) {
        if q !in rest {
          var a :| a in starts && a !in avoid && Reach(Avoiding(g, avoid), a, current);
          ReachEdge(Avoiding(g, avoid), current, q);
          ReachTrans(Avoiding(g, avoid), a, current, q);
        }
      }
    }
  }

  /** An empty worklist: exactly the explored nodes have been visited. */
  lemma SearchDone(g: Digraph, starts: set<Node>, avoid: set<Node>, visited: set<Node>)
    requires Searching(g, starts, avoid, visited, [])
    ensures forall t :: t in visited <==> Explores(g, starts, avoid, t)
  {
    hide Reach;
    forall t | Explores(g, starts, avoid, t) ensures t in visited {
      var a :| a in starts && a !in avoid && Reach(Avoiding(g, avoid), a, t);
      ReachStaysInside(Avoiding(g, avoid), visited, a, t);
    }
  }

  /** Where a search over `g` from `starts` can possibly go. */
  ghost function Universe(g: Digraph, starts: set<Node>): set<Node> {
    starts + set v, w | v in g && w in g[v] :: w
  }

  lemma UniverseHolds(g: Digraph, starts: set<Node>)
    ensures starts <= Universe(g, starts) && Universe(g, {}) <= Universe(g, starts)
  {
  }

  lemma ExploredInUniverse(g: Digraph, starts: set<Node>, avoid: set<Node>)
    ensures forall t :: Explores(g, starts, avoid, t) ==> t in Universe(g, starts)
  {
    hide Reach;
    forall t | Explores(g, starts, avoid, t) ensures t in Universe(g, starts) {
      var a :| a in starts && a !in avoid && Reach(Avoiding(g, avoid), a, t);
      ReachStaysInside(Avoiding(g, avoid), Universe(g, starts), a, t);
    }
  }

  // ---- Import edges and composition roots ------------------------------------------------

  datatype ImportKind = TypeImport | StaticImport | RuntimeImport
  datatype ImportEdge = ImportEdge(path: Node, target: Node, kind: ImportKind)   // target "" is unresolved
  datatype Role = Api | Worker
  datatype Root = Root(path: Node, role: Role, blocksCapabilityIndex: bool)

  const CAPABILITY_INDEX: Node := "src/capabilities/index.ts"
  const API_ENTRY: Node := "server/index.ts"
  const API_APP: Node := "server/app.ts"
  const IN_PROCESS_WORKER: Node := "src/server/boss/start-worker.ts"
  const BOSS_HANDLERS: Node := "src/server/boss/handlers.ts"

  predicate Followed(e: ImportEdge) { e.target != "" && e.kind != TypeImport }

  function Importers(edges: seq<ImportEdge>): set<Node> {
    set e | e in edges && Followed(e) :: e.path
  }

  function RuntimeGraph(edges: seq<ImportEdge>): Digraph {
    map v | v in Importers(edges) ::
      set e | e in edges && Followed(e) && e.path == v :: e.target
  }

  /** The edges a root may follow: never a worker-start thunk, and for a blocking root never the capability index. */
  function RootGraph(g: Digraph, thunks: set<Arc>, blocks: bool): Digraph {
    map v | v in g :: set w | w in g[v] && !(blocks && w == CAPABILITY_INDEX) && Arc(v, w) !in thunks
  }

  ghost predicate RootReaches(g: Digraph, thunks: set<Arc>, root: Root, t: Node) {
    Explores(RootGraph(g, thunks, root.blocksCapabilityIndex), {root.path}, {""}, t)
  }

  method CollectReachable(edges: seq<ImportEdge>) returns (reachable: Digraph)
    ensures reachable == RuntimeGraph(edges)
  {
    reachable := map[];
    for i := 0 to |edges|
      invariant reachable == RuntimeGraph(edges[..i])
    {
      var edge := edges[i];
      assert edges[..i + 1] == edges[..i] + [edge];
      AddEdge(edges[..i], edge);
      if !Followed(edge) { continue; }
      var targets := if edge.path in reachable then reachable[edge.path] else {};
      reachable := reachable[edge.path := targets + {edge.target}];
    }
    assert edges[..|edges|] == edges;
  }

  lemma AddEdge(edges: seq<ImportEdge>, e: ImportEdge)
    ensures
      var g := RuntimeGraph(edges);
      RuntimeGraph(edges + [e]) ==
        if Followed(e) then g[e.path := (if e.path in g then g[e.path] else {}) + {e.target}] else g
  {
    forall f ensures f in edges + [e] <==> f in edges || f == e { }
    var g := RuntimeGraph(edges);
    var h := RuntimeGraph(edges + [e]);
    var k := if Followed(e) then g[e.path := (if e.path in g then g[e.path] else {}) + {e.target}] else g;
    assert h.Keys == k.Keys;
    forall v | v in h ensures h[v] == k[v] { }
  }

  predicate IsEntry(path: Node) { path in {API_APP, API_ENTRY, IN_PROCESS_WORKER, BOSS_HANDLERS} }

  /** Where an entry stands: the api entries before the worker entries. */
  function Place(path: Node): nat {
    if path == API_APP then 0 else if path == API_ENTRY then 1 else if path == IN_PROCESS_WORKER then 2 else 3
  }

  function EntryRoot(path: Node): Root {
    if Place(path) < 2 then Root(path, Api, true) else Root(path, Worker, false)
  }

  /** Of the first `n` entries exactly those that exist, as roots, in their order. */
  ghost predicate ListsEntries(roots: seq<Root>, exists_: Node -> bool, n: nat) {
    && (forall r :: r in roots <==> IsEntry(r.path) && Place(r.path) < n && exists_(r.path) && r == EntryRoot(r.path))
    && (forall i, j :: 0 <= i < j < |roots| ==> Place(roots[i].path) < Place(roots[j].path))
  }

  /** Manifest roots first (never blocking), then the api entries (blocking), then the worker entries. */
  method CompositionRoots(manifest: seq<Root>, exists_: Node -> bool) returns (roots: seq<Root>)
    requires forall r :: r in manifest ==> !r.blocksCapabilityIndex
    ensures manifest <= roots && ListsEntries(roots[|manifest|..], exists_, 4)
    ensures OpenRootsFirst(roots)
  {
    hide ListsEntries, OpenRootsFirst, EntryAt;
    EntriesInPlace();
    roots := manifest;
    NoEntries(manifest, exists_);
    NextEntry(manifest, roots, exists_, API_APP, 0);
    if exists_(API_APP) { roots := roots + [Root(API_APP, Api, true)]; }
    NextEntry(manifest, roots, exists_, API_ENTRY, 1);
    if exists_(API_ENTRY) { roots := roots + [Root(API_ENTRY, Api, true)]; }
    NextEntry(manifest, roots, exists_, IN_PROCESS_WORKER, 2);
    if exists_(IN_PROCESS_WORKER) { roots := roots + [Root(IN_PROCESS_WORKER, Worker, false)]; }
    NextEntry(manifest, roots, exists_, BOSS_HANDLERS, 3);
    if exists_(BOSS_HANDLERS) { roots := roots + [Root(BOSS_HANDLERS, Worker, false)]; }
    OpenFirst(manifest, roots, exists_);
  }

  lemma NoEntries(manifest: seq<Root>, exists_: Node -> bool)
    ensures ListsEntries(manifest[|manifest|..], exists_, 0)
  {
  }

  ghost predicate EntryAt(path: Node, n: nat) {
    IsEntry(path) && Place(path) == n && forall p :: IsEntry(p) && Place(p) == n ==> p == path
  }

  lemma EntriesInPlace()
    ensures EntryAt(API_APP, 0) && EntryAt(API_ENTRY, 1) && EntryAt(IN_PROCESS_WORKER, 2) && EntryAt(BOSS_HANDLERS, 3)
  {
    assert |API_APP| == 13 && |API_ENTRY| == 15 && |IN_PROCESS_WORKER| == 31 && |BOSS_HANDLERS| == 27;
  }

  lemma NextEntry(manifest: seq<Root>, roots: seq<Root>, exists_: Node -> bool, path: Node, n: nat)
    requires EntryAt(path, n)
    requires manifest <= roots && ListsEntries(roots[|manifest|..], exists_, n)
    ensures
      var next := if exists_(path) then roots + [Root(path, if n < 2 then Api else Worker, n < 2)] else roots;
      manifest <= next && ListsEntries(next[|manifest|..], exists_, n + 1)
  {
    hide IsEntry, Place;
    var entries := roots[|manifest|..];
    assert (roots + [EntryRoot(path)])[|manifest|..] == entries + [EntryRoot(path)];
    forall r ensures r in entries + [EntryRoot(path)] <==> r in entries || r == EntryRoot(path) { }
  }

  lemma OpenFirst(manifest: seq<Root>, roots: seq<Root>, exists_: Node -> bool)
    requires forall r :: r in manifest ==> !r.blocksCapabilityIndex
    requires manifest <= roots && ListsEntries(roots[|manifest|..], exists_, 4)
    ensures OpenRootsFirst(roots)
  {
    hide IsEntry, Place;
    forall i, j | 0 <= i < j < |roots| && roots[i].role == roots[j].role && roots[i].blocksCapabilityIndex
      ensures roots[j].blocksCapabilityIndex
    {
      assert i >= |manifest| && roots[i] in roots[|manifest|..] && roots[j] in roots[|manifest|..];
    }
  }

  /** Within a role, no blocking root comes before an open one. */
  predicate OpenRootsFirst(roots: seq<Root>) {
    forall i, j :: 0 <= i < j < |roots| && roots[i].role == roots[j].role && roots[i].blocksCapabilityIndex
      ==> roots[j].blocksCapabilityIndex
  }

  // ---- One traversal with a visited set shared per role --------------------------------------

  /** Nodes marked for `role` once `roots` have been processed in order. */
  ghost function Marked(g: Digraph, thunks: set<Arc>, roots: seq<Root>, role: Role): set<Node> {
    if roots == [] then {}
    else
      var root := roots[|roots| - 1];
      var before := Marked(g, thunks, roots[..|roots| - 1], role);
      if root.role == role then before + Fresh(g, thunks, root, before) else before
  }

  /** What one root adds: everything it reaches without passing through an already marked node. */
  ghost function Fresh(g: Digraph, thunks: set<Arc>, root: Root, marked: set<Node>): set<Node> {
    set t | t in Universe(g, {root.path}) &&
      Explores(RootGraph(g, thunks, root.blocksCapabilityIndex), {root.path}, marked + {""}, t)
  }

  function ForRole(visited: set<(Role, Node)>, role: Role): set<Node> {
    set v | v in visited && v.0 == role :: v.1
  }

  method RuntimeCompositionPaths(edges: seq<ImportEdge>, thunks: set<Arc>, roots: seq<Root>)
    returns (paths: set<Node>)
    ensures forall t :: t in paths <==> exists role :: t in Marked(RuntimeGraph(edges), thunks, roots, role)
  {
    var reachable := CollectReachable(edges);
    paths := {};
    var visited: set<(Role, Node)> := {};
    assert roots[..0] == [];
    for i := 0 to |roots|
      invariant forall role :: ForRole(visited, role) == Marked(reachable, thunks, roots[..i], role)
      invariant forall t :: t in paths <==> exists role :: t in ForRole(visited, role)
    {
      ghost var before := visited;
      ghost var pathsBefore := paths;
      assert roots[..i + 1][..i] == roots[..i];
      visited, paths := TraverseRoot(reachable, thunks, roots[i], visited, paths);
      AddedForRole(before, visited, roots[i].role, Fresh(reachable, thunks, roots[i], ForRole(before, roots[i].role)));
      forall t ensures t in paths <==> exists role :: t in ForRole(visited, role) {
        assert t in pathsBefore <==> exists role :: t in ForRole(before, role);
      }
    }
    assert roots[..|roots|] == roots;
  }

  lemma AddedForRole(before: set<(Role, Node)>, after: set<(Role, Node)>, role: Role, added: set<Node>)
    requires after == before + set t | t in added :: (role, t)
    ensures forall r :: ForRole(after, r) == if r == role then ForRole(before, r) + added else ForRole(before, r)
  {
    forall r ensures ForRole(after, r) == if r == role then ForRole(before, r) + added else ForRole(before, r) {
      forall t ensures t in ForRole(after, r) <==> t in ForRole(before, r) || (r == role && t in added) {
        assert t in ForRole(after, r) <==> (r, t) in after;
        assert t in ForRole(before, r) <==> (r, t) in before;
      }
    }
  }

  /** One root of the shared traversal: depth first, skipping nodes its role has already visited. */
  method TraverseRoot(reachable: Digraph, thunks: set<Arc>, root: Root, visited0: set<(Role, Node)>, paths0: set<Node>)
    returns (visited: set<(Role, Node)>, paths: set<Node>)
    ensures
      var added := Fresh(reachable, thunks, root, ForRole(visited0, root.role));
      visited == visited0 + (set t | t in added :: (root.role, t)) && paths == paths0 + added
  {
    hide Explores, Searching, RootGraph, ForRole, Fresh, Universe;
    ghost var g := RootGraph(reachable, thunks, root.blocksCapabilityIndex);
    ghost var avoid := ForRole(visited0, root.role) + {""};
    ghost var added := {};
    ghost var universe := Universe(reachable, {root.path});
    var queue := [root.path];
    visited, paths := visited0, paths0;
    UniverseHolds(reachable, {root.path});
    SearchStarts(g, {root.path}, avoid, queue);
    while |queue| > 0
      invariant Searching(g, {root.path}, avoid, added, queue)
      invariant added <= universe && forall q :: q in queue ==> q in universe
      invariant visited == visited0 + (set t | t in added :: (root.role, t)) && paths == paths0 + added
      decreases universe - added, |queue|
    {
      ghost var was := queue;
      var current := queue[|queue| - 1];
      queue := queue[..|queue| - 1];
      ghost var rest := queue;
      assert was == rest + [current];
      VisitedMeans(visited0, visited, root.role, added, current);
      if current == "" || (root.role, current) in visited {
        SearchStep(g, {root.path}, avoid, added, was, current, rest, queue);
        assert current in added ==> added + {current} == added;
        continue;
      }
      visited := visited + {(root.role, current)};
      paths := paths + {current};
      queue := PushSuccessors(reachable, thunks, root.blocksCapabilityIndex, current, queue);
      SearchStep(g, {root.path}, avoid, added, was, current, rest, queue);
      added := added + {current};
    }
    AddedIsFresh(reachable, thunks, root, ForRole(visited0, root.role), added);
  }

  lemma AddedIsFresh(reachable: Digraph, thunks: set<Arc>, root: Root, marked: set<Node>, added: set<Node>)
    requires
      Searching(RootGraph(reachable, thunks, root.blocksCapabilityIndex), {root.path}, marked + {""}, added, [])
    requires added <= Universe(reachable, {root.path})
    ensures added == Fresh(reachable, thunks, root, marked)
  {
    SearchDone(RootGraph(reachable, thunks, root.blocksCapabilityIndex), {root.path}, marked + {""}, added);
  }

  lemma VisitedMeans(visited0: set<(Role, Node)>, visited: set<(Role, Node)>, role: Role, added: set<Node>, t: Node)
    requires visited == visited0 + set t | t in added :: (role, t)
    ensures (role, t) in visited <==> t in ForRole(visited0, role) || t in added
  {
    assert t in ForRole(visited0, role) <==> (role, t) in visited0;
  }

  /** Queues the successors of `current` that the root may follow. */
  method PushSuccessors(reachable: Digraph, thunks: set<Arc>, blocks: bool, current: Node, queue0: seq<Node>)
    returns (queue: seq<Node>)
    ensures
      var g := RootGraph(reachable, thunks, blocks);
      forall q :: q in queue <==> q in queue0 || (current in g && q in g[current])
    ensures queue0 <= queue
    ensures forall q :: q in queue ==> q in queue0 || q in Universe(reachable, {})
  {
    ghost var g := RootGraph(reachable, thunks, blocks);
    queue := queue0;
    var todo := if current in reachable then reachable[current] else {};
    ghost var all := todo;
    while todo != {}
      invariant todo <= all
      invariant queue0 <= queue
      invariant forall q :: q in queue <==> q in queue0 || (q in all - todo && current in g && q in g[current])
      decreases todo
    {
      var next :| next in todo;
      todo := todo - {next};
      if blocks && next == CAPABILITY_INDEX { continue; }
      if Arc(current, next) in thunks { continue; }
      queue := queue + [next];
    }
  }

  // ---- One traversal per root, stopping at the target --------------------------------------------

  method RuntimeRolesForTarget(edges: seq<ImportEdge>, thunks: set<Arc>, roots: seq<Root>, target: Node)
    returns (roles: set<Role>)
    ensures forall role :: role in roles <==>
      exists i :: 0 <= i < |roots| && roots[i].role == role && RootReaches(RuntimeGraph(edges), thunks, roots[i], target)
  {
    hide RootReaches;
    var reachable := CollectReachable(edges);
    roles := {};
    for i := 0 to |roots|
      invariant forall role :: role in roles <==>
        exists j :: 0 <= j < i && roots[j].role == role && RootReaches(reachable, thunks, roots[j], target)
    {
      var found := SearchRoot(reachable, thunks, roots[i], target);
      if found { roles := roles + {roots[i].role}; }
    }
  }

  /** Breadth first from one root, giving up the search as soon as the target comes off the queue. */
  method SearchRoot(reachable: Digraph, thunks: set<Arc>, root: Root, target: Node) returns (found: bool)
    ensures found <==> RootReaches(reachable, thunks, root, target)
  {
    ghost var g := RootGraph(reachable, thunks, root.blocksCapabilityIndex);
    ghost var universe := Universe(reachable, {root.path});
    var queue := [root.path];
    var visited: set<Node> := {};
    SearchStarts(g, {root.path}, {""}, queue);
    while |queue| > 0
      invariant Searching(g, {root.path}, {""}, visited, queue)
      invariant visited <= universe && forall q :: q in queue ==> q in universe
      invariant target !in visited
      decreases universe - visited, |queue|
    {
      ghost var was := queue;
      var current := queue[0];
      queue := queue[1..];
      ghost var rest := queue;
      assert was == [current] + rest;
      if current == "" || current in visited {
        SearchStep(g, {root.path}, {""}, visited, was, current, rest, queue);
        assert current in visited ==> visited + {current} == visited;
        continue;
      }
      if current == target { return true; }
      queue := PushSuccessors(reachable, thunks, root.blocksCapabilityIndex, current, queue);
      SearchStep(g, {root.path}, {""}, visited, was, current, rest, queue);
      visited := visited + {current};
    }
    SearchDone(g, {root.path}, {""}, visited);
    return false;
  }

  // ---- What a role's roots reach, said of the imports ---------------------------------------------

  /** An import that a root follows: resolved, not for types only, no worker-start thunk, and not blocked. */
  ghost predicate FollowedFrom(edges: seq<ImportEdge>, thunks: set<Arc>, blocks: bool, v: Node, w: Node) {
    && (exists e :: e in edges && e.path == v && e.target == w && (e.kind == StaticImport || e.kind == RuntimeImport))
    && v != "" && w != "" && Arc(v, w) !in thunks && !(blocks && w == "src/capabilities/index.ts")
  }

  ghost function Imports(edges: seq<ImportEdge>, thunks: set<Arc>, blocks: bool): (Node, Node) -> bool {
    (v, w) => FollowedFrom(edges, thunks, blocks, v, w)
  }

  /** A root reaches a path exactly when a chain of imports that it follows leads there. */
  lemma RootReachesIffChain(edges: seq<ImportEdge>, thunks: set<Arc>, root: Root, t: Node)
    ensures RootReaches(RuntimeGraph(edges), thunks, root, t) <==>
      root.path != "" && exists p :: Chain(Imports(edges, thunks, root.blocksCapabilityIndex), p, root.path, t)
  {
    var step := Imports(edges, thunks, root.blocksCapabilityIndex);
    var g := Avoiding(RootGraph(RuntimeGraph(edges), thunks, root.blocksCapabilityIndex), {""});
    forall v, w ensures step(v, w) <==> v in g && w in g[v] {
      ImportsAre(edges, v, w);
    }
    hide FollowedFrom;
    ReachIffChain(g, step, root.path, t);
  }

  /** The arcs of the import graph. */
  lemma ImportsAre(edges: seq<ImportEdge>, v: Node, w: Node)
    ensures v in RuntimeGraph(edges) && w in RuntimeGraph(edges)[v] <==>
      w != "" && exists e :: e in edges && e.path == v && e.target == w && (e.kind == StaticImport || e.kind == RuntimeImport)
  {
    if e :| e in edges && e.path == v && e.target == w && (e.kind == StaticImport || e.kind == RuntimeImport) {
      assert w != "" ==> Followed(e);
    }
  }

  // ---- The two traversals agree -----------------------------------------------------------------

  ghost predicate RoleReaches(g: Digraph, thunks: set<Arc>, roots: seq<Root>, role: Role, t: Node) {
    exists i :: 0 <= i < |roots| && roots[i].role == role && RootReaches(g, thunks, roots[i], t)
  }

  lemma AvoidMore(g: Digraph, starts: set<Node>, small: set<Node>, large: set<Node>, t: Node)
    requires small <= large && Explores(g, starts, large, t)
    ensures Explores(g, starts, small, t)
  {
    hide Reach;
    var a :| a in starts && a !in large && Reach(Avoiding(g, large), a, t);
    ReachMono(Avoiding(g, large), Avoiding(g, small), a, t);
  }

  /** Sharing marks never invents a path: every mark is reached by some root of its role. */
  lemma {:induction false} MarkedIsReached(g: Digraph, thunks: set<Arc>, roots: seq<Root>, role: Role, t: Node)
    requires t in Marked(g, thunks, roots, role)
    ensures RoleReaches(g, thunks, roots, role, t)
    decreases |roots|
  {
    hide Explores;
    var root := roots[|roots| - 1];
    var earlier := roots[..|roots| - 1];
    if t in Marked(g, thunks, earlier, role) {
      MarkedIsReached(g, thunks, earlier, role, t);
      var i :| 0 <= i < |earlier| && earlier[i].role == role && RootReaches(g, thunks, earlier[i], t);
      assert roots[i] == earlier[i];
    } else {
      AvoidMore(RootGraph(g, thunks, root.blocksCapabilityIndex), {root.path}, {""},
                Marked(g, thunks, earlier, role) + {""}, t);
      assert RootReaches(g, thunks, roots[|roots| - 1], t);
    }
  }

  /** A walk from `a` either stays clear of `marked` or ends inside it, when `marked` is closed. */
  lemma {:induction false} ClearOrInside(g: Digraph, avoid: set<Node>, marked: set<Node>, a: Node, p: seq<Node>, t: Node)
    requires Walk(Avoiding(g, avoid), a, p, t) && a !in avoid
    requires forall v :: v in marked && v in g && v !in avoid ==> g[v] - avoid <= marked
    ensures t in marked || (a !in marked && Reach(Avoiding(g, marked + avoid), a, t))
    decreases |p|
  {
    var h := Avoiding(g, marked + avoid);
    if a in marked {
      WalkStaysInside(Avoiding(g, avoid), marked, a, p, t);
    } else if p == [] {
      ReachSelf(h, a);
    } else {
      ClearOrInside(g, avoid, marked, p[0], p[1..], t);
      if t !in marked {
        ReachEdge(h, a, p[0]);
        ReachTrans(h, a, p[0], t);
      }
    }
  }

  /** What is reached under some edge filter is closed under every stricter one. */
  lemma ReachedIsClosed(g: Digraph, starts: set<Node>, avoid: set<Node>, v: Node, w: Node)
    requires Explores(g, starts, avoid, v) && v in g && w in g[v] && w !in avoid && v !in avoid
    ensures Explores(g, starts, avoid, w)
  {
    hide Reach;
    var a :| a in starts && a !in avoid && Reach(Avoiding(g, avoid), a, v);
    ReachEdge(Avoiding(g, avoid), v, w);
    ReachTrans(Avoiding(g, avoid), a, v, w);
  }

  /** With open roots first, sharing marks loses nothing either. */
  lemma {:induction false} ReachedIsMarked(g: Digraph, thunks: set<Arc>, roots: seq<Root>, role: Role, t: Node)
    requires OpenRootsFirst(roots) && RoleReaches(g, thunks, roots, role, t)
    ensures t in Marked(g, thunks, roots, role)
    decreases |roots|
  {
    hide Explores, Reach;
    var last := |roots| - 1;
    var root := roots[last];
    var earlier := roots[..last];
    var i :| 0 <= i <= last && roots[i].role == role && RootReaches(g, thunks, roots[i], t);
    if i < last {
      assert earlier[i] == roots[i];
      ReachedIsMarked(g, thunks, earlier, role, t);
    } else {
      var marked := Marked(g, thunks, earlier, role);
      var h := RootGraph(g, thunks, root.blocksCapabilityIndex);
      forall v, w | v in marked && v in h && v != "" && w in h[v] && w != "" ensures w in marked {
        MarksAreClosed(g, thunks, roots, role, v, w);
      }
      LastRootMarks(h, root.path, marked, t);
      if t !in marked {
        ExploredInUniverse(h, {root.path}, marked + {""});
        assert Universe(h, {root.path}) <= Universe(g, {root.path});
        assert t in Fresh(g, thunks, root, marked);
      }
    }
  }

  lemma LastRootMarks(h: Digraph, start: Node, marked: set<Node>, t: Node)
    requires Explores(h, {start}, {""}, t)
    requires forall v, w :: v in marked && v in h && v != "" && w in h[v] && w != "" ==> w in marked
    ensures t in marked || Explores(h, {start}, marked + {""}, t)
  {
    var a :| a in {start} && a !in {""} && Reach(Avoiding(h, {""}), a, t);
    var p :| Walk(Avoiding(h, {""}), a, p, t);
    ClearOrInside(h, {""}, marked, a, p, t);
  }

  /** Earlier roots of the role have at least the edges of the last one, so their marks are closed under its edges. */
  lemma MarksAreClosed(g: Digraph, thunks: set<Arc>, roots: seq<Root>, role: Role, v: Node, w: Node)
    requires OpenRootsFirst(roots) && roots != [] && roots[|roots| - 1].role == role
    requires
      var root := roots[|roots| - 1];
      var h := RootGraph(g, thunks, root.blocksCapabilityIndex);
      v in Marked(g, thunks, roots[..|roots| - 1], role) && v in h && v != "" && w in h[v] && w != ""
    ensures w in Marked(g, thunks, roots[..|roots| - 1], role)
    decreases |roots|, 0
  {
    hide Explores, Reach;
    var earlier := roots[..|roots| - 1];
    MarkedIsReached(g, thunks, earlier, role, v);
    var i :| 0 <= i < |earlier| && earlier[i].role == role && RootReaches(g, thunks, earlier[i], v);
    assert earlier[i] == roots[i];
    ReachedIsClosed(RootGraph(g, thunks, earlier[i].blocksCapabilityIndex), {earlier[i].path}, {""}, v, w);
    ReachedIsMarked(g, thunks, earlier, role, w);
  }

  /**
   * A path is in the shared composition set exactly when some role's per-root search finds it.
   * `paths` and `roles` are the outputs of the two traversals.
   */
  lemma CompositionPathsHaveRoles(
    edges: seq<ImportEdge>, thunks: set<Arc>, roots: seq<Root>, target: Node, paths: set<Node>, roles: set<Role>)
    requires OpenRootsFirst(roots)
    requires forall t :: t in paths <==> exists role :: t in Marked(RuntimeGraph(edges), thunks, roots, role)
    requires forall role :: role in roles <==> RoleReaches(RuntimeGraph(edges), thunks, roots, role, target)
    ensures target in paths <==> roles != {}
  {
    var g := RuntimeGraph(edges);
    if target in paths {
      var role :| target in Marked(g, thunks, roots, role);
      MarkedIsReached(g, thunks, roots, role, target);
      assert role in roles;
    }
    if role :| role in roles {
      ReachedIsMarked(g, thunks, roots, role, target);
    }
  }

  /** The order matters: a blocking root processed first hides the capability index from a later open root. */
  lemma BlockingRootFirstLosesAPath()
    ensures
      var g: Digraph := map["a" := {"x"}, "b" := {"x"}, "x" := {CAPABILITY_INDEX}];
      var roots := [Root("a", Api, true), Root("b", Api, false)];
      && RoleReaches(g, {}, roots, Api, CAPABILITY_INDEX)
      && forall role :: CAPABILITY_INDEX !in Marked(g, {}, roots, role)
  {
    var g: Digraph := map["a" := {"x"}, "b" := {"x"}, "x" := {CAPABILITY_INDEX}];
    var roots := [Root("a", Api, true), Root("b", Api, false)];
    assert RootReaches(g, {}, roots[1], CAPABILITY_INDEX) by {
      var h := Avoiding(RootGraph(g, {}, false), {""});
      ReachEdge(h, "b", "x");
      ReachEdge(h, "x", CAPABILITY_INDEX);
      ReachTrans(h, "b", "x", CAPABILITY_INDEX);
    }
    BlockedMarks(g, roots);
  }

  lemma BlockedMarks(g: Digraph, roots: seq<Root>)
    requires g == map["a" := {"x"}, "b" := {"x"}, "x" := {CAPABILITY_INDEX}]
    requires roots == [Root("a", Api, true), Root("b", Api, false)]
    ensures forall role :: CAPABILITY_INDEX !in Marked(g, {}, roots, role)
  {
    hide Reach;
    var first := roots[..1];
    assert first == [roots[0]] && first[..0] == [] && roots[..1] == first;
    var closed := Avoiding(RootGraph(g, {}, true), {""});
    assert "x" in Marked(g, {}, first, Api) by {
      assert Marked(g, {}, first[..0], Api) + {""} == {""};
      ReachEdge(closed, "a", "x");
      assert Explores(RootGraph(g, {}, true), {"a"}, {""}, "x");
    }
    assert CAPABILITY_INDEX !in Marked(g, {}, first, Api) by {
      assert Marked(g, {}, first[..0], Api) + {""} == {""};
      if Reach(closed, "a", CAPABILITY_INDEX) {
        ReachStaysInside(closed, {"a", "x"}, "a", CAPABILITY_INDEX);
      }
    }
    var marked := Marked(g, {}, first, Api);
    if CAPABILITY_INDEX in Fresh(g, {}, roots[1], marked) {
      var h := Avoiding(RootGraph(g, {}, false), marked + {""});
      assert Reach(h, "b", CAPABILITY_INDEX);
      ReachStaysInside(h, {"b"}, "b", CAPABILITY_INDEX);
      assert false;
    }
    assert Marked(g, {}, first[..0], Worker) == {} && Marked(g, {}, first, Worker) == {};
  }

  // ---- Source closure ---------------------------------------------------------------------------

  /** The imports read from each source file that exists; user-interface targets are not followed. */
  function ClosureGraph(scans: map<Node, seq<ImportEdge>>, isUi: Node -> bool): Digraph {
    map v | v in scans :: set e | e in scans[v] && Followed(e) && !isUi(e.target) :: e.target
  }

  /** Depth first over everything the roots import at run time; reading a missing file fails. */
  method RuntimeSourceClosure(scans: map<Node, seq<ImportEdge>>, isUi: Node -> bool, roots: seq<Node>)
    returns (ok: bool, visited: set<Node>)
    ensures
      var g := ClosureGraph(scans, isUi);
      var starts := set r | r in roots;
      && (ok <==> forall t :: Explores(g, starts, {""}, t) ==> t in scans)
      && (ok ==> forall t :: t in visited <==> Explores(g, starts, {""}, t))
  {
    hide Explores;
    ghost var g := ClosureGraph(scans, isUi);
    ghost var starts := set r | r in roots;
    ghost var universe := Universe(g, starts);
    var pending := roots;
    visited := {};
    SearchStarts(g, starts, {""}, pending);
    while |pending| > 0
      invariant Searching(g, starts, {""}, visited, pending)
      invariant visited <= universe && visited <= scans.Keys && forall q :: q in pending ==> q in universe
      decreases universe - visited, |pending|
    {
      ghost var was := pending;
      var path := pending[|pending| - 1];
      pending := pending[..|pending| - 1];
      ghost var rest := pending;
      assert was == rest + [path];
      if path == "" || path in visited {
        SearchStep(g, starts, {""}, visited, was, path, rest, pending);
        assert path in visited ==> visited + {path} == visited;
        continue;
      }
      if path !in scans { return false, visited; }
      var edges := scans[path];
      for i := 0 to |edges|
        invariant rest <= pending
        invariant forall q :: q in pending <==>
          q in rest || exists j :: 0 <= j < i && Followed(edges[j]) && !isUi(edges[j].target) && edges[j].target == q
      {
        if Followed(edges[i]) && !isUi(edges[i].target) {
          pending := pending + [edges[i].target];
        }
      }
      forall q ensures q in pending <==> q in rest || q in g[path] {
        if q in g[path] {
          var e :| e in edges && Followed(e) && !isUi(e.target) && e.target == q;
          var j :| 0 <= j < |edges| && edges[j] == e;
        }
      }
      SearchStep(g, starts, {""}, visited, was, path, rest, pending);
      visited := visited + {path};
    }
    SearchDone(g, starts, {""}, visited);
    ok := true;
  }

  /** An import of a source file that the closure follows. */
  ghost predicate ClosureStep(scans: map<Node, seq<ImportEdge>>, isUi: Node -> bool, v: Node, w: Node) {
    && v != "" && w != "" && !isUi(w) && v in scans
    && exists e :: e in scans[v] && e.target == w && (e.kind == StaticImport || e.kind == RuntimeImport)
  }

  ghost function ClosureImports(scans: map<Node, seq<ImportEdge>>, isUi: Node -> bool): (Node, Node) -> bool {
    (v, w) => ClosureStep(scans, isUi, v, w)
  }

  /** The closure holds exactly the files that a chain of followed imports leads to from a named root. */
  lemma ClosureIffChain(scans: map<Node, seq<ImportEdge>>, isUi: Node -> bool, roots: seq<Node>, t: Node)
    ensures Explores(ClosureGraph(scans, isUi), set r | r in roots, {""}, t) <==>
      exists r, p :: r in roots && r != "" && Chain(ClosureImports(scans, isUi), p, r, t)
  {
    var step := ClosureImports(scans, isUi);
    var g := Avoiding(ClosureGraph(scans, isUi), {""});
    forall v, w ensures step(v, w) <==> v in g && w in g[v] {
      if ClosureStep(scans, isUi, v, w) {
        var e :| e in scans[v] && e.target == w && (e.kind == StaticImport || e.kind == RuntimeImport);
        assert Followed(e);
      }
    }
    hide ClosureStep, Reach, Chain, ClosureImports;
    forall r ensures Reach(g, r, t) <==> exists p :: Chain(step, p, r, t) {
      ReachIffChain(g, step, r, t);
    }
    var starts := set r | r in roots;
    if r, p :| r in roots && r != "" && Chain(step, p, r, t) {
      assert r in starts && r !in {""} && Reach(g, r, t);
    }
  }
}
