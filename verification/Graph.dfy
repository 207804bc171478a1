/** Finite directed graphs over module names, and reachability in them. */
module Graph {
  type Node = string

  /** Successor sets. A graph is closed when every successor is itself a key. */
  type Digraph = map<Node, set<Node>>

  predicate Closed(g: Digraph) {
    forall v :: v in g ==> g[v] <= g.Keys
  }

  /** `p` lists, in order, the nodes visited after `a` on a walk that ends in `b`. */
  ghost predicate Walk(g: Digraph, a: Node, p: seq<Node>, b: Node)
    decreases |p|
  {
    if p == [] then a == b else a in g && p[0] in g[a] && Walk(g, p[0], p[1..], b)
  }

  /** `b` can be reached from `a` in zero or more edges. */
  ghost predicate Reach(g: Digraph, a: Node, b: Node) {
    exists p :: Walk(g, a, p, b)
  }

  ghost predicate Mutual(g: Digraph, a: Node, b: Node) {
    Reach(g, a, b) && Reach(g, b, a)
  }

  /** The strongly connected component of `v`. */
  ghost function Scc(g: Digraph, v: Node): set<Node> {
    set w | w in g && Mutual(g, v, w)
  }

  /** A strongly connected component with more than one member. */
  ghost predicate NontrivialScc(g: Digraph, c: set<Node>) {
    |c| > 1 && exists v :: v in g && c == Scc(g, v)
  }

  /** A list of all nontrivial components: each once, pairwise disjoint, nothing else. */
  ghost predicate ListsNontrivialSccs(g: Digraph, components: seq<set<Node>>) {
    && (forall c :: c in components <==> NontrivialScc(g, c))
    && (forall i, j :: 0 <= i < j < |components| ==> components[i] !! components[j])
  }

  datatype Arc = Arc(from: Node, to: Node)

  function Endpoints(arcs: set<Arc>): set<Node> {
    (set a | a in arcs :: a.from) + (set a | a in arcs :: a.to)
  }

  /** The graph whose nodes are the endpoints of `arcs`. */
  function Induced(arcs: set<Arc>): Digraph {
    map v | v in Endpoints(arcs) :: set w | w in Endpoints(arcs) && Arc(v, w) in arcs
  }

  /** Arcs with an empty endpoint name are ignored by the graph builders. */
  function Named(arcs: seq<Arc>): set<Arc> {
    set a | a in arcs && a.from != "" && a.to != ""
  }

  lemma ReachSelf(g: Digraph, a: Node)
    ensures Reach(g, a, a)
  {
    assert Walk(g, a, [], a);
  }

  lemma ReachEdge(g: Digraph, a: Node, b: Node)
    requires a in g && b in g[a]
    ensures Reach(g, a, b)
  {
    assert Walk(g, b, [b][1..], b);
    assert Walk(g, a, [b], b);
  }

  lemma {:induction false} WalkConcat(g: Digraph, a: Node, p: seq<Node>, b: Node, q: seq<Node>, c: Node)
    requires Walk(g, a, p, b) && Walk(g, b, q, c)
    ensures Walk(g, a, p + q, c)
    decreases |p|
  {
    if p == [] {
      assert p + q == q;
    } else {
      WalkConcat(g, p[0], p[1..], b, q, c);
      assert (p + q)[1..] == p[1..] + q;
    }
  }

  lemma ReachTrans(g: Digraph, a: Node, b: Node, c: Node)
    requires Reach(g, a, b) && Reach(g, b, c)
    ensures Reach(g, a, c)
  {
    var p :| Walk(g, a, p, b);
    var q :| Walk(g, b, q, c);
    WalkConcat(g, a, p, b, q, c);
  }

  /** A set closed under successors contains everything reachable from it. */
  lemma ReachStaysInside(g: Digraph, s: set<Node>, a: Node, b: Node)
    requires forall v :: v in s && v in g ==> g[v] <= s
    requires a in s && Reach(g, a, b)
    ensures b in s
  {
    var p :| Walk(g, a, p, b);
    WalkStaysInside(g, s, a, p, b);
  }

  lemma {:induction false} WalkStaysInside(g: Digraph, s: set<Node>, a: Node, p: seq<Node>, b: Node)
    requires forall v :: v in s && v in g ==> g[v] <= s
    requires a in s && Walk(g, a, p, b)
    ensures b in s
    decreases |p|
  {
    if p != [] {
      WalkStaysInside(g, s, p[0], p[1..], b);
    }
  }

  /** Reachability only grows when edges are added. */
  lemma ReachMono(g: Digraph, h: Digraph, a: Node, b: Node)
    requires forall v :: v in g ==> v in h && g[v] <= h[v]
    requires Reach(g, a, b)
    ensures Reach(h, a, b)
  {
    var p :| Walk(g, a, p, b);
    WalkMono(g, h, a, p, b);
  }

  lemma {:induction false} WalkMono(g: Digraph, h: Digraph, a: Node, p: seq<Node>, b: Node)
    requires forall v :: v in g ==> v in h && g[v] <= h[v]
    requires Walk(g, a, p, b)
    ensures Walk(h, a, p, b)
    decreases |p|
  {
    if p != [] {
      WalkMono(g, h, p[0], p[1..], b);
    }
  }

  /** `p` goes from `a` to `b` in single steps. */
  ghost predicate Chain(step: (Node, Node) -> bool, p: seq<Node>, a: Node, b: Node) {
    && p != [] && p[0] == a && p[|p| - 1] == b
    && forall k :: 0 < k < |p| ==> step(p[k - 1], p[k])
  }

  lemma {:induction false} WalkIffChain(g: Digraph, step: (Node, Node) -> bool, a: Node, p: seq<Node>, b: Node)
    requires forall v, w :: step(v, w) <==> v in g && w in g[v]
    ensures Walk(g, a, p, b) <==> Chain(step, [a] + p, a, b)
    decreases |p|
  {
    if p != [] {
      WalkIffChain(g, step, p[0], p[1..], b);
      var whole, tail := [a] + p, [p[0]] + p[1..];
      assert tail == p;
      if Chain(step, tail, p[0], b) && step(a, p[0]) {
        forall k | 0 < k < |whole| ensures step(whole[k - 1], whole[k]) {
          if k > 1 { assert step(tail[k - 2], tail[k - 1]); }
        }
      }
      if Chain(step, whole, a, b) {
        assert step(whole[0], whole[1]);
        forall k | 0 < k < |tail| ensures step(tail[k - 1], tail[k]) {
          assert step(whole[k], whole[k + 1]);
        }
      }
    }
  }

  /** Reachability is a chain of edges, whatever decides what an edge is. */
  lemma ReachIffChain(g: Digraph, step: (Node, Node) -> bool, a: Node, b: Node)
    requires forall v, w :: step(v, w) <==> v in g && w in g[v]
    ensures Reach(g, a, b) <==> exists p :: Chain(step, p, a, b)
  {
    if Reach(g, a, b) {
      var p :| Walk(g, a, p, b);
      WalkIffChain(g, step, a, p, b);
    }
    if p :| Chain(step, p, a, b) {
      assert p == [a] + p[1..];
      WalkIffChain(g, step, a, p[1..], b);
    }
  }

  /** Mutual reachability is an equivalence, so components are equal or disjoint. */
  lemma SccsEqualOrDisjoint(g: Digraph, a: Node, b: Node)
    requires a in g && b in g
    ensures Scc(g, a) == Scc(g, b) || Scc(g, a) !! Scc(g, b)
    ensures b in Scc(g, a) ==> Scc(g, a) == Scc(g, b)
  {
    if w :| w in Scc(g, a) && w in Scc(g, b) {
      ReachTrans(g, a, w, b);
      ReachTrans(g, b, w, a);
      SccSubset(g, a, b);
      SccSubset(g, b, a);
    }
    ReachSelf(g, b);
  }

  lemma SccSubset(g: Digraph, a: Node, b: Node)
    requires Mutual(g, a, b)
    ensures Scc(g, b) <= Scc(g, a)
  {
    forall w | w in Scc(g, b) ensures w in Scc(g, a) {
      ReachTrans(g, a, b, w);
      ReachTrans(g, w, b, a);
    }
  }

  /** An arc of the list between two named nodes. */
  ghost function NamedArcs(arcs: seq<Arc>): (Node, Node) -> bool {
    (v, w) => v != "" && w != "" && Arc(v, w) in arcs
  }

  ghost predicate Together(components: seq<set<Node>>, a: Node, b: Node) {
    exists i :: 0 <= i < |components| && a in components[i] && b in components[i]
  }

  /** Two nodes share a nontrivial component exactly when edges lead from each of them to the other. */
  lemma TogetherIffChains(g: Digraph, step: (Node, Node) -> bool, components: seq<set<Node>>, a: Node, b: Node)
    requires Closed(g) && ListsNontrivialSccs(g, components) && a != b
    requires forall v, w :: step(v, w) <==> v in g && w in g[v]
    ensures Together(components, a, b) <==> (exists p :: Chain(step, p, a, b)) && (exists q :: Chain(step, q, b, a))
  {
    ReachIffChain(g, step, a, b);
    ReachIffChain(g, step, b, a);
    hide Reach, Chain;
    if i :| 0 <= i < |components| && a in components[i] && b in components[i] {
      assert components[i] in components;
      var v :| v in g && components[i] == Scc(g, v);
      ReachTrans(g, a, v, b);
      ReachTrans(g, b, v, a);
    }
    if Reach(g, a, b) && Reach(g, b, a) {
      SharedComponent(g, a, b);
      var i :| 0 <= i < |components| && components[i] == Scc(g, a);
    }
  }

  /** The same for a list of arcs. */
  lemma TogetherIffCycle(arcs: seq<Arc>, components: seq<set<Node>>, a: Node, b: Node)
    requires ListsNontrivialSccs(Induced(Named(arcs)), components) && a != b
    ensures Together(components, a, b) <==>
      (exists p :: Chain(NamedArcs(arcs), p, a, b)) && (exists q :: Chain(NamedArcs(arcs), q, b, a))
  {
    var g, step := Induced(Named(arcs)), NamedArcs(arcs);
    forall v, w ensures step(v, w) <==> v in g && w in g[v] {
      if step(v, w) { assert Arc(v, w) in Named(arcs); }
    }
    TogetherIffChains(g, step, components, a, b);
  }

  lemma SharedComponent(g: Digraph, a: Node, b: Node)
    requires a != b && Mutual(g, a, b)
    requires forall v :: v in g ==> g[v] <= g.Keys
    ensures NontrivialScc(g, Scc(g, a)) && a in Scc(g, a) && b in Scc(g, a)
  {
    var p :| Walk(g, a, p, b);
    var q :| Walk(g, b, q, a);
    assert a in g && b in g;
    ReachSelf(g, a);
    assert Scc(g, a) == {a, b} + (Scc(g, a) - {a, b});
  }
}
