/**
 * The depth-first component search used by both dependency audits: one index
 * counter, low links, an explicit node stack, and a recursive `Connect`.
 */
module SccSearch {
  import opened Graph

  // ---- The search state as a value -----------------------------------------

  ghost function SetOf(q: seq<Node>): set<Node> { set v | v in q }

  /** What the proofs talk about: visit numbers, low links, the node stack, reported components. */
  datatype State = State(
    indexes: map<Node, nat>, lows: map<Node, nat>, stack: seq<Node>, components: seq<set<Node>>) {
    ghost function OnStack(): set<Node> { SetOf(stack) }

    /** Visited nodes whose component is already decided. */
    ghost function Done(): set<Node> { indexes.Keys - OnStack() }
  }

  /** The stack is listed in visit order, and holds only visited nodes of the graph. */
  ghost predicate Shape(g: Digraph, s: State) {
    && Closed(g)
    && s.indexes.Keys <= g.Keys
    && s.lows.Keys == s.indexes.Keys
    && (forall i :: 0 <= i < |s.stack| ==> s.stack[i] in s.indexes)
    && (forall i, j :: 0 <= i < j < |s.stack| ==> s.indexes[s.stack[i]] < s.indexes[s.stack[j]])
  }

  /**
   * `gray` are the nodes whose Connect call is still running. Every other visited
   * node has only visited successors, the stack is a chain under reachability, and
   * each stack node leads back to a running one at or below it.
   */
  ghost predicate Coloured(g: Digraph, s: State, gray: set<Node>)
    requires Shape(g, s)
  {
    && gray <= s.OnStack()
    && (forall v :: v in s.indexes && v !in gray ==> g[v] <= s.indexes.Keys)
    && (forall i, j {:trigger Reach(g, s.stack[i], s.stack[j])} :: 0 <= i <= j < |s.stack| ==> Reach(g, s.stack[i], s.stack[j]))
    && (forall y {:trigger Rooted(g, s, gray, y)} :: y in s.OnStack() ==> Rooted(g, s, gray, y))
  }

  ghost predicate Rooted(g: Digraph, s: State, gray: set<Node>, y: Node) {
    exists x :: x in gray && x in s.indexes && y in s.indexes && s.indexes[x] <= s.indexes[y] && Reach(g, y, x)
  }

  /** Decided nodes are closed under edges and exactly their nontrivial components are reported, once. */
  ghost predicate Settled(g: Digraph, s: State)
    requires Shape(g, s)
  {
    && (forall v {:trigger Enclosed(g, s, v)} :: v in s.Done() ==> Enclosed(g, s, v))
    && (forall c {:trigger Justified(g, s, c)} :: c in s.components ==> Justified(g, s, c))
    && (forall v {:trigger Reported(g, s, v)} :: v in s.Done() ==> Reported(g, s, v))
    && (forall i, j :: 0 <= i < j < |s.components| ==> s.components[i] != s.components[j])
  }

  ghost predicate Enclosed(g: Digraph, s: State, v: Node) {
    v in g && g[v] <= s.Done()
  }

  ghost predicate Justified(g: Digraph, s: State, c: set<Node>) {
    NontrivialScc(g, c) && c <= s.Done()
  }

  ghost predicate Reported(g: Digraph, s: State, v: Node) {
    |Scc(g, v)| > 1 ==> Scc(g, v) in s.components
  }

  ghost predicate Inv(g: Digraph, s: State, gray: set<Node>) {
    Shape(g, s) && Coloured(g, s, gray) && Settled(g, s)
  }

  /** No edge leaves the stack segment from `base` on into the stack below `base` under index `low`. */
  ghost predicate NoEdgeBelow(g: Digraph, s: State, base: nat, from: nat, low: nat)
    requires Shape(g, s)
  {
    forall i, w :: base <= from <= i < |s.stack| && w in g[s.stack[i]] && w in s.stack[..base] ==> s.indexes[w] >= low
  }

  // ---- Steps of Connect, on values -----------------------------------------

  ghost function Push(s: State, node: Node, n: nat): State {
    s.(indexes := s.indexes[node := n], lows := s.lows[node := n], stack := s.stack + [node])
  }

  lemma PushKeepsInv(g: Digraph, s: State, gray: set<Node>, node: Node, n: nat)
    requires Inv(g, s, gray)
    requires node in g && node !in s.indexes
    requires forall v :: v in s.indexes ==> s.indexes[v] < n
    requires forall x :: x in gray ==> Reach(g, x, node)
    ensures Inv(g, Push(s, node, n), gray + {node})
  {
    hide Shape, Coloured, Settled, Reach, Push;
    PushShape(g, s, node, n);
    PushColoured(g, s, gray, node, n);
    DoneUnchanged(g, s, Push(s, node, n));
  }

  lemma PushShape(g: Digraph, s: State, node: Node, n: nat)
    requires Shape(g, s) && node in g && node !in s.indexes
    requires forall v :: v in s.indexes ==> s.indexes[v] < n
    ensures var t := Push(s, node, n);
      Shape(g, t) && t.OnStack() == s.OnStack() + {node} && t.Done() == s.Done() && t.components == s.components
  {
    var t := Push(s, node, n);
    assert t.OnStack() == s.OnStack() + {node};
    assert t.Done() == s.Done();
  }

  lemma PushColoured(g: Digraph, s: State, gray: set<Node>, node: Node, n: nat)
    requires Shape(g, s) && Coloured(g, s, gray) && node !in s.indexes
    requires forall x :: x in gray ==> Reach(g, x, node)
    requires Shape(g, Push(s, node, n)) && Push(s, node, n).OnStack() == s.OnStack() + {node}
    ensures Coloured(g, Push(s, node, n), gray + {node})
  {
    hide Reach, Rooted;
    var t := Push(s, node, n);
    forall i, j | 0 <= i <= j < |t.stack| ensures Reach(g, t.stack[i], t.stack[j]) {
      if j < |s.stack| {
        assert Reach(g, s.stack[i], s.stack[j]);
      } else if i < |s.stack| {
        LeadsToNew(g, s, gray, node, s.stack[i]);
      } else {
        ReachSelf(g, node);
      }
    }
    forall y | y in t.OnStack() ensures Rooted(g, t, gray + {node}, y) {
      PushRooted(g, s, gray, node, n, y);
    }
  }

  lemma LeadsToNew(g: Digraph, s: State, gray: set<Node>, node: Node, y: Node)
    requires Shape(g, s) && Coloured(g, s, gray)
    requires forall x :: x in gray ==> Reach(g, x, node)
    requires y in s.OnStack()
    ensures Reach(g, y, node)
  {
    hide Reach;
    assert Rooted(g, s, gray, y);
    var x :| x in gray && x in s.indexes && s.indexes[x] <= s.indexes[y] && Reach(g, y, x);
    ReachTrans(g, y, x, node);
  }

  lemma PushRooted(g: Digraph, s: State, gray: set<Node>, node: Node, n: nat, y: Node)
    requires Shape(g, s) && Coloured(g, s, gray) && node !in s.indexes
    requires y in Push(s, node, n).OnStack()
    ensures Rooted(g, Push(s, node, n), gray + {node}, y)
  {
    hide Reach;
    if y == node {
      ReachSelf(g, node);
    } else {
      assert Rooted(g, s, gray, y);
      var x :| x in gray && x in s.indexes && s.indexes[x] <= s.indexes[y] && Reach(g, y, x);
      assert x in gray + {node};
    }
  }

  lemma DoneUnchanged(g: Digraph, s: State, t: State)
    requires Shape(g, s) && Settled(g, s) && Shape(g, t)
    requires t.Done() == s.Done() && t.components == s.components
    ensures Settled(g, t)
  {
    forall v | v in t.Done() ensures Enclosed(g, t, v) && Reported(g, t, v) {
      assert Enclosed(g, s, v) && Reported(g, s, v);
    }
    forall c | c in t.components ensures Justified(g, t, c) { assert Justified(g, s, c); }
  }

  /** A call that ends without popping: `node` stops running, an older running node takes over. */
  lemma RetireKeepsInv(g: Digraph, s: State, gray: set<Node>, base: nat, node: Node, via: Node)
    requires Inv(g, s, gray + {node})
    requires base < |s.stack| && s.stack[base] == node
    requires gray <= SetOf(s.stack[..base])
    requires g[node] <= s.indexes.Keys
    requires via in s.stack[..base] && Reach(g, node, via)
    ensures Inv(g, s, gray)
  {
    forall v | v in s.indexes && v !in gray ensures g[v] <= s.indexes.Keys {
      assert v == node || v !in gray + {node};
    }
    assert gray <= s.OnStack() by { assert gray <= gray + {node}; }
    forall y | y in s.OnStack() ensures Rooted(g, s, gray, y) {
      RootedBelow(g, s, gray, base, node, via, y);
    }
  }

  lemma RootedBelow(g: Digraph, s: State, gray: set<Node>, base: nat, node: Node, via: Node, y: Node)
    requires Inv(g, s, gray + {node})
    requires base < |s.stack| && s.stack[base] == node
    requires via in s.stack[..base] && Reach(g, node, via)
    requires y in s.OnStack()
    ensures Rooted(g, s, gray, y)
  {
    assert Rooted(g, s, gray + {node}, y);
    var x :| x in gray + {node} && x in s.indexes && s.indexes[x] <= s.indexes[y] && Reach(g, y, x);
    if x !in gray {
      assert via in s.OnStack() && Rooted(g, s, gray + {node}, via);
      var z :| z in gray + {node} && z in s.indexes && s.indexes[z] <= s.indexes[via] && Reach(g, via, z);
      assert s.indexes[via] < s.indexes[node];
      ReachTrans(g, y, node, via);
      ReachTrans(g, y, via, z);
      assert z in gray;
    }
  }

  ghost function Segment(s: State, base: nat): set<Node>
    requires base <= |s.stack|
  {
    SetOf(s.stack[base..])
  }

  /** The stack is distinct, so cutting it at `base` splits its members in two. */
  lemma CutStack(s: State, base: nat)
    requires forall i :: 0 <= i < |s.stack| ==> s.stack[i] in s.indexes
    requires forall i, j :: 0 <= i < j < |s.stack| ==> s.indexes[s.stack[i]] < s.indexes[s.stack[j]]
    requires base <= |s.stack|
    ensures s.OnStack() == SetOf(s.stack[..base]) + Segment(s, base)
    ensures SetOf(s.stack[..base]) !! Segment(s, base)
    ensures forall v, w :: v in s.stack[..base] && w in Segment(s, base) ==> s.indexes[v] < s.indexes[w]
  {
    forall v, w | v in s.stack[..base] && w in Segment(s, base) ensures s.indexes[v] < s.indexes[w] {
      var i :| 0 <= i < base && s.stack[i] == v;
      var j :| base <= j < |s.stack| && s.stack[j] == w;
    }
    forall v | v in s.OnStack() ensures v in s.stack[..base] || v in s.stack[base..] {
      var i :| 0 <= i < |s.stack| && s.stack[i] == v;
      if i < base { assert v == s.stack[..base][i]; } else { assert v == s.stack[base..][i - base]; }
    }
  }

  lemma CutNone(s: State)
    ensures Segment(s, |s.stack|) == {} && s.stack[..|s.stack|] == s.stack
  {
  }

  /** Popping one node at height `k`, which is `base` exactly when the popped node is the one there. */
  lemma CutOne(g: Digraph, s: State, base: nat, k: nat)
    requires Shape(g, s) && base < k <= |s.stack|
    ensures Segment(s, k - 1) == Segment(s, k) + {s.stack[k - 1]}
    ensures SetOf(s.stack[..k - 1]) == SetOf(s.stack[..k]) - {s.stack[k - 1]}
    ensures s.stack[k - 1] == s.stack[base] ==> k - 1 == base
    ensures s.stack[k - 1] in g
    ensures s.stack[..k][..k - 1] == s.stack[..k - 1]
  {
    assert s.stack[k - 1..] == [s.stack[k - 1]] + s.stack[k..];
    assert s.stack[..k] == s.stack[..k - 1] + [s.stack[k - 1]];
    CutStack(s, k - 1);
  }

  lemma SegmentEdges(g: Digraph, s: State, base: nat, low: nat, v: Node, w: Node)
    requires Shape(g, s) && base < |s.stack| && s.indexes[s.stack[base]] == low
    requires NoEdgeBelow(g, s, base, base, low)
    requires v in Segment(s, base) && w in g[v] && w in s.indexes
    ensures w in s.Done() + Segment(s, base)
  {
    CutStack(s, base);
    var i :| base <= i < |s.stack| && s.stack[i] == v;
    assert s.stack[base] == s.stack[base..][0];
    assert w !in s.stack[..base];
  }

  lemma SegmentMutual(g: Digraph, s: State, gray: set<Node>, base: nat, node: Node, v: Node)
    requires Shape(g, s) && Coloured(g, s, gray + {node}) && node in g
    requires base < |s.stack| && s.stack[base] == node
    requires gray <= SetOf(s.stack[..base])
    requires v in Segment(s, base)
    ensures v in Scc(g, node)
  {
    hide Reach;
    var i :| base <= i < |s.stack| && s.stack[i] == v;
    assert Reach(g, s.stack[base], s.stack[i]);
    assert Rooted(g, s, gray + {node}, v);
    var x :| x in gray + {node} && x in s.indexes && s.indexes[x] <= s.indexes[v] && Reach(g, v, x);
    LeadsUpTo(g, s, gray, base, node, x);
    ReachTrans(g, v, x, node);
  }

  lemma LeadsUpTo(g: Digraph, s: State, gray: set<Node>, base: nat, node: Node, x: Node)
    requires Shape(g, s) && Coloured(g, s, gray + {node})
    requires base < |s.stack| && s.stack[base] == node
    requires gray <= SetOf(s.stack[..base]) && x in gray + {node}
    ensures Reach(g, x, node)
  {
    hide Reach, Rooted;
    if x == node {
      ReachSelf(g, node);
    } else {
      assert x in s.stack[..base];
      var k :| 0 <= k < base && s.stack[k] == x;
      assert Reach(g, s.stack[k], s.stack[base]);
    }
  }

  /** The segment that is popped at `node` is exactly the component of `node`. */
  lemma SegmentIsScc(g: Digraph, s: State, gray: set<Node>, base: nat, node: Node)
    requires Inv(g, s, gray + {node})
    requires base < |s.stack| && s.stack[base] == node
    requires gray <= SetOf(s.stack[..base])
    requires g[node] <= s.indexes.Keys
    requires NoEdgeBelow(g, s, base, base, s.indexes[node])
    ensures Segment(s, base) == Scc(g, node)
    ensures forall v :: v in Segment(s, base) ==> g[v] <= s.Done() + Segment(s, base)
  {
    var seg := Segment(s, base);
    CutStack(s, base);
    forall v | v in s.Done() ensures g[v] <= s.Done() { assert Enclosed(g, s, v); }
    forall v, w | v in seg && w in g[v] ensures w in s.Done() + seg {
      assert v == node || v !in gray + {node};
      SegmentEdges(g, s, base, s.indexes[node], v, w);
    }
    forall v | v in seg ensures v in Scc(g, node) {
      SegmentMutual(g, s, gray, base, node, v);
    }
    forall w | w in Scc(g, node) ensures w in seg {
      assert node == s.stack[base..][0];
      ReachStaysInside(g, s.Done() + seg, node, w);
      if w in s.Done() {
        ReachStaysInside(g, s.Done(), w, node);
        assert false;
      }
    }
  }

  ghost function Report(components: seq<set<Node>>, c: set<Node>): seq<set<Node>> {
    if |c| > 1 then components + [c] else components
  }

  /** Popping that segment and reporting it when it has more than one member keeps everything. */
  lemma PopKeepsInv(g: Digraph, s: State, gray: set<Node>, base: nat, node: Node, t: State)
    requires Closable(g, s, gray, base, node)
    requires t.indexes == s.indexes && t.lows == s.lows && t.stack == s.stack[..base]
    requires t.components == Report(s.components, Segment(s, base))
    ensures Inv(g, t, gray)
    ensures Scc(g, node) == Segment(s, base)
  {
    hide Shape, Coloured, Settled, Reach, NoEdgeBelow, Scc;
    SegmentIsScc(g, s, gray, base, node);
    PopShape(g, s, base, node, t);
    PopSettled(g, s, node, Segment(s, base), t);
    PopColoured(g, s, gray, base, node, t);
  }

  lemma PopShape(g: Digraph, s: State, base: nat, node: Node, t: State)
    requires Shape(g, s)
    requires base < |s.stack| && s.stack[base] == node
    requires t.indexes == s.indexes && t.lows == s.lows && t.stack == s.stack[..base]
    ensures Shape(g, t)
    ensures t.Done() == s.Done() + Segment(s, base)
    ensures node in Segment(s, base) && node in g && node !in s.Done()
  {
    CutStack(s, base);
    assert node == s.stack[base..][0];
  }

  lemma PopColoured(g: Digraph, s: State, gray: set<Node>, base: nat, node: Node, t: State)
    requires Shape(g, s) && Coloured(g, s, gray + {node})
    requires base < |s.stack| && s.stack[base] == node
    requires gray <= SetOf(s.stack[..base])
    requires g[node] <= s.indexes.Keys
    requires t.indexes == s.indexes && t.stack == s.stack[..base] && Shape(g, t)
    ensures Coloured(g, t, gray)
  {
    CutStack(s, base);
    assert node == s.stack[base..][0];
    forall v | v in t.indexes && v !in gray ensures g[v] <= t.indexes.Keys {
      assert v == node || v !in gray + {node};
    }
    forall i, j | 0 <= i <= j < |t.stack| ensures Reach(g, t.stack[i], t.stack[j]) {
      assert Reach(g, s.stack[i], s.stack[j]);
    }
    forall y | y in t.OnStack() ensures Rooted(g, t, gray, y) {
      assert Rooted(g, s, gray + {node}, y);
      var x :| x in gray + {node} && x in s.indexes && s.indexes[x] <= s.indexes[y] && Reach(g, y, x);
      assert x in gray;
    }
  }

  lemma PopSettled(g: Digraph, s: State, node: Node, seg: set<Node>, t: State)
    requires Shape(g, s) && Settled(g, s) && Shape(g, t)
    requires node in g && node !in s.Done()
    requires seg == Scc(g, node) && t.Done() == s.Done() + seg
    requires t.components == Report(s.components, seg)
    requires forall v :: v in seg ==> g[v] <= s.Done() + seg
    ensures Settled(g, t)
  {
    ReachSelf(g, node);
    assert node in seg;
    PopReports(g, s, node, seg, t);
    forall c | c in t.components ensures Justified(g, t, c) {
      if c in s.components {
        assert Justified(g, s, c);
      } else {
        assert NontrivialScc(g, seg);
      }
    }
    assert seg !in s.components || Justified(g, s, seg);
  }

  lemma PopReports(g: Digraph, s: State, node: Node, seg: set<Node>, t: State)
    requires Shape(g, s) && Settled(g, s) && Shape(g, t)
    requires node in g && seg == Scc(g, node) && t.Done() == s.Done() + seg
    requires t.components == Report(s.components, seg)
    requires forall v :: v in seg ==> g[v] <= s.Done() + seg
    ensures forall v {:trigger Enclosed(g, t, v)} {:trigger Reported(g, t, v)} ::
      (v in t.Done() ==> Enclosed(g, t, v) && Reported(g, t, v))
  {
    hide Reach;
    forall v | v in t.Done() ensures Enclosed(g, t, v) && Reported(g, t, v) {
      if v in seg {
        SccsEqualOrDisjoint(g, node, v);
      } else {
        assert Enclosed(g, s, v) && Reported(g, s, v);
      }
    }
  }

  // ---- The loop over the successors of a node, on values ------------------------

  /** What a Connect call leaves alone: earlier numbers, the stack it found, earlier reports. */
  ghost predicate Grows(s: State, t: State) {
    && s.indexes.Keys <= t.indexes.Keys && s.lows.Keys <= t.lows.Keys
    && (forall v :: v in s.indexes ==> t.indexes[v] == s.indexes[v])
    && (forall v :: v in s.lows ==> t.lows[v] == s.lows[v])
    && s.stack <= t.stack
    && s.components <= t.components
  }

  /**
   * The outcome of Connect(node): either `node` and everything found below it has been
   * popped, or it is still on the stack with a low link naming an older stack node `via`
   * that it reaches, and no edge from the new part of the stack goes lower than that.
   */
  ghost predicate Connected(g: Digraph, s: State, t: State, node: Node, via: Node)
    requires Shape(g, t)
  {
    && node in t.indexes
    && (node !in t.stack ==> t.stack == s.stack && t.lows[node] == t.indexes[node])
    && (node in t.stack ==>
          && t.lows[node] < t.indexes[node]
          && via in s.stack && via in t.indexes && t.indexes[via] == t.lows[node] && Reach(g, node, via)
          && NoEdgeBelow(g, t, |s.stack|, |s.stack|, t.lows[node]))
  }

  /** The successors in `seen` have been handled; `via` is the stack node the low link names. */
  ghost predicate Scanning(g: Digraph, s: State, gray: set<Node>, base: nat, node: Node, seen: set<Node>, via: Node) {
    && Inv(g, s, gray + {node})
    && base < |s.stack| && s.stack[base] == node
    && seen <= s.indexes.Keys
    && via in s.stack[..base + 1] && s.indexes[via] == s.lows[node] && Reach(g, node, via)
    && NoEdgeBelow(g, s, base, base + 1, s.lows[node])
    && forall w :: w in seen && w in s.stack[..base] ==> s.indexes[w] >= s.lows[node]
  }

  ghost function Lower(s: State, node: Node, low: nat): State
    requires node in s.lows
  {
    if low < s.lows[node] then s.(lows := s.lows[node := low]) else s
  }

  lemma LowKeepsInv(g: Digraph, s: State, gray: set<Node>, node: Node, low: nat)
    requires Inv(g, s, gray) && node in s.lows
    ensures Inv(g, Lower(s, node, low), gray)
  {
    var t := Lower(s, node, low);
    DoneUnchanged(g, s, t);
    forall y | y in t.OnStack() ensures Rooted(g, t, gray, y) {
      assert Rooted(g, s, gray, y);
      var x :| x in gray && x in s.indexes && s.indexes[x] <= s.indexes[y] && Reach(g, y, x);
      assert x in t.indexes;
    }
    forall i, j | 0 <= i <= j < |t.stack| ensures Reach(g, t.stack[i], t.stack[j]) {
      assert Reach(g, s.stack[i], s.stack[j]);
    }
  }

  lemma PushStartsScan(g: Digraph, s: State, gray: set<Node>, node: Node, n: nat)
    requires Inv(g, s, gray)
    requires node in g && node !in s.indexes
    requires forall v :: v in s.indexes ==> s.indexes[v] < n
    requires forall x :: x in gray ==> Reach(g, x, node)
    ensures Grows(s, Push(s, node, n))
    ensures Scanning(g, Push(s, node, n), gray, |s.stack|, node, {}, node)
    ensures Push(s, node, n).OnStack() == s.OnStack() + {node}
  {
    PushKeepsInv(g, s, gray, node, n);
    ReachSelf(g, node);
    assert Push(s, node, n).stack[|s.stack|] == node;
  }

  lemma GrowsOn(start: State, s: State, t: State, node: Node, low: nat)
    requires Grows(start, s) && Grows(s, t) && node !in start.lows && node in s.lows
    ensures node in t.lows
    ensures Grows(start, Lower(t, node, low))
  {
  }

  /** An index read from a stack node the new low link reaches. */
  lemma ScanBackEdge(
    g: Digraph, s: State, gray: set<Node>, base: nat, node: Node, seen: set<Node>, via: Node, target: Node)
    requires Scanning(g, s, gray, base, node, seen, via)
    requires target in s.indexes && target in g[node]
    ensures Inv(g, Lower(s, node, if target in s.stack then s.indexes[target] else s.lows[node]), gray + {node})
    ensures
      var low := if target in s.stack then s.indexes[target] else s.lows[node];
      Scanning(g, Lower(s, node, low), gray, base, node, seen + {target}, if low < s.lows[node] then target else via)
  {
    if target in s.stack && s.indexes[target] < s.lows[node] {
      ReachEdge(g, node, target);
      LowKeepsInv(g, s, gray + {node}, node, s.indexes[target]);
      ViaBelow(g, s, base, node, via, target);
    }
  }

  /** Stack nodes with a smaller index than the current low link lie below `node`. */
  lemma ViaBelow(g: Digraph, s: State, base: nat, node: Node, via: Node, target: Node)
    requires Shape(g, s) && base < |s.stack| && s.stack[base] == node
    requires via in s.stack[..base + 1] && target in s.stack && s.indexes[target] < s.indexes[via]
    ensures target in s.stack[..base + 1]
  {
    var i :| 0 <= i < |s.stack| && s.stack[i] == target;
    var j :| 0 <= j < base + 1 && s.stack[j] == via;
    assert i < j;
    assert s.stack[..base + 1][i] == target;
  }

  /** The recursive call on an unvisited successor, followed by taking the smaller low link. */
  lemma ScanChild(
    g: Digraph, s: State, t: State, gray: set<Node>, base: nat, node: Node,
    seen: set<Node>, via: Node, target: Node, older: Node)
    requires Scanning(g, s, gray, base, node, seen, via)
    requires target in g[node] && target !in s.indexes
    requires Inv(g, t, gray + {node}) && Grows(s, t) && Connected(g, s, t, target, older)
    requires t.indexes[target] > s.indexes[node]
    ensures s.indexes.Keys <= t.indexes.Keys && t.indexes[node] == s.indexes[node]
    ensures Inv(g, Lower(t, node, t.lows[target]), gray + {node})
    ensures Scanning(g, Lower(t, node, t.lows[target]), gray, base, node, seen + {target},
                     if t.lows[target] < t.lows[node] then older else via)
  {
    hide Settled, Coloured, Reach, NoEdgeBelow;
    var low := t.lows[target];
    LowKeepsInv(g, t, gray + {node}, node, low);
    ChildPrefix(s, t, base, target);
    ChildEdges(g, s, t, base, node, target, older);
    LowAtMost(g, s, base, node, via);
    if low < t.lows[node] {
      ReachEdge(g, node, target);
      ReachTrans(g, node, target, older);
      ViaBelow(g, s, base, node, via, older);
    }
    SeenWithTarget(s, t, base, node, seen, target);
    ScansAgain(g, t, gray, base, node, seen + {target}, if low < t.lows[node] then older else via, low);
  }

  lemma SeenWithTarget(s: State, t: State, base: nat, node: Node, seen: set<Node>, target: Node)
    requires Grows(s, t) && base < |s.stack| && node in s.lows && seen <= s.indexes.Keys
    requires target !in t.stack[..base]
    requires forall w :: w in seen && w in s.stack[..base] ==> s.indexes[w] >= s.lows[node]
    ensures forall w :: w in seen + {target} && w in t.stack[..base] ==> w in t.indexes && t.indexes[w] >= t.lows[node]
  {
    assert t.stack[..base] == s.stack[..base];
  }

  /** The scan goes on with the smaller of the old low link and `low`, both of which bound every edge so far. */
  lemma ScansAgain(g: Digraph, t: State, gray: set<Node>, base: nat, node: Node, seen: set<Node>, via: Node, low: nat)
    requires Shape(g, t) && node in t.lows && Inv(g, Lower(t, node, low), gray + {node})
    requires base < |t.stack| && t.stack[base] == node && seen <= t.indexes.Keys
    requires via in t.stack[..base + 1] && Reach(g, node, via)
    requires t.indexes[via] == (if low < t.lows[node] then low else t.lows[node])
    requires NoEdgeBelow(g, t, base, base + 1, if low < t.lows[node] then low else t.lows[node])
    requires forall w :: w in seen && w in t.stack[..base] ==> t.indexes[w] >= t.lows[node]
    ensures Scanning(g, Lower(t, node, low), gray, base, node, seen, via)
  {
    hide Inv, Reach;
  }

  lemma ChildPrefix(s: State, t: State, base: nat, target: Node)
    requires s.stack <= t.stack && base < |s.stack|
    requires forall v :: v in s.stack ==> v in s.indexes
    requires target !in s.indexes
    ensures t.stack[..base] == s.stack[..base] && t.stack[..base + 1] == s.stack[..base + 1]
    ensures t.stack[base] == s.stack[base]
    ensures target !in t.stack[..base]
  {
    assert forall v :: v in s.stack[..base] ==> v in s.stack;
  }

  lemma ChildEdges(g: Digraph, s: State, t: State, base: nat, node: Node, target: Node, older: Node)
    requires Shape(g, s) && Shape(g, t) && base < |s.stack| && node in s.lows && target in t.lows
    requires NoEdgeBelow(g, s, base, base + 1, s.lows[node])
    requires Grows(s, t) && Connected(g, s, t, target, older)
    ensures NoEdgeBelow(g, t, base, base + 1, if t.lows[target] < s.lows[node] then t.lows[target] else s.lows[node])
  {
    assert t.stack[..base] == s.stack[..base];
    assert t.stack[..|s.stack|] == s.stack;
    forall i, w | base + 1 <= i < |t.stack| && w in g[t.stack[i]] && w in t.stack[..base]
      ensures t.indexes[w] >= t.lows[target] || t.indexes[w] >= s.lows[node]
    {
      assert w in s.stack[..base];
      if i < |s.stack| {
        assert t.stack[i] == s.stack[i];
      } else {
        assert w in t.stack[..|s.stack|];
        assert target in t.stack;
      }
    }
  }

  lemma LowAtMost(g: Digraph, s: State, base: nat, node: Node, via: Node)
    requires Shape(g, s) && base < |s.stack| && s.stack[base] == node
    requires via in s.stack[..base + 1] && s.indexes[via] == s.lows[node]
    ensures s.lows[node] <= s.indexes[node]
  {
    var j :| 0 <= j < base + 1 && s.stack[j] == via;
  }

  /** All successors handled and no edge below `node`: its component is complete. */
  ghost predicate Closable(g: Digraph, s: State, gray: set<Node>, base: nat, node: Node) {
    && Shape(g, s) && Inv(g, s, gray + {node})
    && base < |s.stack| && s.stack[base] == node
    && gray <= SetOf(s.stack[..base])
    && g[node] <= s.indexes.Keys
    && NoEdgeBelow(g, s, base, base, s.indexes[node])
  }

  lemma EndOfScan(g: Digraph, s: State, t: State, gray: set<Node>, base: nat, node: Node, via: Node)
    requires Inv(g, s, gray) && base == |s.stack| && node !in s.indexes
    requires node in g && Scanning(g, t, gray, base, node, g[node], via) && Grows(s, t)
    ensures t.lows[node] == t.indexes[node] ==> Closable(g, t, gray, base, node)
    ensures t.lows[node] != t.indexes[node] ==> Inv(g, t, gray) && Connected(g, s, t, node, via)
  {
    assert t.stack[..base] == s.stack;
    assert NoEdgeBelow(g, t, base, base, t.lows[node]) by { hide Inv; }
    if t.lows[node] != t.indexes[node] {
      ViaOlder(g, t, base, node, via);
      RetireKeepsInv(g, t, gray, base, node, via);
    }
  }

  lemma ViaOlder(g: Digraph, t: State, base: nat, node: Node, via: Node)
    requires Shape(g, t) && base < |t.stack| && t.stack[base] == node
    requires via in t.stack[..base + 1] && t.indexes[via] != t.indexes[node]
    ensures via in t.stack[..base] && t.indexes[via] < t.indexes[node]
  {
    var j :| 0 <= j < base + 1 && t.stack[j] == via;
    assert t.stack[..base][j] == via;
  }

  lemma PoppedConnects(g: Digraph, s: State, full: State, t: State, gray: set<Node>, node: Node, base: nat)
    requires Grows(s, full) && base == |s.stack| && Closable(g, full, gray, base, node) && Inv(g, t, gray)
    requires node in full.lows && node in full.indexes && full.lows[node] == full.indexes[node]
    requires t.indexes == full.indexes && t.lows == full.lows && t.stack == full.stack[..base]
    requires full.components <= t.components
    ensures Grows(s, t) && Connected(g, s, t, node, node)
  {
    CutStack(full, base);
    assert full.stack[base..][0] == node;
  }

  // ---- The search itself ------------------------------------------------------

  class Search {
    const graph: Digraph
    var nextIndex: nat
    var indexes: map<Node, nat>
    var lowLinks: map<Node, nat>
    var stack: seq<Node>
    var onStack: set<Node>
    var components: seq<set<Node>>

    ghost function Now(): State reads this { State(indexes, lowLinks, stack, components) }

    ghost predicate Valid(gray: set<Node>)
      reads this
    {
      && Closed(graph) && "" !in graph
      && Inv(graph, Now(), gray)
      && indexes.Keys == lowLinks.Keys <= graph.Keys
      && onStack == Now().OnStack()
      && forall v :: v in indexes ==> indexes[v] < nextIndex
    }

    constructor (g: Digraph)
      requires Closed(g) && "" !in g
      ensures Valid({}) && graph == g
      ensures indexes == map[] && stack == [] && components == []
    {
      graph := g;
      nextIndex, indexes, lowLinks := 0, map[], map[];
      stack, onStack, components := [], {}, [];
    }

    method Connect(node: Node, ghost gray: set<Node>) returns (ghost via: Node)
      requires Valid(gray)
      requires node in graph && node !in indexes
      requires forall x :: x in gray ==> Reach(graph, x, node)
      modifies this
      ensures Valid(gray) && Grows(old(Now()), Now()) && Connected(graph, old(Now()), Now(), node, via)
      ensures node in indexes && node in lowLinks && indexes[node] == old(nextIndex) < nextIndex
      decreases graph.Keys - indexes.Keys, 0
    {
      hide Inv, Scanning, Connected, Reach, Grows, SetOf, Closed, Closable, Shape;
      ghost var start := Now();
      ghost var base := |stack|;
      PushStartsScan(graph, start, gray, node, nextIndex);
      var index := nextIndex;
      nextIndex := nextIndex + 1;
      indexes := indexes[node := index];
      lowLinks := lowLinks[node := index];
      stack := stack + [node];
      onStack := onStack + {node};
      via := node;

      var rest := graph[node];
      assert graph[node] - rest == {};
      while rest != {}
        invariant rest <= graph[node]
        invariant Valid(gray + {node}) && Grows(start, Now())
        invariant Scanning(graph, Now(), gray, base, node, graph[node] - rest, via)
        invariant start.indexes.Keys <= indexes.Keys
        invariant node in indexes && indexes[node] == index == old(nextIndex) < nextIndex
        decreases rest
      {
        var target :| target in rest;
        ghost var seen := graph[node] - rest;
        rest := rest - {target};
        assert graph[node] - rest == seen + {target};
        via := Visit(target, node, gray, base, start, seen, via);
      }
      assert graph[node] - rest == graph[node];
      EndOfScan(graph, start, Now(), gray, base, node, via);
      if lowLinks[node] != indexes[node] { return; }
      via := node;
      ghost var full := Now();
      PopComponent(node, gray, base);
      PoppedConnects(graph, start, full, Now(), gray, node, base);
    }

    /** One successor of `node`: recurse if unvisited, else look at its index while it is on the stack. */
    method Visit(
      target: Node, node: Node, ghost gray: set<Node>, ghost base: nat, ghost start: State,
      ghost seen: set<Node>, ghost via: Node) returns (ghost via': Node)
      requires Valid(gray + {node}) && node in indexes && indexes[node] < nextIndex
      requires node in graph && target in graph[node]
      requires Grows(start, Now()) && node !in start.lows
      requires forall x :: x in gray ==> Reach(graph, x, node)
      requires Scanning(graph, Now(), gray, base, node, seen, via)
      modifies this
      ensures Valid(gray + {node}) && Grows(start, Now())
      ensures Scanning(graph, Now(), gray, base, node, seen + {target}, via')
      ensures old(indexes.Keys) <= indexes.Keys && indexes[node] == old(indexes[node])
      ensures old(nextIndex) <= nextIndex
      decreases graph.Keys - indexes.Keys, 1
    {
      hide Inv, Scanning, Connected, Reach, Grows;
      ghost var before := Now();
      via' := via;
      if target !in indexes {
        forall x | x in gray + {node} ensures Reach(graph, x, target) {
          ReachEdge(graph, node, target);
          if x != node { ReachTrans(graph, x, node, target); }
        }
        ghost var older := Connect(target, gray + {node});
        ScanChild(graph, before, Now(), gray, base, node, seen, via, target, older);
        GrowsOn(start, before, Now(), node, lowLinks[target]);
        var low := lowLinks[target];
        if low < lowLinks[node] {
          lowLinks := lowLinks[node := low];
          via' := older;
        }
      } else {
        ScanBackEdge(graph, before, gray, base, node, seen, via, target);
        GrowsOn(start, before, before, node, indexes[target]);
        if target in onStack && indexes[target] < lowLinks[node] {
          lowLinks := lowLinks[node := indexes[target]];
          via' := target;
        }
      }
    }

    /** Pops `node` and everything above it; that is its component, reported if it has company. */
    method PopComponent(node: Node, ghost gray: set<Node>, ghost base: nat)
      requires "" !in graph && Closable(graph, Now(), gray, base, node)
      requires onStack == Now().OnStack()
      modifies this`stack, this`onStack, this`components
      ensures Shape(graph, old(Now())) && base < |old(stack)| && old(stack)[base] == node
      ensures Inv(graph, Now(), gray) && onStack == Now().OnStack()
      ensures stack == old(stack)[..base]
      ensures components == Report(old(components), Scc(graph, node))
    {
      hide Inv, Shape, NoEdgeBelow, Reach, Segment, SetOf;
      ghost var full := Now();
      CutNone(full);
      var component: set<Node> := {};
      while |stack| > 0
        invariant base < |stack| <= |full.stack| && stack == full.stack[..|stack|]
        invariant component == Segment(full, |stack|) && components == full.components
        invariant onStack == SetOf(full.stack[..|stack|])
        decreases |stack|
      {
        CutOne(graph, full, base, |stack|);
        var member := stack[|stack| - 1];
        stack := stack[..|stack| - 1];
        if member == "" { break; }
        onStack := onStack - {member};
        component := component + {member};
        if member == node { break; }
      }
      if |component| > 1 {
        components := components + [component];
      }
      PopKeepsInv(graph, full, gray, base, node, Now());
    }
  }

  // ---- From edges to components ---------------------------------------------------

  /** Adds each named arc and both of its endpoints. */
  method BuildGraph(arcs: seq<Arc>) returns (g: Digraph)
    ensures g == Induced(Named(arcs)) && Closed(g) && "" !in g
  {
    g := map[];
    for i := 0 to |arcs|
      invariant g == Induced(Named(arcs[..i]))
    {
      var arc := arcs[i];
      assert arcs[..i + 1] == arcs[..i] + [arc];
      if arc.from == "" || arc.to == "" {
        assert Named(arcs[..i + 1]) == Named(arcs[..i]);
        continue;
      }
      assert Named(arcs[..i + 1]) == Named(arcs[..i]) + {arc};
      AddArc(Named(arcs[..i]), arc);
      if arc.from !in g { g := g[arc.from := {}]; }
      if arc.to !in g { g := g[arc.to := {}]; }
      g := g[arc.from := g[arc.from] + {arc.to}];
    }
    assert arcs[..|arcs|] == arcs;
  }

  function WithNode(g: Digraph, v: Node): Digraph {
    if v in g then g else g[v := {}]
  }

  lemma EndpointsGrow(arcs: set<Arc>, arc: Arc)
    ensures Endpoints(arcs + {arc}) == Endpoints(arcs) + {arc.from, arc.to}
  {
  }

  lemma AddArc(arcs: set<Arc>, arc: Arc)
    ensures
      var g := WithNode(WithNode(Induced(arcs), arc.from), arc.to);
      Induced(arcs + {arc}) == g[arc.from := g[arc.from] + {arc.to}]
  {
    var g := WithNode(WithNode(Induced(arcs), arc.from), arc.to);
    var h := Induced(arcs + {arc});
    EndpointsGrow(arcs, arc);
    assert h.Keys == g.Keys;
    forall v | v in h ensures h[v] == g[arc.from := g[arc.from] + {arc.to}][v] {
      forall w ensures w in h[v] <==> w in g[arc.from := g[arc.from] + {arc.to}][v] {
        assert Arc(v, w) in arcs + {arc} <==> Arc(v, w) in arcs || (v == arc.from && w == arc.to);
      }
    }
  }

  /** With no call running, nothing is left on the stack. */
  lemma NothingLeftOnStack(g: Digraph, s: State)
    requires Inv(g, s, {})
    ensures s.stack == []
  {
    assert s.stack == [] || Rooted(g, s, {}, s.stack[0]);
  }

  /** After the last top-level call the reports are exactly the nontrivial components. */
  lemma AllSettled(g: Digraph, s: State)
    requires Inv(g, s, {}) && s.indexes.Keys == g.Keys
    ensures ListsNontrivialSccs(g, s.components)
  {
    NothingLeftOnStack(g, s);
    assert s.Done() == g.Keys;
    forall c ensures c in s.components <==> NontrivialScc(g, c) {
      if c in s.components {
        assert Justified(g, s, c);
      }
      if NontrivialScc(g, c) {
        var v :| v in g && c == Scc(g, v);
        assert Reported(g, s, v);
      }
    }
    forall i, j | 0 <= i < j < |s.components| ensures s.components[i] !! s.components[j] {
      assert Justified(g, s, s.components[i]) && Justified(g, s, s.components[j]);
      var a :| a in g && s.components[i] == Scc(g, a);
      var b :| b in g && s.components[j] == Scc(g, b);
      SccsEqualOrDisjoint(g, a, b);
    }
  }

  /** Starts a Connect call at every node that no earlier call has visited. */
  method FindComponents(g: Digraph) returns (components: seq<set<Node>>)
    requires Closed(g) && "" !in g
    ensures ListsNontrivialSccs(g, components)
  {
    hide Inv, Connected, Reach;
    var search := new Search(g);
    var rest := g.Keys;
    while rest != {}
      invariant rest <= g.Keys && fresh(search) && search.graph == g
      invariant search.Valid({}) && search.stack == []
      invariant g.Keys - rest <= search.indexes.Keys
      decreases rest
    {
      var node :| node in rest;
      if node !in search.indexes {
        ghost var _ := search.Connect(node, {});
        NothingLeftOnStack(g, search.Now());
      }
      rest := rest - {node};
    }
    AllSettled(g, search.Now());
    components := search.components;
  }

  /** The nontrivial strongly connected components of a list of named dependencies. */
  method NontrivialSccs(arcs: seq<Arc>) returns (components: seq<set<Node>>)
    ensures ListsNontrivialSccs(Induced(Named(arcs)), components)
  {
    var g := BuildGraph(arcs);
    components := FindComponents(g);
  }
}
