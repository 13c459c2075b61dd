/**
 Building a calling-context tree from timed intervals (client/call_graph.cpp).

 Tree nodes live in a table and are named by their index, in place of pointers; a node's parent
 always has a smaller index.
 */
module CallGraph {
  import opened Bytes

  /** NodeData: a labelled interval of time. */
  datatype Span = Span(name: string, start: nat, stop: nat)

  function Duration(e: Span): int {
    e.stop - e.start
  }

  /** A callee and how often it was called. */
  datatype Call = Call(node: nat, count: nat)

  datatype TreeNode = TreeNode(data: Span, total: int, childTotal: int, children: seq<Call>, parent: Option<nat>)

  datatype Graph = Graph(nodes: seq<TreeNode>, roots: seq<Call>, current: Option<nat>)

  predicate Contains(outer: Span, inner: Span) {
    outer.start <= inner.start && inner.stop <= outer.stop
  }

  /** The list in which the callees of `parent` are kept. */
  function CallsOf(g: Graph, parent: Option<nat>): seq<Call>
    requires parent.Some? ==> parent.value < |g.nodes|
  {
    if parent.Some? then g.nodes[parent.value].children else g.roots
  }

  // Structure.

  predicate CallsValid(g: Graph, parent: Option<nat>)
    requires parent.Some? ==> parent.value < |g.nodes|
  {
    var calls := CallsOf(g, parent);
    && (forall i :: 0 <= i < |calls| ==> calls[i].node < |g.nodes| && g.nodes[calls[i].node].parent == parent)
    && (forall i, j :: 0 <= i < j < |calls| ==> g.nodes[calls[i].node].data.name != g.nodes[calls[j].node].data.name)
  }

  /** Every node is listed by its parent, or among the roots. */
  predicate Listed(g: Graph, n: nat)
    requires n < |g.nodes|
  {
    var parent := g.nodes[n].parent;
    && (parent.Some? ==> parent.value < n)
    && exists i :: 0 <= i < |CallsOf(g, parent)| && CallsOf(g, parent)[i].node == n
  }

  ghost predicate Tree(g: Graph) {
    && (g.current.Some? ==> g.current.value < |g.nodes|)
    && (forall n :: 0 <= n < |g.nodes| ==> Listed(g, n))
    && CallsValid(g, None)
    && (forall n :: 0 <= n < |g.nodes| ==> CallsValid(g, Some(n)))
  }

  // Operations.

  /** The position of the first call with the given label, or the length of the list. */
  function FindCall(nodes: seq<TreeNode>, calls: seq<Call>, name: string): (i: nat)
    requires forall j :: 0 <= j < |calls| ==> calls[j].node < |nodes|
    ensures i <= |calls|
    ensures i < |calls| ==> nodes[calls[i].node].data.name == name
    ensures forall j :: 0 <= j < i ==> nodes[calls[j].node].data.name != name
    decreases |calls|
  {
    if calls == [] then 0
    else if nodes[calls[0].node].data.name == name then 0
    else 1 + FindCall(nodes, calls[1..], name)
  }

  /** Replaces the list of callees of `parent`. */
  function WithCalls(g: Graph, parent: Option<nat>, calls: seq<Call>): Graph
    requires parent.Some? ==> parent.value < |g.nodes|
  {
    if parent.Some? then g.(nodes := g.nodes[parent.value := g.nodes[parent.value].(children := calls)])
    else g.(roots := calls)
  }

  /** _add_new_call: merges the interval into the callee of that label, or adds a callee. */
  function AddCall(g: Graph, parent: Option<nat>, e: Span): Graph
    requires parent.Some? ==> parent.value < |g.nodes|
    requires CallsValid(g, parent)
  {
    var calls := CallsOf(g, parent);
    var i := FindCall(g.nodes, calls, e.name);
    if i < |calls| then
      var v := calls[i].node;
      var g' := g.(nodes := g.nodes[v := g.nodes[v].(total := g.nodes[v].total + Duration(e), data := e)]);
      WithCalls(g', parent, calls[i := calls[i].(count := calls[i].count + 1)]).(current := Some(v))
    else
      var v := |g.nodes|;
      var g' := g.(nodes := g.nodes + [TreeNode(e, Duration(e), 0, [], parent)]);
      WithCalls(g', parent, calls + [Call(v, 1)]).(current := Some(v))
  }

  /** Climbs from a node to the nearest ancestor whose interval contains e. */
  function Climb(g: Graph, from: Option<nat>, e: Span): (r: Option<nat>)
    requires forall n :: 0 <= n < |g.nodes| ==> Listed(g, n)
    requires from.Some? ==> from.value < |g.nodes|
    ensures r.Some? ==> r.value < |g.nodes| && Contains(g.nodes[r.value].data, e)
    decreases if from.Some? then from.value + 1 else 0
  {
    if from.None? then None
    else if Contains(g.nodes[from.value].data, e) then from
    else
      assert Listed(g, from.value);
      Climb(g, g.nodes[from.value].parent, e)
  }

  /** _add_event. */
  function AddEvent(g: Graph, e: Span): Graph
    requires Tree(g)
  {
    var p := Climb(g, g.current, e);
    if p.None? then AddCall(g, None, e)
    else
      var g' := Charge(g, p.value, Duration(e));
      assert CallsValid(g, p);
      assert CallsOf(g', p) == CallsOf(g, p);
      AddCall(g', p, e)
  }

  // What adding an event changes.

  /** A list of calls with one more call of v. */
  predicate OneMoreCall(before: seq<Call>, after: seq<Call>, v: nat, isNew: bool) {
    if isNew then after == before + [Call(v, 1)]
    else
      && |after| == |before|
      && exists i :: 0 <= i < |before| && before[i].node == v && after == before[i := Call(v, before[i].count + 1)]
  }

  /** Node n before and after e was added at node v; `d` was charged to the caller p. */
  predicate NodeChange(a: TreeNode, b: TreeNode, n: nat, p: Option<nat>, v: nat, e: Span, d: int) {
    && b.parent == a.parent
    && b.data == (if n == v then e else a.data)
    && b.total == a.total + (if n == v then Duration(e) else 0)
    && b.childTotal == a.childTotal + (if p == Some(n) then d else 0)
    && (p != Some(n) ==> b.children == a.children)
  }

  predicate NodesChange(g: Graph, g': Graph, p: Option<nat>, v: nat, e: Span, d: int) {
    && |g'.nodes| == (if v == |g.nodes| then v + 1 else |g.nodes|)
    && forall n :: 0 <= n < |g.nodes| ==> NodeChange(g.nodes[n], g'.nodes[n], n, p, v, e, d)
  }

  /** No callee of p has the given name. */
  predicate Unused(g: Graph, p: Option<nat>, name: string)
    requires p.Some? ==> p.value < |g.nodes|
  {
    forall i :: 0 <= i < |CallsOf(g, p)| ==>
                  CallsOf(g, p)[i].node < |g.nodes| && g.nodes[CallsOf(g, p)[i].node].data.name != name
  }

  /** The event e became one more call of node v, a callee of p (or a root). */
  ghost predicate Added(g: Graph, g': Graph, p: Option<nat>, v: nat, e: Span, d: int) {
    && (p.Some? ==> p.value < |g.nodes|)
    && v <= |g.nodes| && NodesChange(g, g', p, v, e, d)
    && g'.current == Some(v)
    && (p.Some? ==> g'.roots == g.roots)
    && OneMoreCall(CallsOf(g, p), CallsOf(g', p), v, v == |g.nodes|)
    && (if v == |g.nodes| then g'.nodes[v] == TreeNode(e, Duration(e), 0, [], p) && Unused(g, p, e.name)
        else g.nodes[v].data.name == e.name && g.nodes[v].parent == p)
  }

  lemma MergedCall(g: Graph, p: Option<nat>, e: Span)
    requires (p.Some? ==> p.value < |g.nodes|) && CallsValid(g, p)
    requires FindCall(g.nodes, CallsOf(g, p), e.name) < |CallsOf(g, p)|
    requires p.Some? ==> g.nodes[p.value].parent != p
    ensures var g' := AddCall(g, p, e);
            g'.current.Some? && Added(g, g', p, g'.current.value, e, 0)
  {
    var calls := CallsOf(g, p);
    var i := FindCall(g.nodes, calls, e.name);
    var g' := AddCall(g, p, e);
    var v := calls[i].node;
    assert p != Some(v);
    assert CallsOf(g', p) == calls[i := Call(v, calls[i].count + 1)];
    assert NodesChange(g, g', p, v, e, 0);
  }

  lemma NewCall(g: Graph, p: Option<nat>, e: Span)
    requires (p.Some? ==> p.value < |g.nodes|) && CallsValid(g, p)
    requires FindCall(g.nodes, CallsOf(g, p), e.name) == |CallsOf(g, p)|
    ensures var g' := AddCall(g, p, e);
            g'.current.Some? && Added(g, g', p, g'.current.value, e, 0)
  {
    var g' := AddCall(g, p, e);
    assert CallsOf(g', p) == CallsOf(g, p) + [Call(|g.nodes|, 1)];
    assert NodesChange(g, g', p, |g.nodes|, e, 0);
  }

  /** Charging the caller before the call is added. */
  function Charge(g: Graph, p: nat, d: int): Graph
    requires p < |g.nodes|
  {
    g.(nodes := g.nodes[p := g.nodes[p].(childTotal := g.nodes[p].childTotal + d)])
  }

  lemma ChargedCall(g: Graph, g': Graph, p: nat, v: nat, e: Span, d: int)
    requires p < |g.nodes| && Added(Charge(g, p, d), g', Some(p), v, e, 0)
    ensures Added(g, g', Some(p), v, e, d)
  {
    var g1 := Charge(g, p, d);
    assert CallsOf(g1, Some(p)) == CallsOf(g, Some(p));
    forall n | 0 <= n < |g.nodes|
      ensures NodeChange(g.nodes[n], g'.nodes[n], n, Some(p), v, e, d)
    {
      assert NodeChange(g1.nodes[n], g'.nodes[n], n, Some(p), v, e, 0);
    }
  }

  lemma AddCallAdds(g: Graph, p: Option<nat>, e: Span)
    requires (p.Some? ==> p.value < |g.nodes| && g.nodes[p.value].parent != p) && CallsValid(g, p)
    ensures var g' := AddCall(g, p, e);
            g'.current.Some? && Added(g, g', p, g'.current.value, e, 0)
  {
    if FindCall(g.nodes, CallsOf(g, p), e.name) < |CallsOf(g, p)| {
      MergedCall(g, p, e);
    } else {
      NewCall(g, p, e);
    }
  }

  lemma AddEventAdds(g: Graph, e: Span)
    requires Tree(g)
    ensures var g' := AddEvent(g, e);
            var p := Climb(g, g.current, e);
            g'.current.Some? && Added(g, g', p, g'.current.value, e, if p.Some? then Duration(e) else 0)
  {
    var p := Climb(g, g.current, e);
    if p.None? {
      AddCallAdds(g, None, e);
    } else {
      var g1 := Charge(g, p.value, Duration(e));
      assert CallsValid(g, p) && Listed(g, p.value);
      assert CallsOf(g1, p) == CallsOf(g, p);
      AddCallAdds(g1, p, e);
      ChargedCall(g, AddEvent(g, e), p.value, AddEvent(g, e).current.value, e, Duration(e));
    }
  }

  lemma AddedListed(g: Graph, g': Graph, p: Option<nat>, v: nat, e: Span, d: int, n: nat)
    requires Tree(g) && Added(g, g', p, v, e, d) && n < |g'.nodes|
    ensures Listed(g', n)
  {
    if n == |g.nodes| {
      var calls := CallsOf(g', p);
      assert calls[|calls| - 1].node == n;
    } else {
      assert Listed(g, n) && NodeChange(g.nodes[n], g'.nodes[n], n, p, v, e, d);
      var parent := g.nodes[n].parent;
      var i :| 0 <= i < |CallsOf(g, parent)| && CallsOf(g, parent)[i].node == n;
      if parent.Some? {
        assert NodeChange(g.nodes[parent.value], g'.nodes[parent.value], parent.value, p, v, e, d);
      }
      assert CallsOf(g', parent)[i].node == n;
    }
  }

  lemma AddedCallsValid(g: Graph, g': Graph, p: Option<nat>, v: nat, e: Span, d: int, parent: Option<nat>)
    requires Tree(g) && Added(g, g', p, v, e, d) && (parent.Some? ==> parent.value < |g'.nodes|)
    ensures CallsValid(g', parent)
  {
    if parent.Some? && parent.value == |g.nodes| {
      assert CallsOf(g', parent) == [];
    } else {
      assert CallsValid(g, parent);
      if parent.Some? {
        assert NodeChange(g.nodes[parent.value], g'.nodes[parent.value], parent.value, p, v, e, d);
      }
      AddedKeepsShape(g, g', p, v, e, d);
      if parent == p {
        LongerCallsValid(g, g', p, v, e, d);
      } else {
        assert CallsOf(g', parent) == CallsOf(g, parent);
      }
    }
  }

  /** The list that gained a call. */
  lemma LongerCallsValid(g: Graph, g': Graph, p: Option<nat>, v: nat, e: Span, d: int)
    requires Added(g, g', p, v, e, d) && CallsValid(g, p) && SameShape(g.nodes, g'.nodes)
    ensures CallsValid(g', p)
  {
    hide NodeChange;
  }

  /** Adding an event keeps the structure a tree with distinct names among siblings. */
  lemma AddedTree(g: Graph, g': Graph, p: Option<nat>, v: nat, e: Span, d: int)
    requires Tree(g) && Added(g, g', p, v, e, d)
    ensures Tree(g')
  {
    forall n | 0 <= n < |g'.nodes| ensures Listed(g', n) { AddedListed(g, g', p, v, e, d, n); }
    forall n | 0 <= n < |g'.nodes| ensures CallsValid(g', Some(n)) { AddedCallsValid(g, g', p, v, e, d, Some(n)); }
    AddedCallsValid(g, g', p, v, e, d, None);
  }

  // Paths.

  predicate HasParent(nodes: seq<TreeNode>, n: nat)
    requires n < |nodes|
  {
    nodes[n].parent.Some? && nodes[n].parent.value < n
  }

  /** The names from the root down to a node. */
  function Path(nodes: seq<TreeNode>, n: nat): (path: seq<string>)
    requires n < |nodes|
    ensures path != [] && path[|path| - 1] == nodes[n].data.name
    decreases n
  {
    if HasParent(nodes, n) then Path(nodes, nodes[n].parent.value) + [nodes[n].data.name] else [nodes[n].data.name]
  }

  /** The nodes from the root down to a node. */
  function Chain(nodes: seq<TreeNode>, n: nat): (chain: seq<nat>)
    requires n < |nodes|
    ensures chain != [] && chain[|chain| - 1] == n
    ensures forall i :: 0 <= i < |chain| ==> chain[i] <= n
    decreases n
  {
    if HasParent(nodes, n) then Chain(nodes, nodes[n].parent.value) + [n] else [n]
  }

  predicate SameShape(a: seq<TreeNode>, b: seq<TreeNode>) {
    && |a| <= |b|
    && forall n :: 0 <= n < |a| ==> b[n].parent == a[n].parent && b[n].data.name == a[n].data.name
  }

  lemma {:induction false} ShapeKeepsPaths(a: seq<TreeNode>, b: seq<TreeNode>, n: nat)
    requires SameShape(a, b) && n < |a|
    ensures Path(b, n) == Path(a, n) && Chain(b, n) == Chain(a, n)
    decreases n
  {
    if HasParent(a, n) {
      ShapeKeepsPaths(a, b, a[n].parent.value);
    }
  }

  lemma AddedKeepsShape(g: Graph, g': Graph, p: Option<nat>, v: nat, e: Span, d: int)
    requires Added(g, g', p, v, e, d)
    ensures SameShape(g.nodes, g'.nodes)
  {
    forall n | 0 <= n < |g.nodes|
      ensures g'.nodes[n].parent == g.nodes[n].parent && g'.nodes[n].data.name == g.nodes[n].data.name
    {
      assert NodeChange(g.nodes[n], g'.nodes[n], n, p, v, e, d);
    }
  }

  /** Different nodes have different paths. */
  lemma {:induction false} PathInjective(g: Graph, m: nat, n: nat)
    requires Tree(g) && m < |g.nodes| && n < |g.nodes| && Path(g.nodes, m) == Path(g.nodes, n)
    ensures m == n
    decreases m
  {
    assert Listed(g, m) && Listed(g, n);
    var a, b := g.nodes[m].parent, g.nodes[n].parent;
    assert a == b by {
      if a.Some? {
        var pa := Path(g.nodes, a.value);
        assert |pa| > 0 && Path(g.nodes, m) == pa + [g.nodes[m].data.name];
        assert |Path(g.nodes, n)| > 1;
        var pb := Path(g.nodes, b.value);
        assert Path(g.nodes, n) == pb + [g.nodes[n].data.name];
        assert pa == (pa + [g.nodes[m].data.name])[..|pa|] && pb == (pb + [g.nodes[n].data.name])[..|pb|];
        PathInjective(g, a.value, b.value);
      } else {
        assert |Path(g.nodes, m)| == 1;
      }
    }
    assert CallsValid(g, a);
    var calls := CallsOf(g, a);
    var i :| 0 <= i < |calls| && calls[i].node == m;
    var j :| 0 <= j < |calls| && calls[j].node == n;
    assert g.nodes[m].data.name == Path(g.nodes, m)[|Path(g.nodes, m)| - 1] == g.nodes[n].data.name;
  }
}
