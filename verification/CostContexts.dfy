/**
 The cost listing in terms of the events alone: which calling contexts are printed, under which names, in which order
 and at which cost (client/call_graph.cpp, client/callgrind_converter.cpp).
 */
module CostContexts {
  import opened Bytes
  import opened CallGraph
  import opened CallContexts
  import opened CallCosts
  import opened CostListing

  // Names.

  /** The name of a calling context: the function, then its callers, outermost last. */
  function PathName(path: seq<string>): string {
    if path == [] then ""
    else
      var n := |path| - 1;
      path[n] + "()" + if n == 0 then "" else "'" + PathName(path[..n])
  }

  lemma NameExample()
    ensures PathName(["main", "f", "g"]) == "g()'f()'main()"
  {
    assert ["main", "f", "g"][..2] == ["main", "f"] && ["main", "f"][..1] == ["main"];
    assert PathName(["main"]) == "main()";
    assert PathName(["main", "f"]) == "f()" + ("'" + "main()") == "f()'main()";
    assert PathName(["main", "f", "g"]) == "g()" + ("'" + "f()'main()");
  }

  lemma NameOfCallee(path: seq<string>, name: string)
    requires path != []
    ensures PathName(path + [name]) == name + "()'" + PathName(path)
  {
    assert (path + [name])[..|path|] == path;
    assert name + "()" + ("'" + PathName(path)) == name + "()'" + PathName(path);
  }

  /** Below a root of the graph, a function is printed under the name of its path. */
  lemma {:induction false} NameIsPath(nodes: seq<TreeNode>, root: nat, n: nat)
    requires n < |nodes| && root < |nodes| && !HasParent(nodes, root)
    ensures FnName(nodes, root, n) == PathName(Path(nodes, n))
    decreases n
  {
    if HasParent(nodes, n) {
      NameIsPath(nodes, root, nodes[n].parent.value);
      NameOfCallee(Path(nodes, nodes[n].parent.value), nodes[n].data.name);
    } else {
      assert PathName([nodes[n].data.name]) == nodes[n].data.name + "()" + "" == nodes[n].data.name + "()";
    }
  }

  // Order.

  /** Every list of calls names its nodes in increasing order. */
  predicate Rising(calls: seq<Call>) {
    forall i, j :: 0 <= i < j < |calls| ==> calls[i].node < calls[j].node
  }

  ghost predicate AllRising(g: Graph) {
    Rising(g.roots) && forall n :: 0 <= n < |g.nodes| ==> Rising(g.nodes[n].children)
  }

  lemma RisingStep(before: seq<Call>, after: seq<Call>, v: nat, isNew: bool)
    requires Rising(before) && OneMoreCall(before, after, v, isNew)
    requires isNew ==> forall i :: 0 <= i < |before| ==> before[i].node < v
    ensures Rising(after)
  {
  }

  lemma AddedRising(g: Graph, g': Graph, p: Option<nat>, v: nat, e: Span, d: int)
    requires Tree(g) && AllRising(g) && Added(g, g', p, v, e, d)
    ensures AllRising(g')
  {
    assert CallsValid(g, p);
    RisingStep(CallsOf(g, p), CallsOf(g', p), v, v == |g.nodes|);
    forall n | 0 <= n < |g'.nodes| ensures Rising(g'.nodes[n].children) {
      if n < |g.nodes| {
        assert NodeChange(g.nodes[n], g'.nodes[n], n, p, v, e, d);
      }
    }
  }

  /** On every input: callees are listed in the order of their nodes. */
  lemma {:induction false} CallsRise(es: seq<Span>)
    ensures AllRising(Build(es))
  {
    if es != [] {
      var g, e := Build(es[..|es| - 1]), es[|es| - 1];
      CallsRise(es[..|es| - 1]);
      AddEventAdds(g, e);
      var p := Climb(g, g.current, e);
      AddedRising(g, AddEvent(g, e), p, AddEvent(g, e).current.value, e, if p.Some? then Duration(e) else 0);
    }
  }

  /** Some event has the context. */
  predicate Occurs(es: seq<Span>, path: seq<string>) {
    exists j :: 0 <= j < |es| && ContextOf(es, j) == path
  }

  /** Some event has the first context, and none up to it has the second. */
  predicate OccursBefore(es: seq<Span>, first: seq<string>, second: seq<string>) {
    exists j :: 0 <= j < |es| && ContextOf(es, j) == first && forall i :: 0 <= i <= j ==> ContextOf(es, i) != second
  }

  /** Nodes are numbered in the order in which their contexts first occur. */
  ghost predicate Numbered(g: Graph, es: seq<Span>) {
    && (forall n :: 0 <= n < |g.nodes| ==> Occurs(es, Path(g.nodes, n)))
    && (forall m, n :: 0 <= m < n < |g.nodes| ==> OccursBefore(es, Path(g.nodes, m), Path(g.nodes, n)))
  }

  lemma OccursLater(es: seq<Span>, e: Span, path: seq<string>)
    requires Occurs(es, path)
    ensures Occurs(es + [e], path)
  {
    var j :| 0 <= j < |es| && ContextOf(es, j) == path;
    ContextPrefix(es, e, j);
  }

  lemma OccursBeforeLater(es: seq<Span>, e: Span, first: seq<string>, second: seq<string>)
    requires OccursBefore(es, first, second)
    ensures OccursBefore(es + [e], first, second)
  {
    var j :| 0 <= j < |es| && ContextOf(es, j) == first && forall i :: 0 <= i <= j ==> ContextOf(es, i) != second;
    forall i | 0 <= i <= j ensures ContextOf(es + [e], i) == ContextOf(es, i) {
      ContextPrefix(es, e, i);
    }
  }

  lemma OccursBeforeNew(es: seq<Span>, e: Span, first: seq<string>, second: seq<string>)
    requires Occurs(es, first) && !Occurs(es, second)
    ensures OccursBefore(es + [e], first, second)
  {
    var j :| 0 <= j < |es| && ContextOf(es, j) == first;
    forall i | 0 <= i <= j ensures ContextOf(es + [e], i) == ContextOf(es, i) {
      ContextPrefix(es, e, i);
    }
  }

  lemma OccursNow(es: seq<Span>, e: Span)
    ensures Occurs(es + [e], EnclosingNames(es, |es|, e) + [e.name])
  {
    EnclosingPrefix(es, e, |es|, e);
    assert ContextOf(es + [e], |es|) == EnclosingNames(es, |es|, e) + [e.name];
  }

  lemma NewPath(g: Graph, g': Graph, es: seq<Span>, v: nat)
    requires Summaries(g, es) && Tree(g') && SameShape(g.nodes, g'.nodes) && v == |g.nodes| < |g'.nodes|
    ensures !Occurs(es, Path(g'.nodes, v))
  {
    NewNodeIsFresh(g, g', v);
    forall j | 0 <= j < |es| ensures ContextOf(es, j) != Path(g'.nodes, v) {
      assert HasNode(g, ContextOf(es, j));
    }
  }

  lemma NumberedStep(g: Graph, g': Graph, es: seq<Span>, v: nat, e: Span)
    requires Numbered(g, es) && Summaries(g, es) && Tree(g') && SameShape(g.nodes, g'.nodes)
    requires |g'.nodes| == (if v == |g.nodes| then v + 1 else |g.nodes|) && v < |g'.nodes|
    requires Path(g'.nodes, v) == EnclosingNames(es, |es|, e) + [e.name]
    ensures Numbered(g', es + [e])
  {
    hide Summaries;
    hide Tree;
    hide SameShape;
    hide ContextOf;
    hide Occurs;
    hide OccursBefore;
    OccursNow(es, e);
    forall n | 0 <= n < |g.nodes|
      ensures Path(g'.nodes, n) == Path(g.nodes, n) && Occurs(es + [e], Path(g.nodes, n))
    {
      ShapeKeepsPaths(g.nodes, g'.nodes, n);
      OccursLater(es, e, Path(g.nodes, n));
    }
    forall m, n | 0 <= m < n < |g'.nodes|
      ensures OccursBefore(es + [e], Path(g'.nodes, m), Path(g'.nodes, n))
    {
      if n < |g.nodes| {
        OccursBeforeLater(es, e, Path(g.nodes, m), Path(g.nodes, n));
      } else {
        NewPath(g, g', es, v);
        OccursBeforeNew(es, e, Path(g.nodes, m), Path(g'.nodes, n));
      }
    }
  }

  lemma {:induction false} NodesNumbered(es: seq<Span>)
    requires GoodInput(es)
    ensures Numbered(Build(es), es)
  {
    hide *;
    if es == [] {
      NothingNumbered();
    } else {
      var before, e := es[..|es| - 1], es[|es| - 1];
      var g := Build(before);
      TreeFacts(g);
      var g', p := AddEvent(g, e), Climb(g, g.current, e);
      assert es == before + [e];
      BuildSnoc(before, e);
      GoodPrefix(es, |es| - 1);
      NodesNumbered(before);
      CallingContextTree(before);
      ContextStep(g, before, LastHeld(before), e);
      AddEventAdds(g, e);
      var v := g'.current.value;
      AddedSize(g, g', p, v, e, if p.Some? then Duration(e) else 0);
      AddedKeepsShape(g, g', p, v, e, if p.Some? then Duration(e) else 0);
      AddEventTree(g, e);
      NumberedStep(g, g', before, v, e);
    }
  }

  lemma TreeFacts(g: Graph)
    requires Tree(g)
    ensures (g.current.Some? ==> g.current.value < |g.nodes|) && forall n :: 0 <= n < |g.nodes| ==> Listed(g, n)
  {
    hide Listed;
    hide CallsValid;
  }

  lemma NothingNumbered()
    ensures Numbered(Build([]), [])
  {
  }

  lemma AddedSize(g: Graph, g': Graph, p: Option<nat>, v: nat, e: Span, d: int)
    requires Added(g, g', p, v, e, d)
    ensures |g'.nodes| == (if v == |g.nodes| then v + 1 else |g.nodes|) && v <= |g.nodes|
  {
  }

  // Costs.

  /** How a context appears among the callees of another. */
  function CalleeFor(es: seq<Span>, path: seq<string>): Callee {
    Callee(PathName(path), ContextCount(es, path, |es|), ContextTotal(es, path, |es|))
  }

  function SumCosts(callees: seq<Callee>): int {
    if callees == [] then 0 else SumCosts(callees[..|callees| - 1]) + callees[|callees| - 1].cost
  }

  /** Callee j of a block is the context of the block's with one more name. */
  ghost predicate IsCallee(es: seq<Span>, path: seq<string>, c: Callee, name: string) {
    c == CalleeFor(es, path + [name])
  }

  /**
   A block for a calling context: its name, the number and the time of the calls to each callee, and as its own cost
   the time of its events less that of its callees.  Callees come in the order they were first called in.
   */
  ghost predicate Lists(es: seq<Span>, path: seq<string>, b: FnBlock, names: seq<string>) {
    && b.fn == PathName(path) && |names| == |b.callees|
    && (forall j :: 0 <= j < |b.callees| ==> IsCallee(es, path, b.callees[j], names[j]))
    && (forall i, j :: 0 <= i < j < |names| ==> OccursBefore(es, path + [names[i]], path + [names[j]]))
    && b.self == ContextTotal(es, path, |es|) - SumCosts(b.callees)
  }

  lemma {:induction false} CostsAreTotals(nodes: seq<TreeNode>, calls: seq<Call>, callees: seq<Callee>)
    requires |callees| == |calls| && forall i :: 0 <= i < |calls| ==> calls[i].node < |nodes|
    requires forall i :: 0 <= i < |calls| ==> callees[i].cost == nodes[calls[i].node].total
    ensures SumCosts(callees) == ChildSum(nodes, calls)
  {
    if calls != [] {
      var m := |calls| - 1;
      CostsAreTotals(nodes, calls[..m], callees[..m]);
    }
  }

  /** The label of each callee of a node. */
  function CalleeLabels(g: Graph, n: nat): (names: seq<string>)
    requires n < |g.nodes| && forall i :: 0 <= i < |g.nodes[n].children| ==> g.nodes[n].children[i].node < |g.nodes|
    ensures |names| == |g.nodes[n].children|
    ensures forall i :: 0 <= i < |names| ==> names[i] == g.nodes[g.nodes[n].children[i].node].data.name
  {
    var calls := g.nodes[n].children;
    seq(|calls|, i requires 0 <= i < |calls| => g.nodes[calls[i].node].data.name)
  }

  lemma CalleePath(g: Graph, n: nat, i: nat)
    requires Tree(g) && n < |g.nodes| && i < |g.nodes[n].children|
    ensures var c := g.nodes[n].children[i].node;
            c < |g.nodes| && Path(g.nodes, c) == Path(g.nodes, n) + [g.nodes[c].data.name]
  {
    assert CallsValid(g, Some(n)) && CallsOf(g, Some(n)) == g.nodes[n].children;
    assert Listed(g, g.nodes[n].children[i].node);
  }

  lemma OneCallee(g: Graph, es: seq<Span>, b: FnBlock, j: nat)
    requires Tree(g) && Summaries(g, es) && BlockFor(g, b) && j < |b.callees| && b.fn == PathName(Path(g.nodes, b.node))
    ensures g.nodes[b.node].children[j].node < |g.nodes|
    ensures IsCallee(es, Path(g.nodes, b.node), b.callees[j], g.nodes[g.nodes[b.node].children[j].node].data.name)
  {
    var path, c := Path(g.nodes, b.node), g.nodes[b.node].children[j];
    CalleePath(g, b.node, j);
    assert CallsCounted(g, es, Some(b.node)) && CallsOf(g, Some(b.node)) == g.nodes[b.node].children;
    assert CallCounted(g, es, c);
    NameOfCallee(path, g.nodes[c.node].data.name);
    hide Tree;
    hide ContextCount;
    hide ContextTotal;
    hide Path;
    hide PathName;
  }

  lemma CalleeOrder(g: Graph, es: seq<Span>, n: nat, i: nat, j: nat)
    requires Tree(g) && Numbered(g, es) && AllRising(g) && n < |g.nodes| && i < j < |g.nodes[n].children|
    ensures g.nodes[n].children[i].node < |g.nodes| && g.nodes[n].children[j].node < |g.nodes|
    ensures var path, calls := Path(g.nodes, n), g.nodes[n].children;
            OccursBefore(es, path + [g.nodes[calls[i].node].data.name], path + [g.nodes[calls[j].node].data.name])
  {
    CalleePath(g, n, i);
    CalleePath(g, n, j);
    assert Rising(g.nodes[n].children);
    hide Path;
    hide OccursBefore;
  }

  lemma OneBlock(g: Graph, es: seq<Span>, root: nat, b: FnBlock)
    requires Tree(g) && Summaries(g, es) && Numbered(g, es) && AllRising(g) && AllAccounted(g)
    requires root < |g.nodes| && !HasParent(g.nodes, root)
    requires BlockFor(g, b) && b.fn == FnName(g.nodes, root, b.node)
    ensures exists names :: Lists(es, Path(g.nodes, b.node), b, names)
  {
    hide *;
    BlockFacts(g, b);
    var n, path := b.node, Path(g.nodes, b.node);
    NameIsPath(g.nodes, root, n);
    ChildrenListed(g, n);
    var names := CalleeLabels(g, n);
    forall j | 0 <= j < |b.callees| ensures IsCallee(es, path, b.callees[j], names[j]) {
      OneCallee(g, es, b, j);
    }
    forall i, j | 0 <= i < j < |names| ensures OccursBefore(es, path + [names[i]], path + [names[j]]) {
      CalleeOrder(g, es, n, i, j);
    }
    SelfCost(g, es, b);
    ListsFrom(es, path, b, names);
  }

  lemma BlockFacts(g: Graph, b: FnBlock)
    requires BlockFor(g, b)
    ensures b.node < |g.nodes| && |b.callees| == |g.nodes[b.node].children|
  {
  }

  lemma ChildrenListed(g: Graph, n: nat)
    requires Tree(g) && n < |g.nodes|
    ensures forall i :: 0 <= i < |g.nodes[n].children| ==> g.nodes[n].children[i].node < |g.nodes|
  {
    assert CallsValid(g, Some(n)) && CallsOf(g, Some(n)) == g.nodes[n].children;
  }

  lemma SelfCost(g: Graph, es: seq<Span>, b: FnBlock)
    requires Summaries(g, es) && AllAccounted(g) && BlockFor(g, b)
    ensures b.self == ContextTotal(es, Path(g.nodes, b.node), |es|) - SumCosts(b.callees)
  {
    var n := b.node;
    assert Accounted(g, n);
    assert g.nodes[n].total == ContextTotal(es, Path(g.nodes, n), |es|);
    hide Summaries;
    hide AllAccounted;
    CostsAreTotals(g.nodes, g.nodes[n].children, b.callees);
    hide SumCosts;
    hide ChildSum;
  }

  lemma ListsFrom(es: seq<Span>, path: seq<string>, b: FnBlock, names: seq<string>)
    requires b.fn == PathName(path) && |names| == |b.callees|
    requires forall j :: 0 <= j < |b.callees| ==> IsCallee(es, path, b.callees[j], names[j])
    requires forall i, j :: 0 <= i < j < |names| ==> OccursBefore(es, path + [names[i]], path + [names[j]])
    requires b.self == ContextTotal(es, path, |es|) - SumCosts(b.callees)
    ensures Lists(es, path, b, names)
  {
    hide IsCallee;
    hide OccursBefore;
  }

  // Whole listings.

  lemma RootIsTop(g: Graph, k: nat)
    requires Tree(g) && k < |g.roots|
    ensures g.roots[k].node < |g.nodes| && !HasParent(g.nodes, g.roots[k].node)
  {
    assert CallsOf(g, None) == g.roots && CallsValid(g, None);
  }

  lemma BlockAt(g: Graph, lists: seq<seq<FnBlock>>, k: nat, i: nat)
    requires Listings(g, lists) && k < |lists| && i < |lists[k]|
    ensures k < |g.roots| && g.roots[k].node < |g.nodes| && BlockFor(g, lists[k][i])
    ensures lists[k][i].node < |g.nodes|
    ensures lists[k][i].fn == FnName(g.nodes, g.roots[k].node, lists[k][i].node)
  {
    assert ListingOf(g, g.roots[k].node, lists[k]);
  }

  /** Every block of every listing of a thread is that of a calling context. */
  lemma BlocksAreContexts(es: seq<Span>, lists: seq<seq<FnBlock>>, k: nat, i: nat)
    requires GoodInput(es) && Listings(Build(es), lists) && k < |lists| && i < |lists[k]|
    ensures lists[k][i].node < |Build(es).nodes|
    ensures exists names :: Lists(es, Path(Build(es).nodes, lists[k][i].node), lists[k][i], names)
  {
    hide *;
    var g := Build(es);
    CallingContextTree(es);
    NodesNumbered(es);
    CallsRise(es);
    AccountedAll(es);
    BlockAt(g, lists, k, i);
    RootIsTop(g, k);
    OneBlock(g, es, g.roots[k].node, lists[k][i]);
  }

  lemma AccountedAll(es: seq<Span>)
    ensures AllAccounted(Build(es))
  {
    CostConservation(es);
  }

  /** The calling context of every event has a block. */
  lemma EveryContextIsListed(es: seq<Span>, lists: seq<seq<FnBlock>>, j: nat)
    requires GoodInput(es) && Listings(Build(es), lists) && j < |es|
    ensures exists k: nat, i: nat, names ::
              k < |lists| && i < |lists[k]| && Lists(es, ContextOf(es, j), lists[k][i], names)
  {
    var g := Build(es);
    CallingContextTree(es);
    assert HasNode(g, ContextOf(es, j));
    var n :| 0 <= n < |g.nodes| && Path(g.nodes, n) == ContextOf(es, j);
    hide *;
    ListingsCover(g, lists, n);
    var k, i := PrintedAt(lists, n);
    BlocksAreContexts(es, lists, k, i);
  }

  lemma PrintedAt(lists: seq<seq<FnBlock>>, n: nat) returns (k: nat, i: nat)
    requires PrintedOnce(lists, n)
    ensures k < |lists| && i < |lists[k]| && lists[k][i].node == n
  {
    k :| 0 <= k < |lists| && n in Visited(lists[k]);
    i :| 0 <= i < |Visited(lists[k])| && Visited(lists[k])[i] == n;
  }
}
