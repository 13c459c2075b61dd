/**
 The calling-context tree: on nested or disjoint intervals, the graph builder puts every event on
 the node of its calling context (client/call_graph.cpp).
 */
module CallContexts {
  import opened Bytes
  import opened CallGraph

  // The reference: calling contexts read off the intervals.

  predicate ValidSpans(es: seq<Span>) {
    forall i :: 0 <= i < |es| ==> es[i].start <= es[i].stop
  }

  predicate Ordered(es: seq<Span>) {
    forall i, j :: 0 <= i < j < |es| ==> es[i].start < es[j].start
  }

  /** Any two intervals nest or do not overlap. */
  predicate WellNested(es: seq<Span>) {
    forall i, j :: 0 <= i < j < |es| ==> Contains(es[i], es[j]) || es[i].stop <= es[j].start
  }

  /** The names of those among the first n events that enclose e, outermost first. */
  function EnclosingNames(es: seq<Span>, n: nat, e: Span): seq<string>
    requires n <= |es|
  {
    if n == 0 then []
    else EnclosingNames(es, n - 1, e) + (if Contains(es[n - 1], e) then [es[n - 1].name] else [])
  }

  /** The calling context of event j: the names of the events enclosing it, then its own. */
  function ContextOf(es: seq<Span>, j: nat): seq<string>
    requires j < |es|
  {
    EnclosingNames(es, j, es[j]) + [es[j].name]
  }

  /** The number of events with the given context. */
  function ContextCount(es: seq<Span>, path: seq<string>, n: nat): nat
    requires n <= |es|
  {
    if n == 0 then 0
    else ContextCount(es, path, n - 1) + (if ContextOf(es, n - 1) == path then 1 else 0)
  }

  /** The summed duration of the events with the given context. */
  function ContextTotal(es: seq<Span>, path: seq<string>, n: nat): int
    requires n <= |es|
  {
    if n == 0 then 0
    else ContextTotal(es, path, n - 1) + (if ContextOf(es, n - 1) == path then Duration(es[n - 1]) else 0)
  }

  lemma {:induction false} EnclosingPrefix(es: seq<Span>, e: Span, n: nat, x: Span)
    requires n <= |es|
    ensures EnclosingNames(es + [e], n, x) == EnclosingNames(es, n, x)
  {
    if n > 0 {
      EnclosingPrefix(es, e, n - 1, x);
    }
  }

  lemma ContextPrefix(es: seq<Span>, e: Span, j: nat)
    requires j < |es|
    ensures ContextOf(es + [e], j) == ContextOf(es, j)
  {
    EnclosingPrefix(es, e, j, es[j]);
  }

  lemma {:induction false} SummaryPrefix(es: seq<Span>, e: Span, path: seq<string>, n: nat)
    requires n <= |es|
    ensures ContextCount(es + [e], path, n) == ContextCount(es, path, n)
    ensures ContextTotal(es + [e], path, n) == ContextTotal(es, path, n)
  {
    if n > 0 {
      SummaryPrefix(es, e, path, n - 1);
      ContextPrefix(es, e, n - 1);
    }
  }

  /** One more event counts towards its own context only. */
  lemma SummaryStep(es: seq<Span>, e: Span, path: seq<string>)
    ensures var es' := es + [e];
            var here := EnclosingNames(es, |es|, e) + [e.name] == path;
            && ContextCount(es', path, |es'|) == ContextCount(es, path, |es|) + (if here then 1 else 0)
            && ContextTotal(es', path, |es'|) == ContextTotal(es, path, |es|) + (if here then Duration(e) else 0)
  {
    var es' := es + [e];
    SummaryPrefix(es, e, path, |es|);
    EnclosingPrefix(es, e, |es|, e);
  }

  lemma {:induction false} NoContext(es: seq<Span>, path: seq<string>, n: nat)
    requires n <= |es| && forall j :: 0 <= j < n ==> ContextOf(es, j) != path
    ensures ContextCount(es, path, n) == 0 && ContextTotal(es, path, n) == 0
  {
    if n > 0 {
      NoContext(es, path, n - 1);
    }
  }

  // The cursor.

  lemma {:induction false} ChainFacts(nodes: seq<TreeNode>, n: nat, k: nat)
    requires n < |nodes| && k < |Chain(nodes, n)|
    ensures var c := Chain(nodes, n);
            && |Path(nodes, n)| == |c| && c[k] < |nodes|
            && Chain(nodes, c[k]) == c[..k + 1] && Path(nodes, c[k]) == Path(nodes, n)[..k + 1]
            && Path(nodes, n)[k] == nodes[c[k]].data.name
            && (k + 1 < |c| ==> c[k] < c[k + 1])
    decreases n
  {
    var c := Chain(nodes, n);
    if HasParent(nodes, n) {
      var m := nodes[n].parent.value;
      var cm, pm, p := Chain(nodes, m), Path(nodes, m), Path(nodes, n);
      assert c == cm + [n] && p == pm + [nodes[n].data.name];
      hide Chain;
      hide Path;
      if k < |c| - 1 {
        ChainFacts(nodes, m, k);
        assert p[..k + 1] == pm[..k + 1];
        assert c[..k + 1] == cm[..k + 1];
      } else {
        ChainFacts(nodes, m, |c| - 2);
        assert c[..k + 1] == c && p[..k + 1] == p;
      }
    } else {
      assert c[..1] == c && Path(nodes, n)[..1] == Path(nodes, n);
    }
  }

  /** Climbing finds the deepest node of the chain that contains e. */
  lemma {:induction false} ClimbChain(g: Graph, n: nat, e: Span) returns (k: int)
    requires Tree(g) && n < |g.nodes|
    ensures var c := Chain(g.nodes, n);
            && -1 <= k < |c|
            && Climb(g, Some(n), e) == (if k == -1 then None else Some(c[k]))
            && (k >= 0 ==> Contains(g.nodes[c[k]].data, e))
            && (forall j :: k < j < |c| ==> !Contains(g.nodes[c[j]].data, e))
    decreases n
  {
    var c := Chain(g.nodes, n);
    assert Listed(g, n);
    if Contains(g.nodes[n].data, e) {
      k := |c| - 1;
    } else if g.nodes[n].parent.Some? {
      k := ClimbChain(g, g.nodes[n].parent.value, e);
    } else {
      k := -1;
    }
  }

  /** Each node holds the latest event merged into it. */
  predicate Latest(g: Graph, es: seq<Span>, last: seq<nat>) {
    |last| == |g.nodes| && forall n :: 0 <= n < |last| ==> last[n] < |es| && g.nodes[n].data == es[last[n]]
  }

  /** The events held by the nodes of a chain. */
  function Held(last: seq<nat>, chain: seq<nat>): (held: seq<nat>)
    requires forall k :: 0 <= k < |chain| ==> chain[k] < |last|
    ensures |held| == |chain|
    ensures forall k :: 0 <= k < |chain| ==> held[k] == last[chain[k]]
  {
    seq(|chain|, k requires 0 <= k < |chain| => last[chain[k]])
  }

  /** Events on the stack enclose one another; every other event has ended before the last one began. */
  predicate OpenStack(es: seq<Span>, stack: seq<nat>) {
    && (forall k :: 0 <= k < |stack| ==> stack[k] < |es|)
    && Increasing(stack)
    && (forall k :: 0 <= k < |stack| - 1 ==> Contains(es[stack[k]], es[stack[k + 1]]))
    && stack != [] && stack[|stack| - 1] == |es| - 1
    && (forall i :: 0 <= i < |es| ==> i in stack || es[i].stop <= es[|es| - 1].start)
  }

  ghost predicate Cursor(g: Graph, es: seq<Span>, last: seq<nat>) {
    && Latest(g, es, last)
    && (if es == [] then g.nodes == [] && g.current.None?
        else
          && g.current.Some? && g.current.value < |g.nodes|
          && OpenStack(es, Held(last, Chain(g.nodes, g.current.value))))
  }

  function Names(es: seq<Span>, stack: seq<nat>): (names: seq<string>)
    requires forall k :: 0 <= k < |stack| ==> stack[k] < |es|
    ensures |names| == |stack|
    ensures forall k :: 0 <= k < |stack| ==> names[k] == es[stack[k]].name
  {
    seq(|stack|, k requires 0 <= k < |stack| => es[stack[k]].name)
  }

  predicate Increasing(stack: seq<nat>) {
    forall k :: 0 <= k < |stack| - 1 ==> stack[k] < stack[k + 1]
  }

  /** Exactly the first m elements of the stack are below n. */
  predicate FirstBelow(stack: seq<nat>, m: nat, n: nat) {
    && m <= |stack|
    && (forall k :: 0 <= k < m ==> stack[k] < n)
    && (forall k :: m <= k < |stack| ==> n <= stack[k])
  }

  /** If exactly the events on the stack enclose e, their names are the enclosing names. */
  lemma {:induction false} EnclosingStack(es: seq<Span>, n: nat, e: Span, stack: seq<nat>, m: nat)
    requires n <= |es| && Increasing(stack) && FirstBelow(stack, m, n)
    requires forall k :: 0 <= k < |stack| ==> stack[k] < |es|
    requires forall i :: 0 <= i < |es| ==> (Contains(es[i], e) <==> i in stack)
    ensures EnclosingNames(es, n, e) == Names(es, stack[..m])
    decreases n
  {
    if n > 0 {
      if Contains(es[n - 1], e) {
        var k :| 0 <= k < |stack| && stack[k] == n - 1;
        assert k + 1 < |stack| ==> stack[k] < stack[k + 1];
        assert k == m - 1;
        forall j | 0 <= j < m - 1 ensures stack[j] < n - 1 { IncreasingBelow(stack, j, m - 1); }
        EnclosingStack(es, n - 1, e, stack, m - 1);
        assert Names(es, stack[..m]) == Names(es, stack[..m - 1]) + [es[n - 1].name];
      } else {
        assert n - 1 !in stack;
        forall j | 0 <= j < m ensures stack[j] < n - 1 { assert stack[j] in stack; }
        EnclosingStack(es, n - 1, e, stack, m);
      }
    }
  }

  lemma {:induction false} IncreasingBelow(stack: seq<nat>, j: nat, k: nat)
    requires j < k < |stack| && Increasing(stack)
    ensures stack[j] < stack[k]
    decreases k - j
  {
    if j + 1 < k {
      IncreasingBelow(stack, j + 1, k);
    }
  }

  /**
   With stack[k] enclosing e and nothing above it on the stack doing so, the first k + 1 do and no other event
   does.
   */
  lemma StackEncloses(es: seq<Span>, stack: seq<nat>, k: int, e: Span, i: nat)
    requires ValidSpans(es) && OpenStack(es, stack) && -1 <= k < |stack| && e.start <= e.stop
    requires es[|es| - 1].start < e.start
    requires k >= 0 ==> Contains(es[stack[k]], e)
    requires forall j :: k < j < |stack| ==> !Contains(es[stack[j]], e)
    requires i < |es|
    ensures Contains(es[i], e) <==> i in stack[..k + 1]
  {
    forall j | 0 <= j <= k
      ensures stack[j] in stack[..k + 1]
    {
      assert stack[..k + 1][j] == stack[j];
    }
    if i in stack[..k + 1] {
      var j :| 0 <= j <= k && stack[j] == i;
      ContainsDown(es, stack, j, k, e);
    }
  }

  lemma {:induction false} ContainsDown(es: seq<Span>, stack: seq<nat>, j: nat, k: nat, e: Span)
    requires OpenStack(es, stack) && j <= k < |stack| && Contains(es[stack[k]], e)
    ensures Contains(es[stack[j]], e)
    decreases k - j
  {
    if j < k {
      ContainsDown(es, stack, j + 1, k, e);
    }
  }

  /** The stack after the next event: what encloses it, and itself. */
  lemma NextStack(es: seq<Span>, stack: seq<nat>, k: int, e: Span)
    requires ValidSpans(es + [e]) && WellNested(es + [e]) && OpenStack(es, stack) && -1 <= k < |stack|
    requires es[|es| - 1].start < e.start
    requires k >= 0 ==> Contains(es[stack[k]], e)
    requires forall j :: k < j < |stack| ==> !Contains(es[stack[j]], e)
    ensures OpenStack(es + [e], stack[..k + 1] + [|es|])
    ensures EnclosingNames(es, |es|, e) == Names(es, stack[..k + 1])
  {
    var es' := es + [e];
    var kept := stack[..k + 1];
    assert e == es'[|es|] && forall i :: 0 <= i < |es| ==> es'[i] == es[i];
    assert ValidSpans(es);
    forall i | 0 <= i < |es|
      ensures Contains(es[i], e) <==> i in kept
    {
      StackEncloses(es, stack, k, e, i);
    }
    EnclosingStack(es, |es|, e, kept, |kept|);
    assert kept[..|kept|] == kept;
    NextOpen(es, stack, kept, e);
  }

  lemma NextOpen(es: seq<Span>, stack: seq<nat>, kept: seq<nat>, e: Span)
    requires WellNested(es + [e]) && OpenStack(es, stack) && kept <= stack
    requires forall i :: 0 <= i < |es| ==> (Contains(es[i], e) <==> i in kept)
    requires es[|es| - 1].start < e.start
    ensures OpenStack(es + [e], kept + [|es|])
  {
    var es', stack' := es + [e], kept + [|es|];
    forall i | 0 <= i < |es'|
      ensures i in stack' || es'[i].stop <= es'[|es'| - 1].start
    {
      if i == |es| {
        assert stack'[|kept|] == i;
      } else if i in kept {
        assert i in stack';
      } else {
        assert Contains(es'[i], es'[|es|]) || es'[i].stop <= es'[|es|].start;
      }
    }
    forall k | 0 <= k < |stack'| - 1
      ensures stack'[k] < stack'[k + 1] && Contains(es'[stack'[k]], es'[stack'[k + 1]])
    {
      assert stack'[k] == kept[k] == stack[k];
      if k + 1 < |kept| {
        assert stack'[k + 1] == stack[k + 1];
      } else {
        assert kept[k] in kept;
      }
    }
  }

  /** Node v now holds the event with index m. */
  function Retarget(last: seq<nat>, v: nat, m: nat): seq<nat>
    requires v <= |last|
  {
    if v == |last| then last + [m] else last[v := m]
  }

  lemma LatestStep(g: Graph, g': Graph, es: seq<Span>, last: seq<nat>, p: Option<nat>, v: nat, e: Span, d: int)
    requires Latest(g, es, last) && Added(g, g', p, v, e, d)
    ensures Latest(g', es + [e], Retarget(last, v, |es|))
  {
    forall n | 0 <= n < |g.nodes| && n != v
      ensures g'.nodes[n].data == g.nodes[n].data
    {
      assert NodeChange(g.nodes[n], g'.nodes[n], n, p, v, e, d);
    }
    assert v < |g.nodes| ==> NodeChange(g.nodes[v], g'.nodes[v], v, p, v, e, d);
  }

  /** The chain of the node the event landed on. */
  lemma ChainStep(g: Graph, g': Graph, p: Option<nat>, v: nat, e: Span, d: int)
    requires Tree(g) && Added(g, g', p, v, e, d)
    ensures v < |g'.nodes| && (p.Some? ==> p.value < v)
    ensures Chain(g'.nodes, v) == (if p.Some? then Chain(g.nodes, p.value) else []) + [v]
    ensures Path(g'.nodes, v) == (if p.Some? then Path(g.nodes, p.value) else []) + [e.name]
  {
    AddedTree(g, g', p, v, e, d);
    AddedKeepsShape(g, g', p, v, e, d);
    assert v < |g.nodes| ==> NodeChange(g.nodes[v], g'.nodes[v], v, p, v, e, d);
    assert Listed(g', v) && g'.nodes[v].parent == p && g'.nodes[v].data == e;
    if p.Some? {
      ShapeKeepsPaths(g.nodes, g'.nodes, p.value);
    }
  }

  lemma HeldStep(last: seq<nat>, chain: seq<nat>, v: nat, m: nat)
    requires v <= |last| && forall k :: 0 <= k < |chain| ==> chain[k] < v
    ensures Held(Retarget(last, v, m), chain + [v]) == Held(last, chain) + [m]
  {
  }

  /** The cursor follows the reference: the event lands on the node of its calling context. */
  lemma CursorStep(g: Graph, es: seq<Span>, last: seq<nat>, e: Span)
    requires Tree(g) && Cursor(g, es, last)
    requires ValidSpans(es + [e]) && Ordered(es + [e]) && WellNested(es + [e])
    ensures var g' := AddEvent(g, e);
            && g'.current.Some? && g'.current.value < |g'.nodes| && g'.current.value <= |last|
            && Cursor(g', es + [e], Retarget(last, g'.current.value, |es|))
            && Path(g'.nodes, g'.current.value) == EnclosingNames(es, |es|, e) + [e.name]
  {
    var g' := AddEvent(g, e);
    var p := Climb(g, g.current, e);
    var d := if p.Some? then Duration(e) else 0;
    AddEventAdds(g, e);
    var v := g'.current.value;
    AddedBounds(g, g', es, last, p, v, e, d);
    LatestStep(g, g', es, last, p, v, e, d);
    ChainStep(g, g', p, v, e, d);
    if es == [] {
      FirstCursor(g, last, e, p, v);
    } else {
      CursorMove(g, es, last, e, p, v);
    }
    hide *;
    CursorFromParts(g', es + [e], Retarget(last, v, |es|));
  }

  lemma AddedBounds(g: Graph, g': Graph, es: seq<Span>, last: seq<nat>, p: Option<nat>, v: nat, e: Span, d: int)
    requires Cursor(g, es, last) && Added(g, g', p, v, e, d)
    ensures |last| == |g.nodes| && v <= |last| && v < |g'.nodes| && g'.current == Some(v)
  {
  }

  lemma FirstCursor(g: Graph, last: seq<nat>, e: Span, p: Option<nat>, v: nat)
    requires Tree(g) && Cursor(g, [], last) && p == Climb(g, g.current, e) && v <= |last|
    ensures p.None? && OpenStack([] + [e], Held(Retarget(last, v, 0), [] + [v])) && EnclosingNames([], 0, e) == []
  {
    HeldStep(last, [], v, 0);
    assert [] + [e] == [e];
  }

  lemma CursorFromParts(g: Graph, es: seq<Span>, last: seq<nat>)
    requires Latest(g, es, last) && es != [] && g.current.Some? && g.current.value < |g.nodes|
    requires OpenStack(es, Held(last, Chain(g.nodes, g.current.value)))
    ensures Cursor(g, es, last)
  {
  }

  lemma CursorMove(g: Graph, es: seq<Span>, last: seq<nat>, e: Span, p: Option<nat>, v: nat)
    requires Tree(g) && Cursor(g, es, last) && es != []
    requires ValidSpans(es + [e]) && Ordered(es + [e]) && WellNested(es + [e])
    requires p == Climb(g, g.current, e) && (p.Some? ==> p.value < v) && v <= |last|
    ensures var chain := if p.Some? then Chain(g.nodes, p.value) else [];
            && (forall k :: 0 <= k < |chain| ==> chain[k] < v)
            && OpenStack(es + [e], Held(Retarget(last, v, |es|), chain + [v]))
            && (if p.Some? then Path(g.nodes, p.value) else []) == EnclosingNames(es, |es|, e)
  {
    hide *;
    CursorParts(g, es, last);
    var cur := g.current.value;
    var c := Chain(g.nodes, cur);
    var stack := Held(last, c);
    var k := ClimbChain(g, cur, e);
    HeldContains(g, es, last, c, k, e);
    LastStart(es, e);
    NextStack(es, stack, k, e);
    var chain := c[..k + 1];
    if k >= 0 {
      ChainFacts(g.nodes, cur, k);
      PathNames(g, es, last, cur, k);
    } else {
      assert stack[..k + 1] == [] && Names(es, []) == [];
    }
    HeldStep(last, chain, v, |es|);
    assert Held(last, chain) == stack[..k + 1];
  }

  lemma CursorParts(g: Graph, es: seq<Span>, last: seq<nat>)
    requires Cursor(g, es, last) && es != []
    ensures g.current.Some? && g.current.value < |g.nodes| && |last| == |g.nodes| && Latest(g, es, last)
    ensures OpenStack(es, Held(last, Chain(g.nodes, g.current.value)))
  {
  }

  lemma HeldContains(g: Graph, es: seq<Span>, last: seq<nat>, c: seq<nat>, k: int, e: Span)
    requires Latest(g, es, last) && -1 <= k < |c| && (forall j :: 0 <= j < |c| ==> c[j] < |g.nodes|)
    requires k >= 0 ==> Contains(g.nodes[c[k]].data, e)
    requires forall j :: k < j < |c| ==> !Contains(g.nodes[c[j]].data, e)
    ensures k >= 0 ==> Held(last, c)[k] < |es| && Contains(es[Held(last, c)[k]], e)
    ensures forall j :: k < j < |c| ==> Held(last, c)[j] < |es| && !Contains(es[Held(last, c)[j]], e)
  {
  }

  lemma LastStart(es: seq<Span>, e: Span)
    requires es != [] && Ordered(es + [e])
    ensures es[|es| - 1].start < e.start
  {
    assert (es + [e])[|es| - 1].start < (es + [e])[|es|].start;
  }

  /** The path of a node on the chain names the events held along it. */
  lemma PathNames(g: Graph, es: seq<Span>, last: seq<nat>, n: nat, k: nat)
    requires Latest(g, es, last) && n < |g.nodes| && k < |Chain(g.nodes, n)| && Chain(g.nodes, n)[k] < |g.nodes|
    ensures Path(g.nodes, Chain(g.nodes, n)[k]) == Names(es, Held(last, Chain(g.nodes, n))[..k + 1])
  {
    hide Chain;
    hide Path;
    var c := Chain(g.nodes, n);
    ChainFacts(g.nodes, n, k);
    var names := Names(es, Held(last, c)[..k + 1]);
    forall j | 0 <= j <= k
      ensures Path(g.nodes, c[k])[j] == names[j]
    {
      ChainFacts(g.nodes, n, j);
    }
  }

  // What the nodes record.

  predicate HasNode(g: Graph, path: seq<string>) {
    exists n :: 0 <= n < |g.nodes| && Path(g.nodes, n) == path
  }

  predicate CallsCounted(g: Graph, es: seq<Span>, parent: Option<nat>)
    requires parent.Some? ==> parent.value < |g.nodes|
  {
    forall i :: 0 <= i < |CallsOf(g, parent)| ==> CallCounted(g, es, CallsOf(g, parent)[i])
  }

  /** Every node records the events of its own calling context, and every event has a node. */
  ghost predicate Summaries(g: Graph, es: seq<Span>) {
    && (forall n :: 0 <= n < |g.nodes| ==> g.nodes[n].total == ContextTotal(es, Path(g.nodes, n), |es|))
    && (forall n :: 0 <= n < |g.nodes| ==> CallsCounted(g, es, Some(n)))
    && CallsCounted(g, es, None)
    && (forall j :: 0 <= j < |es| ==> HasNode(g, ContextOf(es, j)))
  }

  /** A context is new exactly when no node has its path. */
  lemma FreshContext(g: Graph, es: seq<Span>, path: seq<string>)
    requires Summaries(g, es) && !HasNode(g, path)
    ensures ContextTotal(es, path, |es|) == 0 && ContextCount(es, path, |es|) == 0
  {
    forall j | 0 <= j < |es|
      ensures ContextOf(es, j) != path
    {
      assert HasNode(g, ContextOf(es, j));
    }
    NoContext(es, path, |es|);
  }

  lemma NewNodeIsFresh(g: Graph, g': Graph, v: nat)
    requires Tree(g') && SameShape(g.nodes, g'.nodes) && v == |g.nodes| < |g'.nodes|
    ensures !HasNode(g, Path(g'.nodes, v))
  {
    if HasNode(g, Path(g'.nodes, v)) {
      var n :| 0 <= n < |g.nodes| && Path(g.nodes, n) == Path(g'.nodes, v);
      ShapeKeepsPaths(g.nodes, g'.nodes, n);
      PathInjective(g', n, v);
      assert false;
    }
  }

  /** The effect of e on the summary of the context of node n. */
  lemma NodeSummaryStep(g: Graph, g': Graph, es: seq<Span>, v: nat, e: Span, n: nat)
    requires Tree(g') && SameShape(g.nodes, g'.nodes) && v < |g'.nodes| && n < |g'.nodes|
    requires Path(g'.nodes, v) == EnclosingNames(es, |es|, e) + [e.name]
    ensures n < |g.nodes| ==> Path(g'.nodes, n) == Path(g.nodes, n)
    ensures var path, es' := Path(g'.nodes, n), es + [e];
            && ContextCount(es', path, |es'|) == ContextCount(es, path, |es|) + (if n == v then 1 else 0)
            && ContextTotal(es', path, |es'|) == ContextTotal(es, path, |es|) + (if n == v then Duration(e) else 0)
  {
    if n < |g.nodes| {
      ShapeKeepsPaths(g.nodes, g'.nodes, n);
    }
    SummaryStep(es, e, Path(g'.nodes, n));
    if n != v && Path(g'.nodes, n) == Path(g'.nodes, v) {
      PathInjective(g', n, v);
      assert false;
    }
  }

  lemma TotalsStep(g: Graph, g': Graph, es: seq<Span>, p: Option<nat>, v: nat, e: Span, d: int, n: nat)
    requires Summaries(g, es) && Tree(g') && Added(g, g', p, v, e, d) && n < |g'.nodes|
    requires Path(g'.nodes, v) == EnclosingNames(es, |es|, e) + [e.name]
    ensures g'.nodes[n].total == ContextTotal(es + [e], Path(g'.nodes, n), |es + [e]|)
  {
    AddedKeepsShape(g, g', p, v, e, d);
    NodeSummaryStep(g, g', es, v, e, n);
    if n < |g.nodes| {
      assert NodeChange(g.nodes[n], g'.nodes[n], n, p, v, e, d);
    } else {
      NewNodeIsFresh(g, g', v);
      FreshContext(g, es, Path(g'.nodes, v));
    }
  }

  lemma CountsStep(g: Graph, g': Graph, es: seq<Span>, p: Option<nat>, v: nat, e: Span, d: int, parent: Option<nat>)
    requires Tree(g) && Summaries(g, es) && Tree(g') && Added(g, g', p, v, e, d)
    requires Path(g'.nodes, v) == EnclosingNames(es, |es|, e) + [e.name]
    requires parent.Some? ==> parent.value < |g'.nodes|
    ensures CallsCounted(g', es + [e], parent)
  {
    AddedKeepsShape(g, g', p, v, e, d);
    if parent.Some? && parent.value == |g.nodes| {
      assert CallsOf(g', parent) == [];
    } else {
      assert CallsCounted(g, es, parent);
      forall i | 0 <= i < |CallsOf(g', parent)|
        ensures CallCounted(g', es + [e], CallsOf(g', parent)[i])
      {
        CallCountChange(g, g', p, v, e, d, parent, i);
        CountStep(g, g', es, v, e, if i < |CallsOf(g, parent)| then CallsOf(g, parent)[i] else Call(v, 0),
                  CallsOf(g', parent)[i]);
      }
    }
  }

  predicate CallCounted(g: Graph, es: seq<Span>, c: Call) {
    c.node < |g.nodes| && c.count == ContextCount(es, Path(g.nodes, c.node), |es|)
  }

  lemma CountStep(g: Graph, g': Graph, es: seq<Span>, v: nat, e: Span, c: Call, c': Call)
    requires Summaries(g, es) && Tree(g') && SameShape(g.nodes, g'.nodes) && v < |g'.nodes|
    requires Path(g'.nodes, v) == EnclosingNames(es, |es|, e) + [e.name]
    requires CallChange(g, g', v, c, c') && (c'.node < |g.nodes| ==> CallCounted(g, es, c))
    ensures CallCounted(g', es + [e], c')
  {
    NodeSummaryStep(g, g', es, v, e, c'.node);
    if c'.node == |g.nodes| {
      NewNodeIsFresh(g, g', v);
      FreshContext(g, es, Path(g'.nodes, v));
    }
  }

  /** Exactly the call of v is counted once more. */
  predicate CallChange(g: Graph, g': Graph, v: nat, c: Call, c': Call) {
    && c'.node < |g'.nodes|
    && (if c'.node >= |g.nodes| then c'.node == v == |g.nodes| && c'.count == 1
        else c'.node == c.node && c'.count == c.count + (if c'.node == v then 1 else 0))
  }

  lemma CallCountChange(g: Graph, g': Graph, p: Option<nat>, v: nat, e: Span, d: int, parent: Option<nat>, i: nat)
    requires Tree(g) && Tree(g') && Added(g, g', p, v, e, d)
    requires (parent.Some? ==> parent.value < |g.nodes|) && i < |CallsOf(g', parent)|
    ensures var calls, c' := CallsOf(g, parent), CallsOf(g', parent)[i];
            && CallChange(g, g', v, if i < |calls| then calls[i] else Call(v, 0), c')
            && (c'.node < |g.nodes| ==> i < |calls|)
  {
    assert CallsValid(g', parent) && CallsValid(g, parent);
    if parent == p {
      SameListChange(g, g', p, v, e, d, i);
    } else {
      OtherList(g, g', p, v, e, d, parent);
    }
  }

  lemma SameListChange(g: Graph, g': Graph, p: Option<nat>, v: nat, e: Span, d: int, i: nat)
    requires Added(g, g', p, v, e, d) && CallsValid(g, p) && i < |CallsOf(g', p)|
    ensures var calls, c' := CallsOf(g, p), CallsOf(g', p)[i];
            && CallChange(g, g', v, if i < |calls| then calls[i] else Call(v, 0), c')
            && (c'.node < |g.nodes| ==> i < |calls|)
  {
    var calls, calls' := CallsOf(g, p), CallsOf(g', p);
    if v < |g.nodes| {
      var j :| 0 <= j < |calls| && calls[j].node == v && calls' == calls[j := Call(v, calls[j].count + 1)];
    }
  }

  /** Lists of other callers are as before and do not mention v. */
  lemma OtherList(g: Graph, g': Graph, p: Option<nat>, v: nat, e: Span, d: int, parent: Option<nat>)
    requires Added(g, g', p, v, e, d) && parent != p && (parent.Some? ==> parent.value < |g.nodes|)
    requires CallsValid(g, parent)
    ensures CallsOf(g', parent) == CallsOf(g, parent)
    ensures forall i :: 0 <= i < |CallsOf(g, parent)| ==>
              CallsOf(g, parent)[i].node < |g.nodes| && CallsOf(g, parent)[i].node != v
  {
    if parent.Some? {
      assert NodeChange(g.nodes[parent.value], g'.nodes[parent.value], parent.value, p, v, e, d);
    }
  }

  /** Every event, the new one included, has a node. */
  lemma NodesStep(g: Graph, g': Graph, es: seq<Span>, v: nat, e: Span, j: nat)
    requires Summaries(g, es) && SameShape(g.nodes, g'.nodes) && v < |g'.nodes| && j < |es + [e]|
    requires Path(g'.nodes, v) == EnclosingNames(es, |es|, e) + [e.name]
    ensures HasNode(g', ContextOf(es + [e], j))
  {
    if j < |es| {
      ContextPrefix(es, e, j);
      assert HasNode(g, ContextOf(es, j));
      var n :| 0 <= n < |g.nodes| && Path(g.nodes, n) == ContextOf(es, j);
      ShapeKeepsPaths(g.nodes, g'.nodes, n);
    } else {
      EnclosingPrefix(es, e, |es|, e);
    }
  }

  lemma SummariesStep(g: Graph, g': Graph, es: seq<Span>, p: Option<nat>, v: nat, e: Span, d: int)
    requires Tree(g) && Summaries(g, es) && Tree(g') && Added(g, g', p, v, e, d)
    requires Path(g'.nodes, v) == EnclosingNames(es, |es|, e) + [e.name]
    ensures Summaries(g', es + [e])
  {
    AddedKeepsShape(g, g', p, v, e, d);
    var es' := es + [e];
    forall n | 0 <= n < |g'.nodes|
      ensures g'.nodes[n].total == ContextTotal(es', Path(g'.nodes, n), |es'|) && CallsCounted(g', es', Some(n))
    {
      TotalsStep(g, g', es, p, v, e, d, n);
      CountsStep(g, g', es, p, v, e, d, Some(n));
    }
    CountsStep(g, g', es, p, v, e, d, None);
    forall j | 0 <= j < |es'| ensures HasNode(g', ContextOf(es', j)) { NodesStep(g, g', es, v, e, j); }
  }

  // Whole inputs.

  function EmptyGraph(): Graph {
    Graph([], [], None)
  }

  /** The graph after all the given events. */
  ghost function Build(es: seq<Span>): (g: Graph)
    ensures Tree(g)
  {
    if es == [] then EmptyGraph()
    else
      var g := Build(es[..|es| - 1]);
      AddEventTree(g, es[|es| - 1]);
      AddEvent(g, es[|es| - 1])
  }

  lemma AddEventTree(g: Graph, e: Span)
    requires Tree(g)
    ensures Tree(AddEvent(g, e))
  {
    AddEventAdds(g, e);
    var p := Climb(g, g.current, e);
    AddedTree(g, AddEvent(g, e), p, AddEvent(g, e).current.value, e, if p.Some? then Duration(e) else 0);
  }

  predicate GoodInput(es: seq<Span>) {
    ValidSpans(es) && Ordered(es) && WellNested(es)
  }

  lemma GoodPrefix(es: seq<Span>, n: nat)
    requires GoodInput(es) && n <= |es|
    ensures GoodInput(es[..n])
  {
  }

  /** The index of the latest event held by each node. */
  ghost function LastHeld(es: seq<Span>): seq<nat>
  {
    if es == [] then []
    else
      var before := LastHeld(es[..|es| - 1]);
      var v := Build(es).current;
      if v.Some? && v.value <= |before| then Retarget(before, v.value, |es| - 1) else before
  }

  /**
   The main result.  For every input whose starts are distinct and in order and whose intervals nest
   or do not overlap: the latest event is at the cursor, on the node whose path is its calling
   context; every node's count and total are those of its calling context; every event has a node.
   */
  lemma {:induction false} CallingContextTree(es: seq<Span>)
    requires GoodInput(es)
    ensures Cursor(Build(es), es, LastHeld(es)) && Summaries(Build(es), es)
    ensures es != [] ==> Build(es).current.Some? && Build(es).current.value < |Build(es).nodes|
                         && Path(Build(es).nodes, Build(es).current.value) == ContextOf(es, |es| - 1)
  {
    if es != [] {
      var before, e := es[..|es| - 1], es[|es| - 1];
      assert es == before + [e];
      GoodPrefix(es, |es| - 1);
      CallingContextTree(before);
      ContextStep(Build(before), before, LastHeld(before), e);
      EnclosingPrefix(before, e, |before|, e);
    }
  }

  lemma ContextStep(g: Graph, es: seq<Span>, last: seq<nat>, e: Span)
    requires Tree(g) && Cursor(g, es, last) && Summaries(g, es) && GoodInput(es + [e])
    ensures var g' := AddEvent(g, e);
            && g'.current.Some? && g'.current.value < |g'.nodes| && g'.current.value <= |last|
            && Cursor(g', es + [e], Retarget(last, g'.current.value, |es|))
            && Summaries(g', es + [e])
            && Path(g'.nodes, g'.current.value) == EnclosingNames(es, |es|, e) + [e.name]
  {
    var g' := AddEvent(g, e);
    var p := Climb(g, g.current, e);
    hide *;
    GoodParts(es + [e]);
    CursorStep(g, es, last, e);
    AddEventAdds(g, e);
    AddEventTree(g, e);
    SummariesStep(g, g', es, p, g'.current.value, e, if p.Some? then Duration(e) else 0);
  }

  lemma GoodParts(es: seq<Span>)
    requires GoodInput(es)
    ensures ValidSpans(es) && Ordered(es) && WellNested(es)
  {
  }
}
