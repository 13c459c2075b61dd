/**
 Costs recorded in the call graph: durations are conserved on every input, and on nested or disjoint
 intervals a node's children never account for more time than the node itself
 (client/call_graph.cpp, client/callgrind_converter.cpp).
 */
module CallCosts {
  import opened Bytes
  import opened CallGraph
  import opened CallContexts

  // Conservation.

  function SumTotals(nodes: seq<TreeNode>): int {
    if nodes == [] then 0 else SumTotals(nodes[..|nodes| - 1]) + nodes[|nodes| - 1].total
  }

  function SumDurations(es: seq<Span>): int {
    if es == [] then 0 else SumDurations(es[..|es| - 1]) + Duration(es[|es| - 1])
  }

  /** The summed totals of the callees in a list. */
  function ChildSum(nodes: seq<TreeNode>, calls: seq<Call>): int
    requires forall i :: 0 <= i < |calls| ==> calls[i].node < |nodes|
  {
    if calls == [] then 0
    else ChildSum(nodes, calls[..|calls| - 1]) + nodes[calls[|calls| - 1].node].total
  }

  lemma {:induction false} SumOneChange(a: seq<TreeNode>, b: seq<TreeNode>, v: nat, d: int)
    requires |a| == |b| && (forall n :: 0 <= n < |a| ==> b[n].total == a[n].total + (if n == v then d else 0))
    ensures SumTotals(b) == SumTotals(a) + (if v < |a| then d else 0)
    decreases |a|
  {
    if a != [] {
      SumOneChange(a[..|a| - 1], b[..|b| - 1], v, d);
    }
  }

  lemma SumTotalsStep(g: Graph, g': Graph, p: Option<nat>, v: nat, e: Span, d: int)
    requires Added(g, g', p, v, e, d)
    ensures SumTotals(g'.nodes) == SumTotals(g.nodes) + Duration(e)
  {
    AddedTotals(g, g', p, v, e, d);
    hide Added;
    hide SumTotals;
    var kept := g'.nodes[..|g.nodes|];
    SumOneChange(g.nodes, kept, v, Duration(e));
    if v < |g.nodes| {
      assert kept == g'.nodes;
    } else {
      SumTotalsSnoc(kept, g'.nodes[v]);
      assert g'.nodes == kept + [g'.nodes[v]];
    }
  }

  /** What an added event does to the totals. */
  lemma AddedTotals(g: Graph, g': Graph, p: Option<nat>, v: nat, e: Span, d: int)
    requires Added(g, g', p, v, e, d)
    ensures v <= |g.nodes| && |g'.nodes| == (if v == |g.nodes| then v + 1 else |g.nodes|)
    ensures forall n :: 0 <= n < |g.nodes| ==>
              g'.nodes[n].total == g.nodes[n].total + (if n == v then Duration(e) else 0)
    ensures v == |g.nodes| ==> g'.nodes[v].total == Duration(e)
  {
    forall n | 0 <= n < |g.nodes|
      ensures g'.nodes[n].total == g.nodes[n].total + (if n == v then Duration(e) else 0)
    {
      assert NodeChange(g.nodes[n], g'.nodes[n], n, p, v, e, d);
    }
  }

  lemma SumTotalsSnoc(nodes: seq<TreeNode>, n: TreeNode)
    ensures SumTotals(nodes + [n]) == SumTotals(nodes) + n.total
  {
    assert (nodes + [n])[..|nodes|] == nodes;
  }

  lemma {:induction false} ChildSumKept(a: seq<TreeNode>, b: seq<TreeNode>, calls: seq<Call>, calls': seq<Call>, v: nat,
                                        d: int)
    requires |calls| == |calls'|
             && (forall i :: 0 <= i < |calls| ==> calls[i].node < |a| && calls'[i].node == calls[i].node)
    requires |a| <= |b| && (forall n :: 0 <= n < |a| ==> b[n].total == a[n].total + (if n == v then d else 0))
    requires forall i :: 0 <= i < |calls| ==> calls[i].node != v
    ensures ChildSum(b, calls') == ChildSum(a, calls)
    decreases |calls|
  {
    if calls != [] {
      ChildSumKept(a, b, calls[..|calls| - 1], calls'[..|calls| - 1], v, d);
    }
  }

  lemma {:induction false} ChildSumOne(a: seq<TreeNode>, b: seq<TreeNode>, calls: seq<Call>, calls': seq<Call>, v: nat,
                                       d: int, k: nat)
    requires |calls| == |calls'|
             && (forall i :: 0 <= i < |calls| ==> calls[i].node < |a| && calls'[i].node == calls[i].node)
    requires |a| <= |b| && (forall n :: 0 <= n < |a| ==> b[n].total == a[n].total + (if n == v then d else 0))
    requires k < |calls| && forall i :: 0 <= i < |calls| ==> (calls[i].node == v <==> i == k)
    ensures ChildSum(b, calls') == ChildSum(a, calls) + d
    decreases |calls|
  {
    var n := |calls| - 1;
    if k == n {
      ChildSumKept(a, b, calls[..n], calls'[..n], v, d);
    } else {
      ChildSumOne(a, b, calls[..n], calls'[..n], v, d, k);
    }
  }

  /** What a node charges to its callees is what the callees record. */
  predicate Accounted(g: Graph, n: nat)
    requires n < |g.nodes|
  {
    && (forall i :: 0 <= i < |g.nodes[n].children| ==> g.nodes[n].children[i].node < |g.nodes|)
    && g.nodes[n].childTotal == ChildSum(g.nodes, g.nodes[n].children)
  }

  lemma CallerAccounted(g: Graph, g': Graph, p: nat, v: nat, e: Span)
    requires Tree(g) && Added(g, g', Some(p), v, e, Duration(e)) && Accounted(g, p)
    ensures Accounted(g', p)
  {
    AddedTotals(g, g', Some(p), v, e, Duration(e));
    assert CallsValid(g, Some(p)) && NodeChange(g.nodes[p], g'.nodes[p], p, Some(p), v, e, Duration(e));
    CalleeListSum(g.nodes, g'.nodes, g.nodes[p].children, g'.nodes[p].children, v, e);
  }

  lemma CalleeListSum(a: seq<TreeNode>, b: seq<TreeNode>, calls: seq<Call>, calls': seq<Call>, v: nat, e: Span)
    requires v <= |a| <= |b| && v < |b| && OneMoreCall(calls, calls', v, v == |a|)
    requires forall n :: 0 <= n < |a| ==> b[n].total == a[n].total + (if n == v then Duration(e) else 0)
    requires v == |a| ==> b[v].total == Duration(e)
    requires forall i :: 0 <= i < |calls| ==> calls[i].node < |a|
    requires forall i, j :: 0 <= i < j < |calls| ==> a[calls[i].node].data.name != a[calls[j].node].data.name
    ensures forall i :: 0 <= i < |calls'| ==> calls'[i].node < |b|
    ensures ChildSum(b, calls') == ChildSum(a, calls) + Duration(e)
  {
    if v < |a| {
      var k :| 0 <= k < |calls| && calls[k].node == v && calls' == calls[k := Call(v, calls[k].count + 1)];
      ChildSumOne(a, b, calls, calls', v, Duration(e), k);
    } else {
      ChildSumKept(a, b, calls, calls, v, Duration(e));
      assert calls'[..|calls|] == calls;
    }
  }

  lemma OthersAccounted(g: Graph, g': Graph, p: Option<nat>, v: nat, e: Span, d: int, n: nat)
    requires Tree(g) && Added(g, g', p, v, e, d) && n < |g.nodes| && Some(n) != p && Accounted(g, n)
    ensures Accounted(g', n)
  {
    AddedTotals(g, g', p, v, e, d);
    assert CallsValid(g, Some(n)) && NodeChange(g.nodes[n], g'.nodes[n], n, p, v, e, d);
    OtherList(g, g', p, v, e, d, Some(n));
    ChildSumKept(g.nodes, g'.nodes, g.nodes[n].children, g'.nodes[n].children, v, Duration(e));
  }

  /**
   On every input, in any order: the totals of all nodes add up to the durations of all events, and
   every node's childTotal is the sum of its callees' totals.
   */
  lemma {:induction false} CostConservation(es: seq<Span>)
    ensures SumTotals(Build(es).nodes) == SumDurations(es)
    ensures forall n :: 0 <= n < |Build(es).nodes| ==> Accounted(Build(es), n)
  {
    if es != [] {
      var g, e := Build(es[..|es| - 1]), es[|es| - 1];
      CostConservation(es[..|es| - 1]);
      AddEventAccounted(g, e);
    }
  }

  lemma AddEventAccounted(g: Graph, e: Span)
    requires Tree(g) && forall n :: 0 <= n < |g.nodes| ==> Accounted(g, n)
    ensures SumTotals(AddEvent(g, e).nodes) == SumTotals(g.nodes) + Duration(e)
    ensures forall n :: 0 <= n < |AddEvent(g, e).nodes| ==> Accounted(AddEvent(g, e), n)
  {
    var g' := AddEvent(g, e);
    var p := Climb(g, g.current, e);
    var d := if p.Some? then Duration(e) else 0;
    AddEventAdds(g, e);
    SumTotalsStep(g, g', p, g'.current.value, e, d);
    forall n | 0 <= n < |g'.nodes|
      ensures Accounted(g', n)
    {
      AccountedStep(g, g', p, g'.current.value, e, d, n);
    }
  }

  lemma AccountedStep(g: Graph, g': Graph, p: Option<nat>, v: nat, e: Span, d: int, n: nat)
    requires Tree(g) && Added(g, g', p, v, e, d) && (p.Some? ==> d == Duration(e)) && n < |g'.nodes|
    requires n < |g.nodes| ==> Accounted(g, n)
    ensures Accounted(g', n)
  {
    if n == |g.nodes| {
      assert g'.nodes[n].children == [];
    } else if p == Some(n) {
      CallerAccounted(g, g', n, v, e);
    } else {
      OthersAccounted(g, g', p, v, e, d, n);
    }
  }

  // Self time.

  /** The part of an open event's time that none of its callees so far can have used. */
  function OpenTime(es: seq<Span>, stack: seq<nat>, k: nat): int
    requires k < |stack| && forall j :: 0 <= j < |stack| ==> stack[j] < |es|
  {
    if k == |stack| - 1 then Duration(es[stack[k]]) else es[stack[k]].stop - es[stack[k + 1]].stop
  }

  predicate ChainBounded(nodes: seq<TreeNode>, es: seq<Span>, chain: seq<nat>, stack: seq<nat>)
    requires |stack| == |chain| && (forall k :: 0 <= k < |chain| ==> chain[k] < |nodes| && stack[k] < |es|)
  {
    forall k :: 0 <= k < |chain| ==>
                  nodes[chain[k]].childTotal + OpenTime(es, stack, k) <= nodes[chain[k]].total
  }

  predicate RestBounded(nodes: seq<TreeNode>, chain: seq<nat>) {
    forall n :: 0 <= n < |nodes| && n !in chain ==> nodes[n].childTotal <= nodes[n].total
  }

  predicate NoOverrun(nodes: seq<TreeNode>) {
    forall n :: 0 <= n < |nodes| ==> nodes[n].total <= nodes[n].data.stop
  }

  predicate DistinctLast(last: seq<nat>) {
    forall m, n :: 0 <= m < n < |last| ==> last[m] != last[n]
  }

  /** The bounds while the stack of open events is `stack`, held by the nodes of `chain`. */
  ghost predicate Bounded(nodes: seq<TreeNode>, es: seq<Span>, last: seq<nat>, chain: seq<nat>, stack: seq<nat>) {
    && |stack| == |chain| && (forall k :: 0 <= k < |chain| ==> chain[k] < |nodes| && stack[k] < |es|)
    && ChainBounded(nodes, es, chain, stack) && RestBounded(nodes, chain) && NoOverrun(nodes) && DistinctLast(last)
  }

  /** Open time is never negative. */
  lemma OpenTimeBound(es: seq<Span>, stack: seq<nat>, k: nat)
    requires ValidSpans(es) && OpenStack(es, stack) && k < |stack|
    ensures OpenTime(es, stack, k) >= 0
  {
  }

  /** Within the bounds no node is charged more than it took. */
  lemma BoundedNode(nodes: seq<TreeNode>, es: seq<Span>, last: seq<nat>, chain: seq<nat>, stack: seq<nat>, n: nat)
    requires ValidSpans(es) && OpenStack(es, stack) && Bounded(nodes, es, last, chain, stack) && n < |nodes|
    ensures nodes[n].childTotal <= nodes[n].total
  {
    if n in chain {
      var k :| 0 <= k < |chain| && chain[k] == n;
      OpenTimeBound(es, stack, k);
    }
  }

  /** The caller still has room for the new callee. */
  lemma CallerRoom(es: seq<Span>, stack: seq<nat>, k: nat, e: Span)
    requires ValidSpans(es + [e]) && WellNested(es + [e]) && OpenStack(es, stack) && k < |stack|
    requires Contains(es[stack[k]], e) && es[|es| - 1].start < e.start
    requires forall j :: k < j < |stack| ==> !Contains(es[stack[j]], e)
    ensures Duration(e) + (es[stack[k]].stop - e.stop) <= OpenTime(es, stack, k)
  {
    if k < |stack| - 1 {
      var es' := es + [e];
      var i := stack[k + 1];
      assert !Contains(es[i], e);
      assert Contains(es'[i], es'[|es|]) || es'[i].stop <= es'[|es|].start;
    }
  }

  /** An event that is no longer open when e starts has ended by then. */
  lemma ClosedBefore(es: seq<Span>, stack: seq<nat>, e: Span, i: nat)
    requires OpenStack(es + [e], stack) && i < |es| && i !in stack
    ensures es[i].stop <= e.start
  {
    assert (es + [e])[i] == es[i] && (es + [e])[|es|] == e;
  }

  /** The next event e is enclosed by the events of the stack up to position k and by no others. */
  predicate Enclosed(es: seq<Span>, stack: seq<nat>, k: int, e: Span) {
    && es != [] && ValidSpans(es) && ValidSpans(es + [e]) && WellNested(es + [e]) && es[|es| - 1].start < e.start
    && OpenStack(es, stack) && -1 <= k < |stack|
    && (k >= 0 ==> Contains(es[stack[k]], e))
    && (forall j :: k < j < |stack| ==> !Contains(es[stack[j]], e))
  }

  function StackAfter(stack: seq<nat>, k: int, m: nat): seq<nat>
    requires -1 <= k < |stack|
  {
    stack[..k + 1] + [m]
  }

  lemma OpenTimeStep(es: seq<Span>, stack: seq<nat>, k: int, e: Span, j: nat)
    requires Enclosed(es, stack, k, e) && j <= k
    ensures var stack' := StackAfter(stack, k, |es|);
            && (forall i :: 0 <= i < |stack'| ==> stack'[i] < |es + [e]|)
            && OpenTime(es + [e], stack', j) == (if j < k then OpenTime(es, stack, j) else es[stack[k]].stop - e.stop)
  {
    var stack' := StackAfter(stack, k, |es|);
    assert stack'[j] == stack[j];
    assert j < k ==> stack'[j + 1] == stack[j + 1];
  }

  /** A node that stays open keeps its bound; the caller has room for the new callee. */
  lemma KeptNode(a: TreeNode, b: TreeNode, es: seq<Span>, stack: seq<nat>, k: int, e: Span, j: nat)
    requires Enclosed(es, stack, k, e) && j <= k
    requires b.total == a.total && b.childTotal == a.childTotal + (if j == k then Duration(e) else 0)
    requires a.childTotal + OpenTime(es, stack, j) <= a.total
    ensures forall i :: 0 <= i < |StackAfter(stack, k, |es|)| ==> StackAfter(stack, k, |es|)[i] < |es + [e]|
    ensures b.childTotal + OpenTime(es + [e], StackAfter(stack, k, |es|), j) <= b.total
  {
    OpenTimeStep(es, stack, k, e, j);
    if j == k {
      CallerRoom(es, stack, k, e);
    }
  }

  /** Adding e at node v, below the node at position k of the chain. */
  ghost predicate Landing(g: Graph, g': Graph, chain: seq<nat>, k: int, v: nat, e: Span) {
    && -1 <= k < |chain| && (forall j :: 0 <= j < |chain| ==> chain[j] < |g.nodes|)
    && (forall j :: 0 <= j <= k ==> chain[j] < v)
    && (forall i, j :: 0 <= i < j < |chain| ==> chain[i] < chain[j])
    && Added(g, g', Caller(chain, k), v, e, Charged(k, e))
  }

  function Caller(chain: seq<nat>, k: int): Option<nat>
    requires -1 <= k < |chain|
  {
    if k == -1 then None else Some(chain[k])
  }

  function Charged(k: int, e: Span): int {
    if k == -1 then 0 else Duration(e)
  }

  /** What happens to a node that existed before. */
  lemma LandingNode(g: Graph, g': Graph, chain: seq<nat>, k: int, v: nat, e: Span, n: nat)
    requires Landing(g, g', chain, k, v, e) && n < |g.nodes|
    ensures n < |g'.nodes| && g'.nodes[n].data == (if n == v then e else g.nodes[n].data)
    ensures g'.nodes[n].total == g.nodes[n].total + (if n == v then Duration(e) else 0)
    ensures g'.nodes[n].childTotal == g.nodes[n].childTotal + (if k >= 0 && n == chain[k] then Duration(e) else 0)
  {
    assert NodeChange(g.nodes[n], g'.nodes[n], n, Caller(chain, k), v, e, Charged(k, e));
  }

  lemma ChainBoundedStep(g: Graph, g': Graph, es: seq<Span>, last: seq<nat>, chain: seq<nat>, stack: seq<nat>, k: int,
                         v: nat, e: Span)
    requires Landing(g, g', chain, k, v, e) && Enclosed(es, stack, k, e) && Bounded(g.nodes, es, last, chain, stack)
    ensures var chain', stack' := chain[..k + 1] + [v], StackAfter(stack, k, |es|);
            && (forall j :: 0 <= j < |chain'| ==> chain'[j] < |g'.nodes| && stack'[j] < |es + [e]|)
            && ChainBounded(g'.nodes, es + [e], chain', stack')
  {
    hide Landing;
    hide OpenTime;
    hide Enclosed;
    hide Bounded;
    AfterIndices(g, g', es, last, chain, stack, k, v, e);
    var chain', stack', es' := chain[..k + 1] + [v], StackAfter(stack, k, |es|), es + [e];
    forall j | 0 <= j < |chain'|
      ensures g'.nodes[chain'[j]].childTotal + OpenTime(es', stack', j) <= g'.nodes[chain'[j]].total
    {
      if j <= k {
        KeptBounded(g, g', es, last, chain, stack, k, v, e, j);
      } else {
        NewTopBounded(g, g', es, last, chain, stack, k, v, e);
        NewTopOpenTime(es, stack, k, e);
      }
    }
  }

  lemma AfterIndices(g: Graph, g': Graph, es: seq<Span>, last: seq<nat>, chain: seq<nat>, stack: seq<nat>, k: int,
                     v: nat, e: Span)
    requires Landing(g, g', chain, k, v, e) && Enclosed(es, stack, k, e) && Bounded(g.nodes, es, last, chain, stack)
    ensures -1 <= k < |chain| == |stack|
    ensures var chain', stack' := chain[..k + 1] + [v], StackAfter(stack, k, |es|);
            |chain'| == |stack'| && forall j :: 0 <= j < |chain'| ==> chain'[j] < |g'.nodes| && stack'[j] < |es + [e]|
  {
    var chain', stack', es' := chain[..k + 1] + [v], StackAfter(stack, k, |es|), es + [e];
    hide OpenTime;
    hide ChainBounded;
    forall j | 0 <= j < |chain'|
      ensures chain'[j] < |g'.nodes| && stack'[j] < |es'|
    {
      assert j <= k ==> chain'[j] == chain[j] && stack'[j] == stack[j];
    }
  }

  lemma NewTopOpenTime(es: seq<Span>, stack: seq<nat>, k: int, e: Span)
    requires -1 <= k < |stack|
    requires forall i :: 0 <= i < |StackAfter(stack, k, |es|)| ==> StackAfter(stack, k, |es|)[i] < |es + [e]|
    ensures OpenTime(es + [e], StackAfter(stack, k, |es|), k + 1) == Duration(e)
  {
  }

  lemma KeptBounded(g: Graph, g': Graph, es: seq<Span>, last: seq<nat>, chain: seq<nat>, stack: seq<nat>, k: int,
                    v: nat, e: Span, j: nat)
    requires Landing(g, g', chain, k, v, e) && Enclosed(es, stack, k, e) && Bounded(g.nodes, es, last, chain, stack)
    requires j <= k
    ensures forall i :: 0 <= i < |StackAfter(stack, k, |es|)| ==> StackAfter(stack, k, |es|)[i] < |es + [e]|
    ensures chain[j] < |g'.nodes|
    ensures g'.nodes[chain[j]].childTotal + OpenTime(es + [e], StackAfter(stack, k, |es|), j)
            <= g'.nodes[chain[j]].total
  {
    LandingNode(g, g', chain, k, v, e, chain[j]);
    assert j < k ==> chain[j] < chain[k];
    assert chain[j] < v;
    assert g.nodes[chain[j]].childTotal + OpenTime(es, stack, j) <= g.nodes[chain[j]].total;
    hide OpenTime;
    hide StackAfter;
    hide Enclosed;
    KeptNode(g.nodes[chain[j]], g'.nodes[chain[j]], es, stack, k, e, j);
  }

  lemma NewTopBounded(g: Graph, g': Graph, es: seq<Span>, last: seq<nat>, chain: seq<nat>, stack: seq<nat>, k: int,
                      v: nat, e: Span)
    requires Landing(g, g', chain, k, v, e) && Enclosed(es, stack, k, e) && Bounded(g.nodes, es, last, chain, stack)
    ensures v < |g'.nodes| && g'.nodes[v].childTotal + Duration(e) <= g'.nodes[v].total
  {
    if v < |g.nodes| {
      LandingNode(g, g', chain, k, v, e, v);
      BoundedNode(g.nodes, es, last, chain, stack, v);
    }
  }

  lemma RestBoundedStep(g: Graph, g': Graph, es: seq<Span>, last: seq<nat>, chain: seq<nat>, stack: seq<nat>, k: int,
                        v: nat, e: Span)
    requires Landing(g, g', chain, k, v, e) && Enclosed(es, stack, k, e) && Bounded(g.nodes, es, last, chain, stack)
    ensures RestBounded(g'.nodes, chain[..k + 1] + [v])
  {
    var chain' := chain[..k + 1] + [v];
    assert chain'[k + 1] == v && (k >= 0 ==> chain'[k] == chain[k]);
    forall n | 0 <= n < |g'.nodes| && n !in chain'
      ensures g'.nodes[n].childTotal <= g'.nodes[n].total
    {
      LandingNode(g, g', chain, k, v, e, n);
      BoundedNode(g.nodes, es, last, chain, stack, n);
    }
  }

  lemma NoOverrunStep(g: Graph, g': Graph, es: seq<Span>, last: seq<nat>, chain: seq<nat>, stack: seq<nat>, k: int,
                      v: nat, e: Span)
    requires Landing(g, g', chain, k, v, e) && Enclosed(es, stack, k, e) && NoOverrun(g.nodes)
    requires Latest(g, es, last) && DistinctLast(last) && stack == Held(last, chain)
    ensures NoOverrun(g'.nodes)
  {
    forall n | 0 <= n < |g'.nodes|
      ensures g'.nodes[n].total <= g'.nodes[n].data.stop
    {
      if n < |g.nodes| {
        LandingNode(g, g', chain, k, v, e, n);
        if n == v {
          MergedIsClosed(g, g', es, last, chain, stack, k, v, e);
        }
      }
    }
  }

  /** The event a node held before is over when the next one is merged into it. */
  lemma MergedIsClosed(g: Graph, g': Graph, es: seq<Span>, last: seq<nat>, chain: seq<nat>, stack: seq<nat>, k: int,
                       v: nat, e: Span)
    requires Landing(g, g', chain, k, v, e) && Enclosed(es, stack, k, e)
    requires Latest(g, es, last) && DistinctLast(last) && stack == Held(last, chain) && v < |g.nodes|
    ensures g.nodes[v].data.stop <= e.start
  {
    NextStack(es, stack, k, e);
    var stack' := stack[..k + 1] + [|es|];
    hide OpenStack;
    hide WellNested;
    hide Added;
    forall j | 0 <= j < |stack'|
      ensures stack'[j] != last[v]
    {
      if j <= k {
        assert stack'[j] == last[chain[j]] && chain[j] < v;
      }
    }
    ClosedBefore(es, stack', e, last[v]);
  }

  lemma DistinctLastStep(g: Graph, es: seq<Span>, last: seq<nat>, v: nat)
    requires Latest(g, es, last) && DistinctLast(last) && v <= |last|
    ensures DistinctLast(Retarget(last, v, |es|))
  {
  }

  ghost predicate BoundedGraph(g: Graph, es: seq<Span>, last: seq<nat>)
    requires Cursor(g, es, last)
  {
    es != [] ==>
      Bounded(g.nodes, es, last, Chain(g.nodes, g.current.value), Held(last, Chain(g.nodes, g.current.value)))
  }

  lemma {:induction false} ChainIncreasing(nodes: seq<TreeNode>, n: nat, i: nat, j: nat)
    requires n < |nodes| && i < j < |Chain(nodes, n)|
    ensures Chain(nodes, n)[i] < Chain(nodes, n)[j]
    decreases j - i
  {
    ChainFacts(nodes, n, i);
    if i + 1 < j {
      ChainIncreasing(nodes, n, i + 1, j);
    }
  }

  lemma LandingStep(g: Graph, e: Span) returns (k: int)
    requires Tree(g) && g.current.Some? && g.current.value < |g.nodes|
    ensures var g', chain := AddEvent(g, e), Chain(g.nodes, g.current.value);
            && g'.current.Some? && -1 <= k < |chain| && Landing(g, g', chain, k, g'.current.value, e)
            && g'.current.value < |g'.nodes| && Chain(g'.nodes, g'.current.value) == chain[..k + 1] + [g'.current.value]
            && (k >= 0 ==> Contains(g.nodes[chain[k]].data, e))
            && (forall j :: k < j < |chain| ==> !Contains(g.nodes[chain[j]].data, e))
  {
    var g', cur := AddEvent(g, e), g.current.value;
    var chain := Chain(g.nodes, cur);
    var p := Climb(g, g.current, e);
    AddEventAdds(g, e);
    k := ClimbChain(g, cur, e);
    ChainStep(g, g', p, g'.current.value, e, if p.Some? then Duration(e) else 0);
    hide *;
    if k >= 0 {
      ChainFacts(g.nodes, cur, k);
    }
    forall i, j | 0 <= i < j < |chain| ensures chain[i] < chain[j] { ChainIncreasing(g.nodes, cur, i, j); }
    LandingFromParts(g, g', chain, k, g'.current.value, e);
  }

  lemma LandingFromParts(g: Graph, g': Graph, chain: seq<nat>, k: int, v: nat, e: Span)
    requires -1 <= k < |chain| && (forall j :: 0 <= j < |chain| ==> chain[j] < |g.nodes|)
    requires forall i, j :: 0 <= i < j < |chain| ==> chain[i] < chain[j]
    requires k >= 0 ==> chain[k] < v
    requires var p := if k == -1 then None else Some(chain[k]);
             Added(g, g', p, v, e, if p.Some? then Duration(e) else 0)
    ensures Landing(g, g', chain, k, v, e)
  {
  }

  lemma BoundedStep(g: Graph, es: seq<Span>, last: seq<nat>, e: Span)
    requires Tree(g) && Cursor(g, es, last) && BoundedGraph(g, es, last) && es != [] && GoodInput(es)
             && GoodInput(es + [e])
    requires var g' := AddEvent(g, e);
             g'.current.Some? && g'.current.value <= |last|
             && Cursor(g', es + [e], Retarget(last, g'.current.value, |es|))
    ensures BoundedGraph(AddEvent(g, e), es + [e], Retarget(last, AddEvent(g, e).current.value, |es|))
  {
    var g', chain := AddEvent(g, e), Chain(g.nodes, g.current.value);
    var v, stack := g'.current.value, Held(last, chain);
    CursorParts(g, es, last);
    var k := LandingStep(g, e);
    HeldContains(g, es, last, chain, k, e);
    LastStart(es, e);
    assert Enclosed(es, stack, k, e);
    hide *;
    BoundedAfter(g, g', es, last, chain, stack, k, v, e);
    BoundedGraphFromParts(g', es + [e], Retarget(last, v, |es|), chain[..k + 1] + [v], StackAfter(stack, k, |es|));
  }

  lemma BoundedGraphFromParts(g: Graph, es: seq<Span>, last: seq<nat>, chain: seq<nat>, stack: seq<nat>)
    requires Cursor(g, es, last) && es != [] && g.current.Some? && g.current.value < |g.nodes|
    requires chain == Chain(g.nodes, g.current.value) && stack == Held(last, chain)
    requires Bounded(g.nodes, es, last, chain, stack)
    ensures BoundedGraph(g, es, last)
  {
  }

  lemma BoundedAfter(g: Graph, g': Graph, es: seq<Span>, last: seq<nat>, chain: seq<nat>, stack: seq<nat>, k: int,
                     v: nat, e: Span)
    requires Landing(g, g', chain, k, v, e) && Enclosed(es, stack, k, e) && Bounded(g.nodes, es, last, chain, stack)
    requires Latest(g, es, last) && stack == Held(last, chain) && v <= |last|
    ensures var chain', last' := chain[..k + 1] + [v], Retarget(last, v, |es|);
            && Bounded(g'.nodes, es + [e], last', chain', StackAfter(stack, k, |es|))
            && (forall j :: 0 <= j < |chain'| ==> chain'[j] < |last'|)
            && StackAfter(stack, k, |es|) == Held(last', chain')
  {
    ChainBoundedStep(g, g', es, last, chain, stack, k, v, e);
    RestBoundedStep(g, g', es, last, chain, stack, k, v, e);
    NoOverrunStep(g, g', es, last, chain, stack, k, v, e);
    DistinctLastStep(g, es, last, v);
    HeldStep(last, chain[..k + 1], v, |es|);
    assert Held(last, chain[..k + 1]) == stack[..k + 1];
    hide ChainBounded;
    hide RestBounded;
    hide NoOverrun;
    hide Landing;
    hide Enclosed;
  }

  lemma FirstBounded(e: Span)
    requires GoodInput([e]) && Cursor(Build([e]), [e], LastHeld([e]))
    ensures BoundedGraph(Build([e]), [e], LastHeld([e]))
  {
    var g := EmptyGraph();
    assert [e][..0] == [];
    assert Build([e]) == AddEvent(g, e);
    var g' := AddEvent(g, e);
    AddEventAdds(g, e);
    ChainStep(g, g', None, g'.current.value, e, 0);
    assert Chain(g'.nodes, 0) == [0];
  }

  lemma {:induction false} CostsBounded(es: seq<Span>)
    requires GoodInput(es) && Cursor(Build(es), es, LastHeld(es))
    ensures BoundedGraph(Build(es), es, LastHeld(es))
    decreases |es|
  {
    hide *;
    if es == [] {
      BoundedEmpty();
    } else {
      var before, e := es[..|es| - 1], es[|es| - 1];
      assert es == before + [e];
      if before == [] {
        FirstBounded(e);
      } else {
        GoodPrefix(es, |es| - 1);
        CallingContextTree(before);
        CostsBounded(before);
        ContextStep(Build(before), before, LastHeld(before), e);
        BuildSnoc(before, e);
        BoundedStep(Build(before), before, LastHeld(before), e);
      }
    }
  }

  lemma BoundedEmpty()
    requires Cursor(Build([]), [], LastHeld([]))
    ensures BoundedGraph(Build([]), [], LastHeld([]))
  {
  }

  lemma BuildSnoc(es: seq<Span>, e: Span)
    ensures Build(es + [e]) == AddEvent(Build(es), e)
    ensures var v := Build(es + [e]).current;
            v.Some? && v.value <= |LastHeld(es)| ==> LastHeld(es + [e]) == Retarget(LastHeld(es), v.value, |es|)
  {
    assert (es + [e])[..|es|] == es;
    hide AddEvent;
    hide Retarget;
  }

  /**
   For every input whose starts are distinct and in order and whose intervals nest or do not overlap,
   no node is charged more for its callees than it took itself, and no total exceeds the end of the
   latest event merged into the node: 64-bit totals cannot wrap, and neither can the difference.
   */
  lemma SelfTimeIsExact(es: seq<Span>)
    requires GoodInput(es)
    ensures forall n :: 0 <= n < |Build(es).nodes| ==>
                          var node := Build(es).nodes[n];
                          node.childTotal <= node.total <= node.data.stop
  {
    hide *;
    if es == [] {
      NothingBuilt();
    } else {
      CallingContextTree(es);
      CostsBounded(es);
      GoodParts(es);
      BoundedGraphNodes(Build(es), es, LastHeld(es));
    }
  }

  lemma NothingBuilt()
    ensures Build([]).nodes == []
  {
  }

  lemma BoundedGraphNodes(g: Graph, es: seq<Span>, last: seq<nat>)
    requires es != [] && ValidSpans(es) && Cursor(g, es, last) && BoundedGraph(g, es, last)
    ensures forall n :: 0 <= n < |g.nodes| ==> g.nodes[n].childTotal <= g.nodes[n].total <= g.nodes[n].data.stop
  {
    CursorParts(g, es, last);
    var chain := Chain(g.nodes, g.current.value);
    hide Chain;
    hide Cursor;
    forall n | 0 <= n < |g.nodes|
      ensures g.nodes[n].childTotal <= g.nodes[n].total <= g.nodes[n].data.stop
    {
      BoundedNode(g.nodes, es, last, chain, Held(last, chain), n);
    }
  }
}
