/**
 The breadth-first cost listing of one call tree (client/callgrind_converter.cpp).
 */
module CostListing {
  import opened Bytes
  import opened CallGraph
  import opened CallContexts
  import opened CallCosts
  import opened Callgrind

  /** One function of the listing: its own cost and, per callee, a name, a call count and a cost. */
  datatype FnBlock = FnBlock(node: nat, fn: string, self: int, callees: seq<Callee>)

  datatype Callee = Callee(cfn: string, calls: nat, cost: int)

  function CalleeName(nodes: seq<TreeNode>, c: Call, fn: string): string
    requires c.node < |nodes|
  {
    nodes[c.node].data.name + "()'" + fn
  }

  predicate BlockFor(g: Graph, b: FnBlock) {
    && b.node < |g.nodes|
    && b.self == g.nodes[b.node].total - g.nodes[b.node].childTotal
    && |b.callees| == |g.nodes[b.node].children|
    && forall i :: 0 <= i < |b.callees| ==>
                     var c := g.nodes[b.node].children[i];
                     c.node < |g.nodes|
                     && b.callees[i] == Callee(CalleeName(g.nodes, c, b.fn), c.count, g.nodes[c.node].total)
  }

  function Visited(blocks: seq<FnBlock>): (ns: seq<nat>)
    ensures |ns| == |blocks| && forall i :: 0 <= i < |blocks| ==> ns[i] == blocks[i].node
  {
    seq(|blocks|, i requires 0 <= i < |blocks| => blocks[i].node)
  }

  function SumSelf(blocks: seq<FnBlock>): int {
    if blocks == [] then 0 else SumSelf(blocks[..|blocks| - 1]) + blocks[|blocks| - 1].self
  }

  datatype Pending = Pending(node: nat, fn: string)

  function Waiting(queue: seq<Pending>): (ns: seq<nat>)
    ensures |ns| == |queue| && forall i :: 0 <= i < |queue| ==> ns[i] == queue[i].node
  {
    seq(|queue|, i requires 0 <= i < |queue| => queue[i].node)
  }

  function SumWaiting(nodes: seq<TreeNode>, ns: seq<nat>): int
    requires forall i :: 0 <= i < |ns| ==> ns[i] < |nodes|
  {
    if ns == [] then 0 else nodes[ns[0]].total + SumWaiting(nodes, ns[1..])
  }

  predicate NoDuplicates(ns: seq<nat>) {
    forall i, j :: 0 <= i < j < |ns| ==> ns[i] != ns[j]
  }

  /** The nodes called, directly or not, from root, and root itself. */
  predicate Below(g: Graph, root: nat, n: nat)
    requires n < |g.nodes|
  {
    root in Chain(g.nodes, n)
  }

  predicate ParentDone(g: Graph, root: nat, done: seq<nat>, n: nat) {
    n < |g.nodes| && (n == root || (g.nodes[n].parent.Some? && g.nodes[n].parent.value in done))
  }

  /** A node is done, or waits itself or through an ancestor. */
  predicate Reached(g: Graph, done: seq<nat>, queue: seq<nat>, n: nat)
    requires n < |g.nodes|
  {
    n in done || exists i :: 0 <= i < |queue| && queue[i] in Chain(g.nodes, n)
  }

  ghost predicate Walk(g: Graph, root: nat, done: seq<nat>, queue: seq<nat>) {
    && root < |g.nodes|
    && NoDuplicates(done + queue)
    && (forall n :: n in done + queue ==> ParentDone(g, root, done, n) && Below(g, root, n))
    && (forall n :: 0 <= n < |g.nodes| && Below(g, root, n) ==> Reached(g, done, queue, n))
  }

  function Kids(g: Graph, n: nat): (ns: seq<nat>)
    requires n < |g.nodes|
    ensures |ns| == |g.nodes[n].children|
    ensures forall i :: 0 <= i < |ns| ==> ns[i] == g.nodes[n].children[i].node
  {
    seq(|g.nodes[n].children|, i requires 0 <= i < |g.nodes[n].children| => g.nodes[n].children[i].node)
  }

  /** The callees of each node in turn. */
  function KidsOfAll(g: Graph, ns: seq<nat>): seq<nat> {
    if ns == [] then []
    else
      var m := |ns| - 1;
      KidsOfAll(g, ns[..m]) + if ns[m] < |g.nodes| then Kids(g, ns[m]) else []
  }

  /** Breadth first: behind the root come the callees of each node listed, in the order of the nodes. */
  ghost predicate BreadthFirst(g: Graph, root: nat, done: seq<nat>, queue: seq<nat>) {
    done + queue == [root] + KidsOfAll(g, done)
  }

  lemma BreadthFirstStep(g: Graph, root: nat, done: seq<nat>, queue: seq<nat>)
    requires BreadthFirst(g, root, done, queue) && queue != [] && queue[0] < |g.nodes|
    ensures BreadthFirst(g, root, done + [queue[0]], queue[1..] + Kids(g, queue[0]))
  {
    var q, kids := queue[0], Kids(g, queue[0]);
    KidsOfMore(g, done, q);
    hide Kids;
    hide KidsOfAll;
    Regroup(done, queue, kids);
    ConcatAssoc([root], KidsOfAll(g, done), kids);
  }

  lemma KidsOfMore(g: Graph, ns: seq<nat>, q: nat)
    requires q < |g.nodes|
    ensures KidsOfAll(g, ns + [q]) == KidsOfAll(g, ns) + Kids(g, q)
  {
    assert (ns + [q])[..|ns|] == ns;
    hide Kids;
  }

  lemma Regroup(done: seq<nat>, queue: seq<nat>, kids: seq<nat>)
    requires queue != []
    ensures (done + [queue[0]]) + (queue[1..] + kids) == (done + queue) + kids
  {
    assert queue == [queue[0]] + queue[1..];
    ConcatAssoc(done, [queue[0]], queue[1..]);
    ConcatAssoc(done + [queue[0]], queue[1..], kids);
  }

  lemma KidFacts(g: Graph, n: nat, i: nat)
    requires Tree(g) && n < |g.nodes| && i < |Kids(g, n)|
    ensures Kids(g, n)[i] < |g.nodes| && g.nodes[Kids(g, n)[i]].parent == Some(n) && n < Kids(g, n)[i]
    ensures Chain(g.nodes, Kids(g, n)[i]) == Chain(g.nodes, n) + [Kids(g, n)[i]]
  {
    assert CallsValid(g, Some(n)) && CallsOf(g, Some(n)) == g.nodes[n].children;
    assert Listed(g, Kids(g, n)[i]);
  }

  lemma KidsDistinct(g: Graph, n: nat)
    requires Tree(g) && n < |g.nodes|
    ensures NoDuplicates(Kids(g, n))
  {
    assert CallsValid(g, Some(n)) && CallsOf(g, Some(n)) == g.nodes[n].children;
  }

  lemma WalkStart(g: Graph, root: nat)
    requires Tree(g) && root < |g.nodes|
    ensures Walk(g, root, [], [root])
  {
    assert [] + [root] == [root] && [root][0] == root;
  }

  lemma NewKids(g: Graph, root: nat, done: seq<nat>, queue: seq<nat>, i: nat)
    requires Tree(g) && Walk(g, root, done, queue) && queue != [] && queue[0] < |g.nodes| && i < |Kids(g, queue[0])|
    ensures Kids(g, queue[0])[i] !in done + queue
  {
    var q, kid := queue[0], Kids(g, queue[0])[i];
    KidFacts(g, q, i);
    assert (done + queue)[|done|] == q;
    assert Below(g, root, q);
    forall j | 0 <= j < |done| ensures done[j] != q {
      assert (done + queue)[j] == done[j];
    }
    assert kid in done + queue ==> ParentDone(g, root, done, kid);
  }

  lemma AppendDistinct(a: seq<nat>, b: seq<nat>)
    requires NoDuplicates(a) && NoDuplicates(b) && forall i :: 0 <= i < |b| ==> b[i] !in a
    ensures NoDuplicates(a + b)
  {
  }

  lemma WalkDistinct(g: Graph, root: nat, done: seq<nat>, queue: seq<nat>)
    requires Tree(g) && Walk(g, root, done, queue) && queue != [] && queue[0] < |g.nodes|
    ensures NoDuplicates((done + [queue[0]]) + (queue[1..] + Kids(g, queue[0])))
  {
    var q := queue[0];
    KidsDistinct(g, q);
    forall i | 0 <= i < |Kids(g, q)| ensures Kids(g, q)[i] !in done + queue { NewKids(g, root, done, queue, i); }
    AppendDistinct(done + queue, Kids(g, q));
    assert (done + [q]) + (queue[1..] + Kids(g, q)) == (done + queue) + Kids(g, q);
  }

  lemma {:induction false} NextOnChain(nodes: seq<TreeNode>, n: nat, i: nat)
    requires n < |nodes| && i + 1 < |Chain(nodes, n)|
    ensures Chain(nodes, n)[i + 1] < |nodes| && nodes[Chain(nodes, n)[i + 1]].parent == Some(Chain(nodes, n)[i])
  {
    ChainFacts(nodes, n, i + 1);
    var c := Chain(nodes, n)[i + 1];
    assert Chain(nodes, c) == Chain(nodes, n)[..i + 2];
  }

  /** A node strictly below q is below one of the callees of q. */
  lemma BelowKid(g: Graph, q: nat, n: nat) returns (j: nat)
    requires Tree(g) && q < |g.nodes| && n < |g.nodes| && Below(g, q, n) && n != q
    ensures j < |Kids(g, q)| && Kids(g, q)[j] in Chain(g.nodes, n)
  {
    var chain := Chain(g.nodes, n);
    var i :| 0 <= i < |chain| && chain[i] == q;
    var c := chain[i + 1];
    NextOnChain(g.nodes, n, i);
    assert Listed(g, c);
    j :| 0 <= j < |CallsOf(g, Some(q))| && CallsOf(g, Some(q))[j].node == c;
  }

  lemma WalkReaches(g: Graph, root: nat, done: seq<nat>, queue: seq<nat>, n: nat)
    requires Tree(g) && Walk(g, root, done, queue) && queue != [] && queue[0] < |g.nodes|
    requires n < |g.nodes| && Below(g, root, n)
    ensures Reached(g, done + [queue[0]], queue[1..] + Kids(g, queue[0]), n)
  {
    assert Reached(g, done, queue, n);
    ReachedStep(g, done, queue, n);
  }

  lemma ReachedStep(g: Graph, done: seq<nat>, queue: seq<nat>, n: nat)
    requires Tree(g) && queue != [] && queue[0] < |g.nodes| && n < |g.nodes| && Reached(g, done, queue, n)
    ensures Reached(g, done + [queue[0]], queue[1..] + Kids(g, queue[0]), n)
  {
    var q, queue' := queue[0], queue[1..] + Kids(g, queue[0]);
    if n !in done && n != q {
      var k :| 0 <= k < |queue| && queue[k] in Chain(g.nodes, n);
      hide Tree;
      if k > 0 {
        assert queue'[k - 1] == queue[k];
      } else {
        var j := BelowKid(g, q, n);
        assert queue'[|queue| - 1 + j] == Kids(g, q)[j];
      }
    }
  }

  lemma WalkMembers(g: Graph, root: nat, done: seq<nat>, queue: seq<nat>, n: nat)
    requires Tree(g) && Walk(g, root, done, queue) && queue != [] && queue[0] < |g.nodes|
    requires n in (done + [queue[0]]) + (queue[1..] + Kids(g, queue[0]))
    ensures ParentDone(g, root, done + [queue[0]], n) && Below(g, root, n)
  {
    var q := queue[0];
    assert (done + queue)[|done|] == q;
    if n in done + queue {
      assert ParentDone(g, root, done, n);
    } else {
      assert n in Kids(g, q);
      var i :| 0 <= i < |Kids(g, q)| && Kids(g, q)[i] == n;
      KidFacts(g, q, i);
      assert q in done + [q];
      assert Below(g, root, q);
    }
  }

  /** Taking the head of the queue and queueing its callees keeps the walk on track. */
  lemma WalkStep(g: Graph, root: nat, done: seq<nat>, queue: seq<nat>)
    requires Tree(g) && Walk(g, root, done, queue) && queue != [] && queue[0] < |g.nodes|
    ensures Walk(g, root, done + [queue[0]], queue[1..] + Kids(g, queue[0]))
  {
    var done', queue' := done + [queue[0]], queue[1..] + Kids(g, queue[0]);
    WalkDistinct(g, root, done, queue);
    forall n | n in done' + queue' ensures ParentDone(g, root, done', n) && Below(g, root, n) {
      WalkMembers(g, root, done, queue, n);
    }
    forall n | 0 <= n < |g.nodes| && Below(g, root, n) ensures Reached(g, done', queue', n) {
      WalkReaches(g, root, done, queue, n);
    }
  }

  /** The cost a block takes out of the waiting total and the callees put back. */
  lemma {:induction false} WaitingAppend(nodes: seq<TreeNode>, a: seq<nat>, b: seq<nat>)
    requires (forall i :: 0 <= i < |a| ==> a[i] < |nodes|) && (forall i :: 0 <= i < |b| ==> b[i] < |nodes|)
    ensures SumWaiting(nodes, a + b) == SumWaiting(nodes, a) + SumWaiting(nodes, b)
  {
    if a == [] {
      assert a + b == b;
    } else {
      WaitingAppend(nodes, a[1..], b);
      assert (a + b)[1..] == a[1..] + b;
    }
  }

  lemma {:induction false} WaitingCalls(nodes: seq<TreeNode>, calls: seq<Call>, ns: seq<nat>)
    requires |ns| == |calls| && forall i :: 0 <= i < |calls| ==> ns[i] == calls[i].node < |nodes|
    ensures SumWaiting(nodes, ns) == ChildSum(nodes, calls)
  {
    if calls != [] {
      var m := |calls| - 1;
      WaitingCalls(nodes, calls[..m], ns[..m]);
      WaitingAppend(nodes, ns[..m], [ns[m]]);
      assert ns == ns[..m] + [ns[m]];
    }
  }

  ghost predicate AllAccounted(g: Graph) {
    forall n :: 0 <= n < |g.nodes| ==> Accounted(g, n)
  }

  /** Self costs printed so far plus the totals still waiting make up the total of the root. */
  lemma WaitingStep(g: Graph, queue: seq<nat>)
    requires Tree(g) && AllAccounted(g) && queue != [] && forall i :: 0 <= i < |queue| ==> queue[i] < |g.nodes|
    ensures var q := queue[0];
            && (forall i :: 0 <= i < |Kids(g, q)| ==> Kids(g, q)[i] < |g.nodes|)
            && SumWaiting(g.nodes, queue)
               == g.nodes[q].total - g.nodes[q].childTotal + SumWaiting(g.nodes, queue[1..] + Kids(g, q))
  {
    var q := queue[0];
    assert Accounted(g, q);
    hide Tree;
    hide AllAccounted;
    WaitingCalls(g.nodes, g.nodes[q].children, Kids(g, q));
    WaitingAppend(g.nodes, queue[1..], Kids(g, q));
  }

  /** Distinct numbers below m are at most m many. */
  lemma {:induction false} Pigeonhole(ns: seq<nat>, m: nat)
    requires NoDuplicates(ns) && forall i :: 0 <= i < |ns| ==> ns[i] < m
    ensures |ns| <= m
    decreases m
  {
    if ns != [] {
      assert ns[0] < m;
      if i :| 0 <= i < |ns| && ns[i] == m - 1 {
        Pigeonhole(ns[..i] + ns[i + 1..], m - 1);
      } else {
        Pigeonhole(ns, m - 1);
      }
    }
  }

  /** A walk never holds more nodes than there are. */
  lemma WalkBounded(g: Graph, root: nat, done: seq<nat>, queue: seq<nat>)
    requires Walk(g, root, done, queue)
    ensures |done| + |queue| <= |g.nodes|
  {
    forall i | 0 <= i < |done + queue| ensures (done + queue)[i] < |g.nodes| {
      assert (done + queue)[i] in done + queue;
      assert ParentDone(g, root, done, (done + queue)[i]);
    }
    Pigeonhole(done + queue, |g.nodes|);
  }

  /** The name a function is printed under: its label and those of its callers, up to the root. */
  function FnName(nodes: seq<TreeNode>, root: nat, n: nat): string
    requires n < |nodes|
    decreases n
  {
    if n == root || !HasParent(nodes, n) then nodes[n].data.name + "()"
    else nodes[n].data.name + "()'" + FnName(nodes, root, nodes[n].parent.value)
  }

  predicate Named(g: Graph, root: nat, queue: seq<Pending>) {
    forall i :: 0 <= i < |queue| ==> queue[i].node < |g.nodes| && queue[i].fn == FnName(g.nodes, root, queue[i].node)
  }

  ghost predicate Printed(g: Graph, root: nat, blocks: seq<FnBlock>) {
    forall i :: 0 <= i < |blocks| ==> BlockFor(g, blocks[i]) && blocks[i].fn == FnName(g.nodes, root, blocks[i].node)
  }

  /** Prints one function and queues its callees. */
  method PrintCallees(g: Graph, root: nat, f: Pending) returns (b: FnBlock, more: seq<Pending>)
    requires Tree(g) && root < |g.nodes| && f.node < |g.nodes| && Below(g, root, f.node)
    requires f.fn == FnName(g.nodes, root, f.node)
    ensures BlockFor(g, b) && b.node == f.node && b.fn == f.fn
    ensures Waiting(more) == Kids(g, f.node) && Named(g, root, more)
  {
    var calls := g.nodes[f.node].children;
    assert CallsValid(g, Some(f.node)) && CallsOf(g, Some(f.node)) == calls;
    var callees: seq<Callee> := [];
    more := [];
    for i := 0 to |calls|
      invariant |callees| == i && |more| == i
      invariant forall j :: 0 <= j < i ==>
                  callees[j]
                  == Callee(CalleeName(g.nodes, calls[j], f.fn), calls[j].count, g.nodes[calls[j].node].total)
      invariant forall j :: 0 <= j < i ==> more[j].node == calls[j].node
      invariant Named(g, root, more)
    {
      assert Named(g, root, [Pending(calls[i].node, CalleeName(g.nodes, calls[i], f.fn))]) by {
        KidFacts(g, f.node, i);
      }
      var child := CalleeName(g.nodes, calls[i], f.fn);
      callees := callees + [Callee(child, calls[i].count, g.nodes[calls[i].node].total)];
      more := more + [Pending(calls[i].node, child)];
    }
    b := FnBlock(f.node, f.fn, g.nodes[f.node].total - g.nodes[f.node].childTotal, callees);
  }

  lemma NextBlock(blocks: seq<FnBlock>, b: FnBlock)
    ensures Visited(blocks + [b]) == Visited(blocks) + [b.node]
    ensures SumSelf(blocks + [b]) == SumSelf(blocks) + b.self
  {
    assert (blocks + [b])[..|blocks|] == blocks;
  }

  lemma NextQueue(queue: seq<Pending>, more: seq<Pending>)
    requires queue != []
    ensures Waiting(queue[1..] + more) == Waiting(queue)[1..] + Waiting(more)
  {
  }

  ghost predicate CostsMatch(g: Graph, root: nat, blocks: seq<FnBlock>, queue: seq<Pending>)
    requires root < |g.nodes| && Named(g, root, queue)
  {
    AllAccounted(g) ==> SumSelf(blocks) + SumWaiting(g.nodes, Waiting(queue)) == g.nodes[root].total
  }

  /** What holds of the blocks printed and the queue between two rounds. */
  ghost predicate Progress(g: Graph, root: nat, blocks: seq<FnBlock>, queue: seq<Pending>) {
    && Walk(g, root, Visited(blocks), Waiting(queue))
    && BreadthFirst(g, root, Visited(blocks), Waiting(queue))
    && Named(g, root, queue) && Printed(g, root, blocks)
    && CostsMatch(g, root, blocks, queue)
  }

  lemma ProgressStart(g: Graph, root: nat)
    requires Tree(g) && root < |g.nodes|
    ensures Progress(g, root, [], [Pending(root, g.nodes[root].data.name + "()")])
  {
    WalkStart(g, root);
    var queue := [Pending(root, g.nodes[root].data.name + "()")];
    assert Visited([]) == [] && Waiting(queue) == [root];
    assert SumWaiting(g.nodes, [root]) == g.nodes[root].total + SumWaiting(g.nodes, []);
  }

  lemma ProgressHead(g: Graph, root: nat, blocks: seq<FnBlock>, queue: seq<Pending>)
    requires Progress(g, root, blocks, queue) && queue != []
    ensures queue[0].node < |g.nodes| && queue[0].fn == FnName(g.nodes, root, queue[0].node)
            && Below(g, root, queue[0].node)
    ensures |blocks| < |g.nodes|
  {
    var done, waiting := Visited(blocks), Waiting(queue);
    assert (done + waiting)[|done|] == queue[0].node;
    WalkBounded(g, root, done, waiting);
  }

  lemma CostsStep(g: Graph, root: nat, blocks: seq<FnBlock>, queue: seq<Pending>, b: FnBlock, more: seq<Pending>)
    requires Tree(g) && Progress(g, root, blocks, queue) && queue != []
    requires BlockFor(g, b) && b.node == queue[0].node && Waiting(more) == Kids(g, b.node) && Named(g, root, more)
    ensures Named(g, root, queue[1..] + more) && CostsMatch(g, root, blocks + [b], queue[1..] + more)
  {
    NextBlock(blocks, b);
    NextQueue(queue, more);
    if AllAccounted(g) {
      WaitingStep(g, Waiting(queue));
    }
  }

  lemma ProgressStep(g: Graph, root: nat, blocks: seq<FnBlock>, queue: seq<Pending>, b: FnBlock, more: seq<Pending>)
    requires Tree(g) && Progress(g, root, blocks, queue) && queue != []
    requires BlockFor(g, b) && b.node == queue[0].node && b.fn == queue[0].fn
    requires Waiting(more) == Kids(g, b.node) && Named(g, root, more)
    ensures Progress(g, root, blocks + [b], queue[1..] + more)
  {
    hide *;
    var blocks', queue' := blocks + [b], queue[1..] + more;
    ProgressHead(g, root, blocks, queue);
    ProgressParts(g, root, blocks, queue);
    CostsStep(g, root, blocks, queue, b, more);
    NextBlock(blocks, b);
    NextQueue(queue, more);
    WalkStep(g, root, Visited(blocks), Waiting(queue));
    BreadthFirstStep(g, root, Visited(blocks), Waiting(queue));
    PrintedSnoc(g, root, blocks, b);
    ProgressFromParts(g, root, blocks', queue');
  }

  lemma ProgressParts(g: Graph, root: nat, blocks: seq<FnBlock>, queue: seq<Pending>)
    requires Progress(g, root, blocks, queue)
    ensures Walk(g, root, Visited(blocks), Waiting(queue)) && BreadthFirst(g, root, Visited(blocks), Waiting(queue))
    ensures Named(g, root, queue) && Printed(g, root, blocks) && root < |g.nodes| && CostsMatch(g, root, blocks, queue)
  {
  }

  lemma ProgressFromParts(g: Graph, root: nat, blocks: seq<FnBlock>, queue: seq<Pending>)
    requires Walk(g, root, Visited(blocks), Waiting(queue)) && BreadthFirst(g, root, Visited(blocks), Waiting(queue))
    requires Named(g, root, queue) && Printed(g, root, blocks) && root < |g.nodes| && CostsMatch(g, root, blocks, queue)
    ensures Progress(g, root, blocks, queue)
  {
  }

  lemma PrintedSnoc(g: Graph, root: nat, blocks: seq<FnBlock>, b: FnBlock)
    requires Printed(g, root, blocks) && BlockFor(g, b) && b.node < |g.nodes| && b.fn == FnName(g.nodes, root, b.node)
    ensures Printed(g, root, blocks + [b])
  {
    hide BlockFor;
    hide FnName;
  }

  /**
   The listing of the tree below one root: every node of it once, under the names of its callers, and
   self costs that add up to the total of the root.
   */
  ghost predicate ListingOf(g: Graph, root: nat, blocks: seq<FnBlock>)
    requires root < |g.nodes|
  {
    && NoDuplicates(Visited(blocks)) && Printed(g, root, blocks)
    && Visited(blocks) == [root] + KidsOfAll(g, Visited(blocks))
    && (forall n :: 0 <= n < |g.nodes| ==> (n in Visited(blocks) <==> Below(g, root, n)))
    && (AllAccounted(g) ==> SumSelf(blocks) == g.nodes[root].total)
  }

  lemma ProgressEnd(g: Graph, root: nat, blocks: seq<FnBlock>)
    requires Progress(g, root, blocks, [])
    ensures root < |g.nodes| && ListingOf(g, root, blocks)
  {
    hide *;
    ProgressParts(g, root, blocks, []);
    assert Waiting([]) == [];
    WalkEnd(g, root, Visited(blocks));
    NothingWaits(g, root, blocks);
    ListingFromParts(g, root, blocks);
  }

  lemma WalkEnd(g: Graph, root: nat, done: seq<nat>)
    requires Walk(g, root, done, []) && BreadthFirst(g, root, done, [])
    ensures NoDuplicates(done) && done == [root] + KidsOfAll(g, done)
    ensures forall n :: 0 <= n < |g.nodes| ==> (n in done <==> Below(g, root, n))
  {
    assert done + [] == done;
    hide KidsOfAll;
    hide NoDuplicates;
    hide Below;
    hide ParentDone;
  }

  lemma NothingWaits(g: Graph, root: nat, blocks: seq<FnBlock>)
    requires root < |g.nodes| && Named(g, root, []) && CostsMatch(g, root, blocks, [])
    ensures AllAccounted(g) ==> SumSelf(blocks) == g.nodes[root].total
  {
    assert Waiting([]) == [];
    hide AllAccounted;
    hide SumSelf;
  }

  lemma ListingFromParts(g: Graph, root: nat, blocks: seq<FnBlock>)
    requires root < |g.nodes| && NoDuplicates(Visited(blocks)) && Printed(g, root, blocks)
    requires Visited(blocks) == [root] + KidsOfAll(g, Visited(blocks))
    requires forall n :: 0 <= n < |g.nodes| ==> (n in Visited(blocks) <==> Below(g, root, n))
    requires AllAccounted(g) ==> SumSelf(blocks) == g.nodes[root].total
    ensures ListingOf(g, root, blocks)
  {
    hide NoDuplicates;
    hide Printed;
    hide KidsOfAll;
    hide Below;
    hide AllAccounted;
    hide SumSelf;
  }

  /**
   _print_function: prints the tree below root breadth first; the walk ends and lists the whole tree.
   */
  method PrintFunction(g: Graph, root: nat) returns (blocks: seq<FnBlock>)
    requires Tree(g) && root < |g.nodes|
    ensures ListingOf(g, root, blocks)
  {
    blocks := [];
    var queue := [Pending(root, g.nodes[root].data.name + "()")];
    ProgressStart(g, root);
    hide *;
    while queue != []
      invariant Progress(g, root, blocks, queue)
      decreases |g.nodes| - |blocks|
    {
      ProgressHead(g, root, blocks, queue);
      var b, more := PrintCallees(g, root, queue[0]);
      ProgressStep(g, root, blocks, queue, b, more);
      blocks := blocks + [b];
      queue := queue[1..] + more;
    }
    ProgressEnd(g, root, blocks);
  }

  /** Every node is below exactly one root: the first node of its chain. */
  lemma RootOf(g: Graph, n: nat) returns (k: nat)
    requires Tree(g) && n < |g.nodes|
    ensures k < |g.roots| && Below(g, g.roots[k].node, n)
    ensures forall i :: 0 <= i < |g.roots| && Below(g, g.roots[i].node, n) ==> i == k
  {
    var chain := Chain(g.nodes, n);
    ChainTop(g.nodes, n);
    assert Listed(g, chain[0]);
    assert CallsOf(g, None) == g.roots && CallsValid(g, None);
    k :| 0 <= k < |g.roots| && g.roots[k].node == chain[0];
    forall i | 0 <= i < |g.roots| && Below(g, g.roots[i].node, n)
      ensures i == k
    {
      var j :| 0 <= j < |chain| && chain[j] == g.roots[i].node;
      if j > 0 {
        NextOnChain(g.nodes, n, j - 1);
      }
    }
  }

  lemma {:induction false} ChainTop(nodes: seq<TreeNode>, n: nat)
    requires n < |nodes|
    ensures Chain(nodes, n)[0] < |nodes| && !HasParent(nodes, Chain(nodes, n)[0])
    decreases n
  {
    if HasParent(nodes, n) {
      ChainTop(nodes, nodes[n].parent.value);
    }
  }

  ghost predicate Listings(g: Graph, lists: seq<seq<FnBlock>>) {
    && |lists| == |g.roots|
    && forall k :: 0 <= k < |lists| ==> g.roots[k].node < |g.nodes| && ListingOf(g, g.roots[k].node, lists[k])
  }

  /** Node n is printed in exactly one listing. */
  predicate PrintedOnce(lists: seq<seq<FnBlock>>, n: nat) {
    exists k :: 0 <= k < |lists| && n in Visited(lists[k])
                && forall i :: 0 <= i < |lists| && i != k ==> n !in Visited(lists[i])
  }

  lemma ListingsCover(g: Graph, lists: seq<seq<FnBlock>>, n: nat)
    requires Tree(g) && Listings(g, lists) && n < |g.nodes|
    ensures PrintedOnce(lists, n)
  {
    var k := RootOf(g, n);
    hide Tree;
    assert n in Visited(lists[k]);
    forall i | 0 <= i < |lists| && i != k
      ensures n !in Visited(lists[i])
    {
      assert ListingOf(g, g.roots[i].node, lists[i]);
    }
  }

  method ListRoots(g: Graph) returns (lists: seq<seq<FnBlock>>)
    requires Tree(g)
    ensures Listings(g, lists)
  {
    assert CallsOf(g, None) == g.roots && CallsValid(g, None);
    lists := [];
    hide Tree;
    hide ListingOf;
    for k := 0 to |g.roots|
      invariant |lists| == k
      invariant forall i :: 0 <= i < k ==> ListingOf(g, g.roots[i].node, lists[i])
    {
      var blocks := PrintFunction(g, g.roots[k].node);
      lists := lists + [blocks];
    }
  }

  /**
   One thread's file: the tree is built from the events and every root is listed. Each node is printed
   exactly once in the whole file, and each listing accounts for exactly the time of its root.
   */
  method ListThread(events: seq<Span>) returns (g: Graph, lists: seq<seq<FnBlock>>)
    ensures g == Build(Sorted(events)) && AllAccounted(g) && Listings(g, lists)
    ensures forall n :: 0 <= n < |g.nodes| ==> PrintedOnce(lists, n)
  {
    var builder := new GraphBuilder();
    builder.Make(events);
    g := builder.View();
    CostConservation(Sorted(events));
    assert Tree(g) && AllAccounted(g);
    hide *;
    lists := ListRoots(g);
    forall n | 0 <= n < |g.nodes| ensures PrintedOnce(lists, n) { ListingsCover(g, lists, n); }
  }
}
