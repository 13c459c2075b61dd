/**
 The topological sort of the amalgamation tool (tools/amalgamate.py).  A graph maps each node to the list of
 nodes it depends on; the sort takes the graph apart and then puts it back.
 */
module TopologySort {
  import opened Bytes

  predicate NoRepeats(s: seq<string>) {
    forall i, j :: 0 <= i < j < |s| ==> s[i] != s[j]
  }

  /** A dictionary from nodes to their dependencies, with its keys in order of insertion. */
  datatype Dependencies = Dependencies(keys: seq<string>, lists: map<string, seq<string>>)

  ghost predicate Valid(g: Dependencies) {
    && NoRepeats(g.keys) && (forall k :: k in g.keys <==> k in g.lists)
    && forall k :: k in g.lists ==> NoRepeats(g.lists[k])
  }

  /** list.remove: without the first occurrence. */
  function RemoveFirst(s: seq<string>, x: string): seq<string> {
    if s == [] then [] else if s[0] == x then s[1..] else [s[0]] + RemoveFirst(s[1..], x)
  }

  /** Where every occurrence is dropped. */
  function Without(s: seq<string>, xs: seq<string>): seq<string> {
    if s == [] then [] else (if s[0] in xs then [] else [s[0]]) + Without(s[1..], xs)
  }

  lemma {:induction false} WithoutMembers(s: seq<string>, xs: seq<string>)
    ensures forall x :: x in Without(s, xs) <==> x in s && x !in xs
  {
    if s != [] {
      WithoutMembers(s[1..], xs);
      assert s == [s[0]] + s[1..];
    }
  }

  lemma {:induction false} WithoutNothing(s: seq<string>)
    ensures Without(s, []) == s
  {
    if s != [] {
      WithoutNothing(s[1..]);
    }
  }

  lemma {:induction false} RemoveAbsent(s: seq<string>, x: string)
    requires x !in s
    ensures RemoveFirst(s, x) == s
  {
    if s != [] {
      RemoveAbsent(s[1..], x);
    }
  }

  /** On a list without repetitions, removing one occurrence removes the element. */
  lemma {:induction false} RemoveIsWithout(s: seq<string>, xs: seq<string>, x: string)
    requires NoRepeats(s)
    ensures RemoveFirst(Without(s, xs), x) == Without(s, xs + [x])
  {
    if s != [] {
      RemoveIsWithout(s[1..], xs, x);
      var rest := Without(s[1..], xs);
      if s[0] == x && s[0] !in xs {
        WithoutMembers(s[1..], xs);
        RemoveAbsent(rest, x);
        assert ([s[0]] + rest)[1..] == rest;
        assert [] + Without(s[1..], xs + [x]) == Without(s[1..], xs + [x]);
      } else if s[0] !in xs {
        assert ([s[0]] + rest)[1..] == rest;
      } else {
        assert [] + rest == rest;
      }
    }
  }

  lemma {:induction false} WithoutNoRepeats(s: seq<string>, xs: seq<string>)
    requires NoRepeats(s)
    ensures NoRepeats(Without(s, xs))
  {
    if s != [] {
      WithoutNoRepeats(s[1..], xs);
      WithoutMembers(s[1..], xs);
    }
  }

  /** The graph after the nodes in `gone` have been taken out. */
  function Remaining(g: Dependencies, gone: seq<string>): Dependencies {
    Dependencies(Without(g.keys, gone), map k | k in g.lists && k !in gone :: Without(g.lists[k], gone))
  }

  /** remove_node. */
  function RemoveNode(g: Dependencies, node: string): Dependencies {
    Dependencies(RemoveFirst(g.keys, node), map k | k in g.lists && k != node :: RemoveFirst(g.lists[k], node))
  }

  lemma RemoveListStep(g: Dependencies, gone: seq<string>, node: string, k: string)
    requires Valid(g) && k in Remaining(g, gone + [node]).lists
    ensures k in RemoveNode(Remaining(g, gone), node).lists
    ensures RemoveNode(Remaining(g, gone), node).lists[k] == Remaining(g, gone + [node]).lists[k]
  {
    RemoveIsWithout(g.lists[k], gone, node);
  }

  lemma RemoveKeysStep(g: Dependencies, gone: seq<string>, node: string)
    requires Valid(g)
    ensures var a, b := RemoveNode(Remaining(g, gone), node), Remaining(g, gone + [node]);
            a.keys == b.keys && a.lists.Keys == b.lists.Keys
  {
    RemoveIsWithout(g.keys, gone, node);
    hide RemoveFirst;
    hide Without;
  }

  lemma RemoveStep(g: Dependencies, gone: seq<string>, node: string)
    requires Valid(g)
    ensures RemoveNode(Remaining(g, gone), node) == Remaining(g, gone + [node])
  {
    hide *;
    var a, b := RemoveNode(Remaining(g, gone), node), Remaining(g, gone + [node]);
    RemoveKeysStep(g, gone, node);
    forall k | k in b.lists
      ensures k in a.lists && a.lists[k] == b.lists[k]
    {
      RemoveListStep(g, gone, node, k);
    }
    assert a.lists == b.lists;
  }

  // Orders and cycles.

  /** Each node comes after everything it depends on. */
  predicate Topological(g: Dependencies, order: seq<string>) {
    forall i :: 0 <= i < |order| ==> order[i] in g.lists && forall d :: d in g.lists[order[i]] ==> d in order[..i]
  }

  /** A path of dependencies from each node to the next. */
  predicate DependsAlong(g: Dependencies, path: seq<string>) {
    forall i :: 0 <= i < |path| - 1 ==> DependsAt(g, path, i)
  }

  predicate DependsAt(g: Dependencies, path: seq<string>, i: nat)
    requires i + 1 < |path|
  {
    path[i] in g.lists && path[i + 1] in g.lists[path[i]]
  }

  predicate IsCycle(g: Dependencies, path: seq<string>) {
    |path| > 1 && path[0] == path[|path| - 1] && DependsAlong(g, path)
  }

  ghost predicate Acyclic(g: Dependencies) {
    forall path :: !IsCycle(g, path)
  }

  predicate Declared(g: Dependencies) {
    forall k :: k in g.lists ==> forall d :: d in g.lists[k] ==> d in g.lists
  }

  /** Along a path every node comes before the one it is reached from. */
  lemma {:induction false} PathGoesBack(g: Dependencies, order: seq<string>, path: seq<string>, n: nat) returns (i: nat)
    requires Topological(g, order) && DependsAlong(g, path) && n < |path| && path[0] in order
    ensures i < |order| && order[i] == path[n] && (n > 0 ==> exists j :: i < j < |order| && order[j] == path[0])
  {
    if n == 0 {
      i :| 0 <= i < |order| && order[i] == path[0];
    } else {
      var k := PathGoesBack(g, order, path, n - 1);
      assert DependsAt(g, path, n - 1);
      i :| 0 <= i < k && order[..k][i] == path[n];
      if n > 1 {
        var j :| k < j < |order| && order[j] == path[0];
        assert i < j;
      } else {
        assert order[k] == path[0];
      }
    }
  }

  /** A graph with a complete topological order without repetitions has no cycle. */
  lemma OrderMeansAcyclic(g: Dependencies, order: seq<string>)
    requires Topological(g, order) && NoRepeats(order) && forall k :: k in g.lists ==> k in order
    ensures Acyclic(g)
  {
    forall path
      ensures !IsCycle(g, path)
    {
      if IsCycle(g, path) {
        assert DependsAt(g, path, 0);
        var i := PathGoesBack(g, order, path, |path| - 1);
        assert false;
      }
    }
  }

  /** Every node of a nonempty remainder still waits for another: then dependencies can be followed for ever. */
  ghost predicate Stuck(g: Dependencies, gone: seq<string>) {
    && (exists k :: k in g.lists && k !in gone)
    && forall k {:trigger Waits(g, gone, k)} :: k in g.lists && k !in gone ==> Waits(g, gone, k)
  }

  predicate Waits(g: Dependencies, gone: seq<string>, k: string) {
    k in g.lists && exists d :: d in g.lists[k] && d !in gone
  }

  lemma {:induction false} LongWalk(g: Dependencies, gone: seq<string>, n: nat) returns (path: seq<string>)
    requires Declared(g) && Stuck(g, gone)
    ensures |path| == n + 1 && DependsAlong(g, path)
    ensures forall i :: 0 <= i < |path| ==> path[i] in g.lists && path[i] !in gone
  {
    if n == 0 {
      var k :| k in g.lists && k !in gone;
      path := [k];
    } else {
      var before := LongWalk(g, gone, n - 1);
      assert Waits(g, gone, before[n - 1]);
      var d :| d in g.lists[before[n - 1]] && d !in gone;
      path := before + [d];
      forall i | 0 <= i < |path| - 1
        ensures DependsAt(g, path, i)
      {
        assert i < n - 1 ==> DependsAt(g, before, i);
      }
    }
  }

  lemma {:induction false} MoreThanKeys(keys: seq<string>, path: seq<string>)
    requires NoRepeats(path) && forall i :: 0 <= i < |path| ==> path[i] in keys
    ensures |path| <= |keys|
    decreases |keys|
  {
    if path != [] {
      var n := |path| - 1;
      var k :| 0 <= k < |keys| && keys[k] == path[n];
      var rest := keys[..k] + keys[k + 1..];
      forall i | 0 <= i < n
        ensures path[..n][i] in rest
      {
        var j :| 0 <= j < |keys| && keys[j] == path[i];
        assert j != k;
        assert if j < k then rest[j] == path[i] else rest[j - 1] == path[i];
      }
      MoreThanKeys(rest, path[..n]);
    }
  }

  /** A stuck remainder contains a cycle. */
  lemma StuckMeansCycle(g: Dependencies, gone: seq<string>)
    requires Valid(g) && Declared(g) && Stuck(g, gone)
    ensures !Acyclic(g)
  {
    var path := LongWalk(g, gone, |g.keys|);
    if NoRepeats(path) {
      MoreThanKeys(g.keys, path);
      assert false;
    } else {
      var i, j :| 0 <= i < j < |path| && path[i] == path[j];
      var cycle := path[i..j + 1];
      forall k | 0 <= k < |cycle| - 1
        ensures DependsAt(g, cycle, k)
      {
        assert DependsAt(g, path, i + k);
      }
      assert IsCycle(g, cycle);
    }
  }

  // The graph object.

  class Graph {
    var nodes: Dependencies

    /** Every node starts without dependencies; a node named twice counts once. */
    constructor (names: seq<string>)
      ensures Valid(nodes) && (forall k :: k in nodes.lists <==> k in names)
      ensures forall k :: k in nodes.lists ==> nodes.lists[k] == []
      ensures forall i, j :: 0 <= i < j < |nodes.keys| ==> NamedBefore(names, nodes.keys[i], nodes.keys[j])
    {
      var made := Dependencies([], map[]);
      for i := 0 to |names|
        invariant Valid(made) && (forall k :: k in made.lists <==> k in names[..i])
        invariant forall a, b :: 0 <= a < b < |made.keys| ==> NamedBefore(names, made.keys[a], made.keys[b])
        invariant forall k :: k in made.lists ==> made.lists[k] == []
      {
        assert names[..i + 1] == names[..i] + [names[i]];
        if names[i] !in made.lists {
          forall a | 0 <= a < |made.keys| ensures NamedBefore(names, made.keys[a], names[i]) {
            NamedEarlier(names, i, made.keys[a]);
          }
          made := Dependencies(made.keys + [names[i]], made.lists[names[i] := []]);
        }
      }
      assert names[..|names|] == names;
      nodes := made;
    }

    /** add_edge: an unknown destination is an error and changes nothing; a repeated edge is ignored. */
    method AddEdge(src: string, dest: string) returns (ok: bool)
      requires Valid(nodes)
      modifies this
      ensures Valid(nodes) && ok == (dest in old(nodes).lists) && nodes.keys == old(nodes).keys
      ensures nodes.lists.Keys == old(nodes).lists.Keys
      ensures forall k, d :: k in nodes.lists ==>
                               (d in nodes.lists[k] <==> d in old(nodes).lists[k] || (k == dest && d == src))
      ensures forall k :: k in nodes.lists ==> old(nodes).lists[k] <= nodes.lists[k]
    {
      ok := dest in nodes.lists;
      if ok && src !in nodes.lists[dest] {
        nodes := nodes.(lists := nodes.lists[dest := nodes.lists[dest] + [src]]);
      }
    }

    /** _get_free_node: the first node without dependencies. */
    method GetFreeNode() returns (node: Option<string>)
      requires Valid(nodes)
      ensures node.Some? ==> node.value in nodes.lists && nodes.lists[node.value] == []
      ensures node.Some? ==> exists i :: FirstFree(nodes, i) && nodes.keys[i] == node.value
      ensures node.None? ==> forall k :: k in nodes.lists ==> nodes.lists[k] != []
    {
      for i := 0 to |nodes.keys|
        invariant forall j :: 0 <= j < i ==> nodes.lists[nodes.keys[j]] != []
      {
        if nodes.lists[nodes.keys[i]] == [] {
          assert FirstFree(nodes, i);
          return Some(nodes.keys[i]);
        }
      }
      node := None;
    }

    /**
     topology_sort, with None where it fails its assertion. It succeeds exactly when no node is the empty
     string, every dependency is a node and there is no cycle; then it lists each node once, after all its
     dependencies, and the graph is as it was.
     */
    method Sort() returns (order: Option<seq<string>>)
      requires Valid(nodes)
      modifies this
      ensures order.Some? <==> "" !in old(nodes).lists && Declared(old(nodes)) && Acyclic(old(nodes))
      ensures order.Some? ==> Sorts(old(nodes), order.value) && nodes == old(nodes)
      ensures order.Some? ==> FirstCome(old(nodes), order.value)
    {
      var init, sorted := nodes, [];
      RemainingAll(init);
      while nodes.keys != []
        invariant Valid(init) && nodes == Remaining(init, sorted) && Partial(init, sorted) && FirstCome(init, sorted)
        decreases |nodes.keys|
      {
        RemainingValid(init, sorted);
        var node := GetFreeNode();
        if node.None? || node.value == "" {
          SortFails(init, sorted, node);
          return None;
        }
        NextSorted(init, sorted, node.value);
        NextFirst(init, sorted, node.value);
        sorted := sorted + [node.value];
        nodes := RemoveNode(nodes, node.value);
      }
      SortDone(init, sorted);
      nodes := init;
      order := Some(sorted);
    }
  }

  /** x is named before y is named for the first time. */
  ghost predicate NamedBefore(names: seq<string>, x: string, y: string) {
    exists p :: 0 <= p < |names| && names[p] == x && y !in names[..p + 1]
  }

  lemma NamedEarlier(names: seq<string>, i: nat, x: string)
    requires i < |names| && x in names[..i] && names[i] !in names[..i]
    ensures NamedBefore(names, x, names[i])
  {
    var p :| 0 <= p < i && names[p] == x;
    assert names[..p + 1] <= names[..i];
  }

  /** Key i is the first without dependencies. */
  ghost predicate FirstFree(g: Dependencies, i: int) {
    && 0 <= i < |g.keys| && g.keys[i] in g.lists && g.lists[g.keys[i]] == []
    && forall j :: 0 <= j < i ==> g.keys[j] in g.lists && g.lists[g.keys[j]] != []
  }

  /** Among the nodes not listed yet the first, in the order they were given, that waits for none of them. */
  ghost predicate FirstReady(g: Dependencies, done: seq<string>, node: string) {
    exists q :: 0 <= q < |g.keys| && g.keys[q] == node && forall p :: 0 <= p < q ==> DoneOrWaits(g, done, g.keys[p])
  }

  predicate DoneOrWaits(g: Dependencies, done: seq<string>, k: string) {
    k in done || Waits(g, done, k)
  }

  ghost predicate FirstCome(g: Dependencies, order: seq<string>) {
    forall i :: 0 <= i < |order| ==> FirstReady(g, order[..i], order[i])
  }

  /** Element i of what is left was at q, behind dropped elements and those before it. */
  ghost predicate LeftAt(s: seq<string>, xs: seq<string>, i: nat, q: nat) {
    && i < |Without(s, xs)| && q < |s| && s[q] == Without(s, xs)[i]
    && forall p :: 0 <= p < q ==> s[p] in xs || s[p] in Without(s, xs)[..i]
  }

  lemma LeftSkipped(s: seq<string>, xs: seq<string>, i: nat, q: nat)
    requires s != [] && s[0] in xs && LeftAt(s[1..], xs, i, q)
    ensures LeftAt(s, xs, i, q + 1)
  {
    assert Without(s, xs) == Without(s[1..], xs);
    forall p | 0 < p <= q ensures s[p] in xs || s[p] in Without(s, xs)[..i] {
      assert s[p] == s[1..][p - 1];
    }
    hide Without;
  }

  lemma LeftKept(s: seq<string>, xs: seq<string>, i: nat, q: nat)
    requires s != [] && s[0] !in xs && i > 0 && LeftAt(s[1..], xs, i - 1, q)
    ensures LeftAt(s, xs, i, q + 1)
  {
    var rest := Without(s[1..], xs);
    assert Without(s, xs) == [s[0]] + rest;
    hide Without;
    assert Without(s, xs)[..i] == [s[0]] + rest[..i - 1];
    forall p | 0 < p <= q ensures s[p] in xs || s[p] in Without(s, xs)[..i] {
      assert s[p] == s[1..][p - 1];
    }
  }

  lemma {:induction false} WithoutAt(s: seq<string>, xs: seq<string>, i: nat) returns (q: nat)
    requires i < |Without(s, xs)|
    ensures LeftAt(s, xs, i, q)
  {
    if s[0] in xs {
      assert Without(s, xs) == Without(s[1..], xs);
      var k := WithoutAt(s[1..], xs, i);
      LeftSkipped(s, xs, i, k);
      q := k + 1;
    } else if i == 0 {
      q := 0;
    } else {
      assert Without(s, xs) == [s[0]] + Without(s[1..], xs);
      var k := WithoutAt(s[1..], xs, i - 1);
      LeftKept(s, xs, i, k);
      q := k + 1;
    }
  }

  lemma NextFirst(g: Dependencies, sorted: seq<string>, node: string)
    requires Valid(g) && FirstCome(g, sorted)
    requires exists i :: FirstFree(Remaining(g, sorted), i) && Remaining(g, sorted).keys[i] == node
    ensures FirstCome(g, sorted + [node])
  {
    var left := Remaining(g, sorted);
    var i :| FirstFree(left, i) && left.keys[i] == node;
    var q := WithoutAt(g.keys, sorted, i);
    forall p | 0 <= p < q ensures DoneOrWaits(g, sorted, g.keys[p]) {
      if g.keys[p] !in sorted {
        var j :| 0 <= j < i && left.keys[j] == g.keys[p];
        StillWaits(g, sorted, g.keys[p]);
      }
    }
    assert FirstReady(g, sorted, node);
    FirstComeSnoc(g, sorted, node);
  }

  lemma StillWaits(g: Dependencies, gone: seq<string>, k: string)
    requires k in g.lists && k !in gone && Remaining(g, gone).lists[k] != []
    ensures DoneOrWaits(g, gone, k)
  {
    WithoutMembers(g.lists[k], gone);
    assert Without(g.lists[k], gone)[0] in Without(g.lists[k], gone);
  }

  lemma FirstComeSnoc(g: Dependencies, sorted: seq<string>, node: string)
    requires FirstCome(g, sorted) && FirstReady(g, sorted, node)
    ensures FirstCome(g, sorted + [node])
  {
    hide FirstReady;
    forall k | 0 <= k < |sorted + [node]| ensures FirstReady(g, (sorted + [node])[..k], (sorted + [node])[k]) {
      assert (sorted + [node])[..k] == if k < |sorted| then sorted[..k] else sorted;
    }
  }

  /** A complete order: every node once, after everything it depends on. */
  ghost predicate Sorts(g: Dependencies, order: seq<string>) {
    NoRepeats(order) && Topological(g, order) && forall k :: k in g.lists <==> k in order
  }

  predicate Partial(g: Dependencies, sorted: seq<string>) {
    NoRepeats(sorted) && Topological(g, sorted) && "" !in sorted
  }

  lemma RemainingAll(g: Dependencies)
    requires Valid(g)
    ensures Remaining(g, []) == g
  {
    WithoutNothing(g.keys);
    forall k | k in g.lists ensures Without(g.lists[k], []) == g.lists[k] { WithoutNothing(g.lists[k]); }
    assert Remaining(g, []).lists == g.lists;
  }

  lemma RemainingValid(g: Dependencies, gone: seq<string>)
    requires Valid(g)
    ensures Valid(Remaining(g, gone))
  {
    WithoutNoRepeats(g.keys, gone);
    WithoutMembers(g.keys, gone);
    forall k | k in Remaining(g, gone).lists ensures NoRepeats(Remaining(g, gone).lists[k]) {
      WithoutNoRepeats(g.lists[k], gone);
    }
  }

  /** A free node can be listed next, and taking it out leaves fewer. */
  lemma NextSorted(g: Dependencies, sorted: seq<string>, node: string)
    requires Valid(g) && Partial(g, sorted) && node != ""
    requires node in Remaining(g, sorted).lists && Remaining(g, sorted).lists[node] == []
    ensures Partial(g, sorted + [node]) && RemoveNode(Remaining(g, sorted), node) == Remaining(g, sorted + [node])
    ensures |Remaining(g, sorted + [node]).keys| < |Remaining(g, sorted).keys|
  {
    RemoveStep(g, sorted, node);
    WithoutMembers(g.lists[node], sorted);
    WithoutMembers(g.keys, sorted);
    RemoveShortens(Remaining(g, sorted).keys, node);
    var order := sorted + [node];
    forall i | 0 <= i < |order|
      ensures order[i] in g.lists && forall d :: d in g.lists[order[i]] ==> d in order[..i]
    {
      assert order[..i] == if i < |sorted| then sorted[..i] else sorted;
    }
  }

  lemma {:induction false} RemoveShortens(s: seq<string>, x: string)
    requires x in s
    ensures |RemoveFirst(s, x)| == |s| - 1
  {
    if s[0] != x {
      RemoveShortens(s[1..], x);
    }
  }

  lemma SortDone(g: Dependencies, sorted: seq<string>)
    requires Valid(g) && Partial(g, sorted) && Remaining(g, sorted).keys == []
    ensures Sorts(g, sorted) && "" !in g.lists && Declared(g) && Acyclic(g)
  {
    WithoutMembers(g.keys, sorted);
    forall k | k in g.lists
      ensures k in sorted && forall d :: d in g.lists[k] ==> d in g.lists
    {
      var i :| 0 <= i < |sorted| && sorted[i] == k;
      assert forall d :: d in g.lists[k] ==> d in sorted[..i];
    }
    OrderMeansAcyclic(g, sorted);
  }

  lemma WaitingNode(g: Dependencies, sorted: seq<string>, k: string)
    requires k in g.lists && k !in sorted && Remaining(g, sorted).lists[k] != []
    ensures Waits(g, sorted, k)
  {
    WithoutMembers(g.lists[k], sorted);
    assert Remaining(g, sorted).lists[k] == Without(g.lists[k], sorted);
    assert Without(g.lists[k], sorted)[0] in Without(g.lists[k], sorted);
  }

  /** The assertion fails for a reason. */
  lemma SortFails(g: Dependencies, sorted: seq<string>, node: Option<string>)
    requires Valid(g) && Remaining(g, sorted).keys != []
    requires node.Some? ==> node.value == "" && "" in Remaining(g, sorted).lists
    requires node.None? ==> forall k :: k in Remaining(g, sorted).lists ==> Remaining(g, sorted).lists[k] != []
    ensures "" in g.lists || !Declared(g) || !Acyclic(g)
  {
    if node.None? && Declared(g) {
      WithoutMembers(g.keys, sorted);
      var first := Remaining(g, sorted).keys[0];
      assert first in g.lists && first !in sorted;
      forall k | k in g.lists && k !in sorted
        ensures Waits(g, sorted, k)
      {
        assert k in Remaining(g, sorted).lists;
        WaitingNode(g, sorted, k);
      }
      StuckMeansCycle(g, sorted);
    }
  }
}
