/**
 The graph builder object (client/call_graph.cpp).
 */
module Callgrind {
  import opened Bytes
  import opened CallGraph
  import opened CallContexts

  class GraphBuilder {
    var nodes: seq<TreeNode>
    var roots: seq<Call>
    var current: Option<nat>

    function View(): Graph
      reads this
    {
      Graph(nodes, roots, current)
    }

    constructor ()
      ensures View() == EmptyGraph()
    {
      nodes := [];
      roots := [];
      current := None;
    }

    /** The first call with the given name, by linear search. */
    method Find(calls: seq<Call>, name: string) returns (i: nat)
      requires forall j :: 0 <= j < |calls| ==> calls[j].node < |nodes|
      ensures i == FindCall(nodes, calls, name)
    {
      i := 0;
      assert calls[0..] == calls;
      while i < |calls| && nodes[calls[i].node].data.name != name
        invariant 0 <= i <= |calls|
        invariant FindCall(nodes, calls, name) == i + FindCall(nodes, calls[i..], name)
      {
        assert calls[i..][1..] == calls[i + 1..];
        i := i + 1;
      }
    }

    method AddNewCall(parent: Option<nat>, e: Span)
      requires (parent.Some? ==> parent.value < |nodes|) && CallsValid(View(), parent)
      modifies this
      ensures View() == AddCall(old(View()), parent, e)
    {
      var calls: seq<Call> := if parent.Some? then nodes[parent.value].children else roots;
      assert calls == CallsOf(View(), parent);
      var i := Find(calls, e.name);
      var v: nat;
      if i < |calls| {
        v := calls[i].node;
        nodes := nodes[v := nodes[v].(total := nodes[v].total + Duration(e), data := e)];
        calls := calls[i := calls[i].(count := calls[i].count + 1)];
      } else {
        v := |nodes|;
        nodes := nodes + [TreeNode(e, Duration(e), 0, [], parent)];
        calls := calls + [Call(v, 1)];
      }
      if parent.Some? {
        nodes := nodes[parent.value := nodes[parent.value].(children := calls)];
      } else {
        roots := calls;
      }
      current := Some(v);
    }

    /** Climbs from the cursor; a containing node becomes the caller, otherwise the event is a root. */
    method Add(e: Span)
      requires Tree(View())
      modifies this
      ensures View() == AddEvent(old(View()), e) && Tree(View())
    {
      AddEventTree(View(), e);
      hide CallsValid;
      hide AddCall;
      hide Contains;
      var cursor: Option<nat> := current;
      while cursor.Some? && !Contains(nodes[cursor.value].data, e)
        invariant cursor.Some? ==> cursor.value < |nodes|
        invariant Climb(View(), cursor, e) == Climb(View(), current, e)
        decreases if cursor.Some? then cursor.value + 1 else 0
      {
        assert Listed(View(), cursor.value);
        cursor := nodes[cursor.value].parent;
      }
      ghost var before := View();
      if cursor.Some? {
        var p := cursor.value;
        assert CallsValid(View(), cursor);
        nodes := nodes[p := nodes[p].(childTotal := nodes[p].childTotal + Duration(e))];
        assert View() == Charge(before, p, Duration(e));
        assert CallsOf(View(), cursor) == CallsOf(before, cursor);
        AddNewCall(cursor, e);
      } else {
        AddNewCall(None, e);
      }
    }

    /** Sorts the events by start and adds them in that order. */
    method Make(events: seq<Span>)
      requires View() == EmptyGraph()
      modifies this
      ensures View() == Build(Sorted(events))
    {
      hide *;
      var es := Sorted(events);
      assert es[..0] == [];
      BuildNone();
      for i := 0 to |es|
        invariant View() == Build(es[..i])
      {
        BuildNext(es, i);
        Add(es[i]);
      }
      assert es[..|es|] == es;
    }
  }

  lemma BuildNone()
    ensures Build([]) == EmptyGraph()
  {
  }

  lemma BuildNext(es: seq<Span>, i: nat)
    requires i < |es|
    ensures Build(es[..i + 1]) == AddEvent(Build(es[..i]), es[i])
  {
    assert es[..i + 1][..i] == es[..i];
    hide AddEvent;
  }

  // Sorting.

  predicate ByStart(es: seq<Span>) {
    forall i, j :: 0 <= i < j < |es| ==> es[i].start <= es[j].start
  }

  function Insert(e: Span, es: seq<Span>): seq<Span> {
    if es == [] || e.start <= es[0].start then [e] + es else [es[0]] + Insert(e, es[1..])
  }

  /** Some ordering of the events by start. */
  function Sorted(events: seq<Span>): seq<Span> {
    if events == [] then [] else Insert(events[0], Sorted(events[1..]))
  }

  lemma {:induction false} InsertKeepsAll(e: Span, es: seq<Span>)
    ensures multiset(Insert(e, es)) == multiset(es) + multiset{e}
  {
    if !(es == [] || e.start <= es[0].start) {
      InsertKeepsAll(e, es[1..]);
      assert es == [es[0]] + es[1..];
    }
  }

  lemma OrderedCons(x: Span, es: seq<Span>)
    requires ByStart(es) && forall i :: 0 <= i < |es| ==> x.start <= es[i].start
    ensures ByStart([x] + es)
  {
  }

  lemma {:induction false} InsertOrders(e: Span, es: seq<Span>)
    requires ByStart(es)
    ensures ByStart(Insert(e, es))
  {
    if es == [] || e.start <= es[0].start {
      OrderedCons(e, es);
    } else {
      var tail := Insert(e, es[1..]);
      InsertOrders(e, es[1..]);
      InsertKeepsAll(e, es[1..]);
      forall i | 0 <= i < |tail|
        ensures es[0].start <= tail[i].start
      {
        assert tail[i] in multiset(tail);
        assert tail[i] == e || tail[i] in es[1..];
      }
      OrderedCons(es[0], tail);
    }
  }

  /** Sorting orders the events and keeps every one of them. */
  lemma {:induction false} SortedOrders(events: seq<Span>)
    ensures ByStart(Sorted(events)) && multiset(Sorted(events)) == multiset(events)
  {
    if events != [] {
      SortedOrders(events[1..]);
      InsertOrders(events[0], Sorted(events[1..]));
      InsertKeepsAll(events[0], Sorted(events[1..]));
      assert events == [events[0]] + events[1..];
    }
  }
}
