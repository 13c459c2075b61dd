/**
 Scoped tracing end to end: what the callstack feature emits is input on which the call graph is exact
 (feature_callstack.c, client/call_graph.cpp).
 */
module ScopedTracing {
  import opened CallGraph
  import opened CallContexts
  import opened CallCosts
  import opened Callgrind
  import opened Callstack

  /** The intervals of the events a run emits, under the labels a reader gives them. */
  ghost predicate SpansOf(ops: seq<Op>, labelOf: CallEvent -> string, spans: seq<Span>)
    requires NeverEmpty(ops) && Clocked(ops)
  {
    var ps := Trace(ops).emitted;
    |spans| == |ps|
    && forall k :: 0 <= k < |ps| ==>
                     IsPair(ops, ps[k])
                     && var e := EventOf(ops, ps[k]);
                        spans[k] == Span(labelOf(e), e.timestamp, e.timestamp + e.duration)
  }

  predicate DistinctStarts(spans: seq<Span>) {
    forall i, j :: 0 <= i < j < |spans| ==> spans[i].start != spans[j].start
  }

  /** Nested, or one after the other. */
  predicate Compatible(a: Span, b: Span) {
    Contains(a, b) || Contains(b, a) || a.stop <= b.start || b.stop <= a.start
  }

  predicate AllCompatible(spans: seq<Span>) {
    && ValidSpans(spans)
    && forall i, j :: 0 <= i < |spans| && 0 <= j < |spans| && i != j ==> Compatible(spans[i], spans[j])
  }

  lemma EmittedCompatible(ops: seq<Op>, labelOf: CallEvent -> string, spans: seq<Span>)
    requires NeverEmpty(ops) && Clocked(ops) && SpansOf(ops, labelOf, spans)
    ensures AllCompatible(spans)
  {
    forall i, j | 0 <= i < |spans| && 0 <= j < |spans| && i != j
      ensures Compatible(spans[i], spans[j])
    {
      EmittedIntervalsNest(ops, i, j);
    }
  }

  /** The clock never gives the same time twice. */
  predicate StrictlyClocked(ops: seq<Op>) {
    forall i, j :: 0 <= i < j < |ops| ==> ops[i].now < ops[j].now
  }

  /**
   An interval begins and ends when its start and its stop were made.  A scope opened and closed within another is
   contained in it; under a clock that never gives the same time twice, nothing else is.
   */
  lemma ScopesAreIntervals(ops: seq<Op>, labelOf: CallEvent -> string, spans: seq<Span>, i: nat, j: nat)
    requires NeverEmpty(ops) && Clocked(ops) && SpansOf(ops, labelOf, spans) && i < |spans| && j < |spans|
    ensures var a, b := Trace(ops).emitted[i], Trace(ops).emitted[j];
            && IsPair(ops, a) && IsPair(ops, b)
            && spans[i].start == ops[a.start].now && spans[i].stop == ops[a.stop].now
            && Duration(spans[i]) == ops[a.stop].now - ops[a.start].now
            && (a.start <= b.start && b.stop <= a.stop ==> Contains(spans[i], spans[j]))
            && (StrictlyClocked(ops) && Contains(spans[i], spans[j]) ==> a.start <= b.start && b.stop <= a.stop)
  {
    var a, b := Trace(ops).emitted[i], Trace(ops).emitted[j];
    assert a in Trace(ops).emitted && b in Trace(ops).emitted;
    EmittedTimes(ops, a);
    EmittedTimes(ops, b);
    hide Trace;
    hide NeverEmpty;
    hide EventOf;
  }

  /** Sorting keeps what holds of any two intervals, and orders distinct starts strictly. */
  lemma SortedIsGood(spans: seq<Span>)
    requires AllCompatible(spans) && DistinctStarts(spans)
    ensures GoodInput(Sorted(spans))
  {
    var es := Sorted(spans);
    SortedOrders(spans);
    forall i | 0 <= i < |es| ensures es[i] in spans { assert es[i] in multiset(es); }
    forall i, j | 0 <= i < j < |es|
      ensures es[i].start < es[j].start && (Contains(es[i], es[j]) || es[i].stop <= es[j].start)
    {
      if es[i].start == es[j].start {
        SameStart(spans, es, i, j);
      } else {
        var a :| 0 <= a < |spans| && spans[a] == es[i];
        var b :| 0 <= b < |spans| && spans[b] == es[j];
        assert Compatible(spans[a], spans[b]);
      }
    }
  }

  lemma {:induction false} CountOne(spans: seq<Span>, x: Span)
    requires DistinctStarts(spans)
    ensures multiset(spans)[x] <= 1
  {
    if spans != [] {
      var n := |spans| - 1;
      CountOne(spans[..n], x);
      assert spans == spans[..n] + [spans[n]];
      if spans[n] == x {
        assert x !in spans[..n];
      }
    }
  }

  lemma CountTwo(es: seq<Span>, i: nat, j: nat)
    requires i < j < |es| && es[i] == es[j]
    ensures multiset(es)[es[i]] >= 2
  {
    assert es == es[..j] + [es[j]] + es[j + 1..];
    assert es[i] == es[..j][i];
    assert es[i] in multiset(es[..j]);
  }

  /** Two entries of a reordering cannot share a start. */
  lemma SameStart(spans: seq<Span>, es: seq<Span>, i: nat, j: nat)
    requires DistinctStarts(spans) && multiset(es) == multiset(spans) && i < j < |es| && es[i] in spans
             && es[j] in spans
    ensures es[i].start != es[j].start
  {
    var a :| 0 <= a < |spans| && spans[a] == es[i];
    var b :| 0 <= b < |spans| && spans[b] == es[j];
    CountOne(spans, es[i]);
    if es[i] == es[j] {
      CountTwo(es, i, j);
    }
    assert es[i] != es[j];
    assert a != b;
    assert if a < b then spans[a].start != spans[b].start else spans[b].start != spans[a].start;
  }

  /**
   For every run of scoped starts and stops under a clock that gives them distinct times, the call graph of
   what was emitted is the calling-context tree of the run, and no self time wraps.
   */
  lemma ScopedRunsAreExact(ops: seq<Op>, labelOf: CallEvent -> string, spans: seq<Span>)
    requires NeverEmpty(ops) && Clocked(ops) && SpansOf(ops, labelOf, spans) && DistinctStarts(spans)
    ensures GoodInput(Sorted(spans)) && Summaries(Build(Sorted(spans)), Sorted(spans))
    ensures forall n :: 0 <= n < |Build(Sorted(spans)).nodes| ==>
                          Build(Sorted(spans)).nodes[n].childTotal <= Build(Sorted(spans)).nodes[n].total
  {
    EmittedCompatible(ops, labelOf, spans);
    SortedIsGood(spans);
    CallingContextTree(Sorted(spans));
    SelfTimeIsExact(Sorted(spans));
  }
}
