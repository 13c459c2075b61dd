/**
 Cached strings used by several threads (feature_cached_string.c): the maps are changed under the lock, but the
 event that announces a label is pushed after the lock is released, and a dynamic label is looked up and inserted
 under the lock separately.
 */
module CachedStringThreads {
  import opened Bytes
  import opened Hashing
  import opened HashMaps
  import opened CachedStrings

  /** Where a thread is: outside, past a lookup that found nothing, or past an insertion it has yet to announce. */
  datatype Phase = Outside | Missed(text: cstring) | Pushing(e: Mapping)

  /** A call that has returned: what it was for, the identifier it returned, and whether its label is stored. */
  datatype Answer = Answer(source: Source, key: nat, id: nat, stored: bool)

  datatype State = State(feature: Feature, threads: seq<Phase>, answers: seq<Answer>)

  datatype Step =
    | InsertStatic(t: nat, address: nat, text: cstring, alloc: Alloc)
    | LookUp(t: nat, text: cstring)
    | InsertMissed(t: nat, alloc: Alloc)
    | PushEvent(t: nat)
    | PushMaps(t: nat)

  predicate Enabled(s: State, step: Step) {
    && step.t < |s.threads|
    && match step
       case InsertMissed(t, _) => s.threads[t].Missed?
       case PushEvent(t) => s.threads[t].Pushing?
       case _ => s.threads[step.t].Outside?
  }

  function TableFor(f: Feature, source: Source): seq<Bucket<cstring>> {
    if source.Static? then f.statics else f.dynamics
  }

  function WithTable(f: Feature, source: Source, m: seq<Bucket<cstring>>): Feature {
    if source.Static? then f.(statics := m) else f.(dynamics := m)
  }

  /** A failed static insertion returns zero; a dynamic label gets its hash in any case. */
  function AnswerTo(source: Source, key: nat, stored: bool): Answer {
    Answer(source, key, if stored || source.Dynamic? then key else 0, stored)
  }

  /** add_mapping_ up to the release of the lock: a new key is still to be announced, otherwise the call returns. */
  ghost function Insert(s: State, t: nat, source: Source, key: nat, text: cstring, alloc: Alloc): State
    requires Valid(s.feature) && t < |s.threads|
  {
    var a := AddTo(TableFor(s.feature, source), key, text, alloc, source);
    var f := WithTable(s.feature, source, a.table);
    if a.events == [] then State(f, s.threads[t := Outside], s.answers + [AnswerTo(source, key, !a.failed)])
    else State(f, s.threads[t := Pushing(a.events[0])], s.answers)
  }

  ghost function Apply(s: State, step: Step): State
    requires Valid(s.feature) && Enabled(s, step)
  {
    match step
    case InsertStatic(t, address, text, alloc) => Insert(s, t, Static, address, text, alloc)
    case LookUp(t, text) =>
      if LookupIn(s.feature.dynamics, Djb2(text)).Some? then
        s.(answers := s.answers + [AnswerTo(Dynamic, Djb2(text), true)])
      else s.(threads := s.threads[t := Missed(text)])
    case InsertMissed(t, alloc) =>
      var text := s.threads[t].text;
      Insert(s, t, Dynamic, Djb2(text), text, alloc)
    case PushEvent(t) =>
      var e := s.threads[t].e;
      State(s.feature.(events := s.feature.events + [e]), s.threads[t := Outside],
            s.answers + [AnswerTo(e.source, e.id, true)])
    case PushMaps(_) => s.(feature := Do(s.feature, PushMap).feature)
  }

  // Counting announcements.

  /** How often an identifier has been announced for one of the maps. */
  function Announced(events: seq<Mapping>, source: Source, id: nat): nat {
    if events == [] then 0
    else
      var n := |events| - 1;
      Announced(events[..n], source, id) + (if events[n].source == source && events[n].id == id then 1 else 0)
  }

  function IsWaiting(p: Phase, source: Source, id: nat): nat {
    if p.Pushing? && p.e.source == source && p.e.id == id then 1 else 0
  }

  /** How many threads have inserted an identifier and not announced it yet. */
  function Waiting(threads: seq<Phase>, source: Source, id: nat): nat {
    if threads == [] then 0
    else
      var n := |threads| - 1;
      Waiting(threads[..n], source, id) + IsWaiting(threads[n], source, id)
  }

  lemma {:induction false} WaitingChange(threads: seq<Phase>, t: nat, p: Phase, source: Source, id: nat)
    requires t < |threads|
    ensures Waiting(threads[t := p], source, id) + IsWaiting(threads[t], source, id)
         == Waiting(threads, source, id) + IsWaiting(p, source, id)
  {
    var n := |threads| - 1;
    if t == n {
      assert threads[t := p][..n] == threads[..n];
    } else {
      assert threads[t := p][..n] == threads[..n][t := p];
      WaitingChange(threads[..n], t, p, source, id);
    }
  }

  lemma {:induction false} AnnouncedAppend(a: seq<Mapping>, b: seq<Mapping>, source: Source, id: nat)
    ensures Announced(a + b, source, id) == Announced(a, source, id) + Announced(b, source, id)
  {
    if b == [] {
      assert a + b == a;
    } else {
      var n := |b| - 1;
      assert (a + b)[..|a + b| - 1] == a + b[..n];
      AnnouncedAppend(a, b[..n], source, id);
    }
  }

  lemma {:induction false} NoneAnnounced(events: seq<Mapping>, source: Source, id: nat)
    requires forall i :: 0 <= i < |events| ==> events[i].source != source
    ensures Announced(events, source, id) == 0
  {
    if events != [] {
      NoneAnnounced(events[..|events| - 1], source, id);
    }
  }

  // What every step keeps.

  ghost predicate IsStored(f: Feature, source: Source, id: nat)
    requires Valid(f)
  {
    LookupIn(TableFor(f, source), id).Some?
  }

  predicate IsMap(source: Source) {
    source.Static? || source.Dynamic?
  }

  /** A stored identifier has been announced once or is about to be, by one thread; no other ever was. */
  ghost predicate Balanced(s: State, source: Source, id: nat)
    requires Valid(s.feature)
  {
    Announced(s.feature.events, source, id) + Waiting(s.threads, source, id)
    == if IsStored(s.feature, source, id) then 1 else 0
  }

  /** What a call that has returned said. */
  ghost predicate Truthful(f: Feature, a: Answer)
    requires Valid(f)
  {
    IsMap(a.source) && a == AnswerTo(a.source, a.key, a.stored) && (a.stored ==> IsStored(f, a.source, a.key))
  }

  ghost predicate Inv(s: State) {
    && Valid(s.feature)
    && (forall source: Source, id: nat :: IsMap(source) ==> Balanced(s, source, id))
    && (forall t :: 0 <= t < |s.threads| && s.threads[t].Pushing? ==> IsMap(s.threads[t].e.source))
    && (forall i :: 0 <= i < |s.answers| ==> Truthful(s.feature, s.answers[i]))
  }

  /** Adding a key changes what is stored at that key only, and only if it succeeds. */
  lemma AddedLookup(m: seq<Bucket<cstring>>, key: nat, text: cstring, alloc: Alloc, source: Source, id: nat)
    requires ValidTable(m)
    ensures var a := AddTo(m, key, text, alloc, source);
            && ValidTable(a.table)
            && (LookupIn(a.table, id).Some? <==> LookupIn(m, id).Some? || (id == key && !a.failed))
  {
    var op, i := InsertOp(key, text, alloc), Slot(key);
    var a := AddTo(m, key, text, alloc, source);
    InsertKeepsPlaces(m, op);
    assert InPlace(m, i);
    InsertMaps(m[i], key, text, alloc);
    hide InsertBucket;
    hide ValidTable;
    SlotLookup(m, a.table, i, id);
    SlotLookup(m, a.table, i, key);
  }

  /** The two maps after one of them was added to. */
  lemma InsertStores(f: Feature, source: Source, key: nat, text: cstring, alloc: Alloc, other: Source, id: nat)
    requires Valid(f) && IsMap(source) && IsMap(other)
    ensures var a := AddTo(TableFor(f, source), key, text, alloc, source);
            var f' := WithTable(f, source, a.table);
            && Valid(f') && f'.events == f.events
            && (IsStored(f', other, id) <==> IsStored(f, other, id) || (other == source && id == key && !a.failed))
  {
    AddedLookup(TableFor(f, source), key, text, alloc, source, id);
    hide AddTo;
    hide LookupIn;
    hide ValidTable;
  }

  /** What an insertion does to the feature, the threads and the answers. */
  lemma InsertSplit(s: State, t: nat, source: Source, key: nat, text: cstring, alloc: Alloc)
    requires Valid(s.feature) && t < |s.threads| && IsMap(source)
    ensures var m := TableFor(s.feature, source);
            var a, e := AddTo(m, key, text, alloc, source), Mapping(key, text, source);
            var stored, room := IsStored(s.feature, source, key), HasRoom(m[Slot(key)], alloc);
            && (a.failed <==> !stored && !room)
            && Insert(s, t, source, key, text, alloc)
               == if !stored && room then
                    State(WithTable(s.feature, source, a.table), s.threads[t := Pushing(e)], s.answers)
                  else State(WithTable(s.feature, source, a.table), s.threads[t := Outside],
                             s.answers + [AnswerTo(source, key, stored || room)])
  {
    AddsWhen(TableFor(s.feature, source), key, text, alloc, source);
    hide AddTo;
    hide LookupIn;
    hide HasRoom;
  }

  lemma InsertBalanced(s: State, t: nat, source: Source, key: nat, text: cstring, alloc: Alloc, other: Source, id: nat)
    requires Valid(s.feature) && t < |s.threads| && !s.threads[t].Pushing? && IsMap(source) && IsMap(other)
    requires Balanced(s, other, id)
    ensures var s' := Insert(s, t, source, key, text, alloc);
            && Valid(s'.feature) && Balanced(s', other, id)
            && (IsStored(s.feature, other, id) ==> IsStored(s'.feature, other, id))
  {
    hide *;
    InsertSplit(s, t, source, key, text, alloc);
    InsertStores(s.feature, source, key, text, alloc, other, id);
    var e := Mapping(key, text, source);
    WaitingChange(s.threads, t, Outside, other, id);
    WaitingChange(s.threads, t, Pushing(e), other, id);
    WaitingParts(s.threads[t], e, other, id);
    BalancedIs(s, other, id);
    BalancedIs(Insert(s, t, source, key, text, alloc), other, id);
  }

  lemma WaitingParts(p: Phase, e: Mapping, source: Source, id: nat)
    ensures !p.Pushing? ==> IsWaiting(p, source, id) == 0
    ensures IsWaiting(Outside, source, id) == 0
    ensures IsWaiting(Pushing(e), source, id) == if e.source == source && e.id == id then 1 else 0
  {
  }

  lemma BalancedIs(s: State, source: Source, id: nat)
    requires Valid(s.feature)
    ensures Balanced(s, source, id)
       <==> Announced(s.feature.events, source, id) + Waiting(s.threads, source, id)
            == if IsStored(s.feature, source, id) then 1 else 0
  {
    hide IsStored;
  }

  lemma PushBalanced(s: State, t: nat, source: Source, id: nat)
    requires Valid(s.feature) && Enabled(s, PushEvent(t)) && Balanced(s, source, id)
    ensures var s' := Apply(s, PushEvent(t));
            && Valid(s'.feature) && Balanced(s', source, id)
            && (IsStored(s.feature, source, id) <==> IsStored(s'.feature, source, id))
  {
    var e := s.threads[t].e;
    WaitingChange(s.threads, t, Outside, source, id);
    AnnouncedAppend(s.feature.events, [e], source, id);
    assert [e][..0] == [];
    hide LookupIn;
    hide ValidTable;
  }

  lemma MapsBalanced(s: State, t: nat, source: Source, id: nat)
    requires Valid(s.feature) && Enabled(s, PushMaps(t)) && IsMap(source) && Balanced(s, source, id)
    ensures var s' := Apply(s, PushMaps(t));
            && Valid(s'.feature) && Balanced(s', source, id)
            && (IsStored(s.feature, source, id) <==> IsStored(s'.feature, source, id))
  {
    hide *;
    var es := MapsPushed(s, t);
    AnnouncedAppend(s.feature.events, es, source, id);
    assert forall i :: 0 <= i < |es| ==> es[i].source != source by { MapIsNoDump(source); }
    NoneAnnounced(es, source, id);
    SameMaps(s.feature, s.feature.(events := s.feature.events + es), source, id);
    BalancedIs(s, source, id);
    BalancedIs(Apply(s, PushMaps(t)), source, id);
  }

  lemma MapsPushed(s: State, t: nat) returns (es: seq<Mapping>)
    requires Valid(s.feature) && Enabled(s, PushMaps(t))
    ensures Apply(s, PushMaps(t)) == s.(feature := s.feature.(events := s.feature.events + es))
    ensures forall i :: 0 <= i < |es| ==> es[i].source.MapDump?
  {
    var f := s.feature;
    es := Dumped(Pairs(f.statics, |f.statics|)) + Dumped(Pairs(f.dynamics, |f.dynamics|));
    hide Pairs;
  }

  lemma MapIsNoDump(source: Source)
    requires IsMap(source)
    ensures !source.MapDump?
  {
  }

  lemma SameMaps(f: Feature, f': Feature, source: Source, id: nat)
    requires Valid(f) && f'.statics == f.statics && f'.dynamics == f.dynamics
    ensures Valid(f') && (IsStored(f', source, id) <==> IsStored(f, source, id))
  {
    hide LookupIn;
    hide ValidTable;
  }

  lemma LookUpBalanced(s: State, t: nat, text: cstring, source: Source, id: nat)
    requires Valid(s.feature) && Enabled(s, LookUp(t, text)) && Balanced(s, source, id)
    ensures var s' := Apply(s, LookUp(t, text));
            s'.feature == s.feature && Balanced(s', source, id)
  {
    WaitingChange(s.threads, t, Missed(text), source, id);
    hide LookupIn;
    hide ValidTable;
    hide Djb2;
  }

  /** Every step keeps every identifier balanced, and takes none out of the maps. */
  lemma StepBalanced(s: State, step: Step, source: Source, id: nat)
    requires Valid(s.feature) && Enabled(s, step) && IsMap(source) && Balanced(s, source, id)
    ensures var s' := Apply(s, step);
            && Valid(s'.feature) && Balanced(s', source, id)
            && (IsStored(s.feature, source, id) ==> IsStored(s'.feature, source, id))
  {
    hide Balanced;
    hide IsStored;
    hide Insert;
    hide Djb2;
    match step {
      case InsertStatic(t, address, text, alloc) => InsertBalanced(s, t, Static, address, text, alloc, source, id);
      case LookUp(t, text) => LookUpBalanced(s, t, text, source, id);
      case InsertMissed(t, alloc) =>
        InsertBalanced(s, t, Dynamic, Djb2(s.threads[t].text), s.threads[t].text, alloc, source, id);
      case PushEvent(t) => PushBalanced(s, t, source, id);
      case PushMaps(t) => MapsBalanced(s, t, source, id);
    }
  }

  // What a call returns.

  /** The calls a step makes return: at most one. */
  ghost function Returned(s: State, step: Step): Option<Answer>
    requires Valid(s.feature) && Enabled(s, step)
  {
    match step
    case InsertStatic(t, address, text, alloc) => InsertReturned(s, Static, address, alloc)
    case LookUp(t, text) =>
      if IsStored(s.feature, Dynamic, Djb2(text)) then Some(AnswerTo(Dynamic, Djb2(text), true)) else None
    case InsertMissed(t, alloc) => InsertReturned(s, Dynamic, Djb2(s.threads[t].text), alloc)
    case PushEvent(t) => Some(AnswerTo(s.threads[t].e.source, s.threads[t].e.id, true))
    case PushMaps(_) => None
  }

  /** An insertion returns at once if the key is stored already or cannot be. */
  ghost function InsertReturned(s: State, source: Source, key: nat, alloc: Alloc): Option<Answer>
    requires Valid(s.feature)
  {
    var stored, room := IsStored(s.feature, source, key), HasRoom(TableFor(s.feature, source)[Slot(key)], alloc);
    if !stored && room then None else Some(AnswerTo(source, key, stored))
  }

  function Listed(a: Option<Answer>): seq<Answer> {
    if a.Some? then [a.value] else []
  }

  lemma InsertAnswers(s: State, t: nat, source: Source, key: nat, text: cstring, alloc: Alloc)
    requires Valid(s.feature) && t < |s.threads| && IsMap(source)
    ensures Insert(s, t, source, key, text, alloc).answers == s.answers + Listed(InsertReturned(s, source, key, alloc))
  {
    hide *;
    InsertSplit(s, t, source, key, text, alloc);
    ReturnedParts(s, source, key, alloc);
    assert s.answers + [] == s.answers;
  }

  lemma ReturnedParts(s: State, source: Source, key: nat, alloc: Alloc)
    requires Valid(s.feature)
    ensures var stored := IsStored(s.feature, source, key);
            var room := HasRoom(TableFor(s.feature, source)[Slot(key)], alloc);
            Listed(InsertReturned(s, source, key, alloc))
            == if !stored && room then [] else [AnswerTo(source, key, stored || room)]
  {
    hide IsStored;
    hide HasRoom;
    hide TableFor;
  }

  lemma StepAnswers(s: State, step: Step)
    requires Valid(s.feature) && Enabled(s, step)
    ensures Apply(s, step).answers == s.answers + Listed(Returned(s, step))
  {
    assert s.answers + [] == s.answers;
    hide Insert;
    hide InsertReturned;
    hide Djb2;
    match step {
      case InsertStatic(t, address, text, alloc) => InsertAnswers(s, t, Static, address, text, alloc);
      case InsertMissed(t, alloc) => InsertAnswers(s, t, Dynamic, Djb2(s.threads[t].text), s.threads[t].text, alloc);
      case _ =>
    }
  }

  lemma {:induction false} SomeoneWaits(threads: seq<Phase>, t: nat)
    requires t < |threads| && threads[t].Pushing?
    ensures Waiting(threads, threads[t].e.source, threads[t].e.id) > 0
  {
    var n := |threads| - 1;
    if t < n {
      SomeoneWaits(threads[..n], t);
    }
  }

  /** A call that returns says truly whether its label is stored. */
  lemma ReturnedIsTrue(s: State, step: Step)
    requires Inv(s) && Enabled(s, step) && Returned(s, step).Some?
    ensures var a := Returned(s, step).value;
            IsMap(a.source) && a == AnswerTo(a.source, a.key, a.stored)
            && (a.stored <==> IsStored(s.feature, a.source, a.key))
  {
    hide Djb2;
    hide LookupIn;
    hide HasRoom;
    if step.PushEvent? {
      var e := s.threads[step.t].e;
      SomeoneWaits(s.threads, step.t);
      assert Balanced(s, e.source, e.id);
    }
  }

  lemma ThreadSources(s: State, step: Step)
    requires Valid(s.feature) && Enabled(s, step)
    requires forall t :: 0 <= t < |s.threads| && s.threads[t].Pushing? ==> IsMap(s.threads[t].e.source)
    ensures var s' := Apply(s, step);
            forall t :: 0 <= t < |s'.threads| && s'.threads[t].Pushing? ==> IsMap(s'.threads[t].e.source)
  {
    hide Djb2;
    hide LookupIn;
    hide InsertIn;
  }

  lemma AnswersStay(f: Feature, f': Feature, answers: seq<Answer>, more: seq<Answer>)
    requires Valid(f) && Valid(f')
    requires forall source: Source, id: nat :: IsMap(source) && IsStored(f, source, id) ==> IsStored(f', source, id)
    requires forall i :: 0 <= i < |answers| ==> Truthful(f, answers[i])
    requires forall i :: 0 <= i < |more| ==> Truthful(f, more[i])
    ensures forall i :: 0 <= i < |answers + more| ==> Truthful(f', (answers + more)[i])
  {
    hide IsStored;
    var all := answers + more;
    forall i | 0 <= i < |all|
      ensures Truthful(f', all[i])
    {
      assert Truthful(f, all[i]);
    }
  }

  lemma StepKeepsInv(s: State, step: Step)
    requires Inv(s) && Enabled(s, step)
    ensures Inv(Apply(s, step))
  {
    InvParts(s);
    hide *;
    var s' := Apply(s, step);
    var more := Listed(Returned(s, step));
    StepBalanced(s, step, Static, 0);
    forall source: Source, id: nat | IsMap(source)
      ensures Balanced(s', source, id) && (IsStored(s.feature, source, id) ==> IsStored(s'.feature, source, id))
    {
      StepBalanced(s, step, source, id);
    }
    ThreadSources(s, step);
    StepAnswers(s, step);
    ListedTrue(s, step);
    AnswersStay(s.feature, s'.feature, s.answers, more);
    InvParts(s');
  }

  lemma InvParts(s: State)
    requires Valid(s.feature)
    ensures IsMap(Static)
    ensures Inv(s)
       <==> && (forall source: Source, id: nat :: IsMap(source) ==> Balanced(s, source, id))
            && (forall t :: 0 <= t < |s.threads| && s.threads[t].Pushing? ==> IsMap(s.threads[t].e.source))
            && (forall i :: 0 <= i < |s.answers| ==> Truthful(s.feature, s.answers[i]))
  {
    hide Balanced;
    hide Truthful;
  }

  lemma ListedTrue(s: State, step: Step)
    requires Inv(s) && Enabled(s, step)
    ensures forall i :: 0 <= i < |Listed(Returned(s, step))| ==> Truthful(s.feature, Listed(Returned(s, step))[i])
  {
    if Returned(s, step).Some? {
      ReturnedIsTrue(s, step);
    }
    hide Returned;
    hide IsStored;
  }

  // Whole runs.

  ghost predicate Next(s: State, step: Step, s': State) {
    Valid(s.feature) && Enabled(s, step) && s' == Apply(s, step)
  }

  ghost predicate IsRun(states: seq<State>, steps: seq<Step>) {
    && |states| == |steps| + 1
    && forall i :: 0 <= i < |steps| ==> Next(states[i], steps[i], states[i + 1])
  }

  ghost predicate Fresh(s: State) {
    s.feature == Empty() && s.answers == [] && forall t :: 0 <= t < |s.threads| ==> s.threads[t].Outside?
  }

  lemma {:induction false} NobodyWaits(threads: seq<Phase>, source: Source, id: nat)
    requires forall t :: 0 <= t < |threads| ==> !threads[t].Pushing?
    ensures Waiting(threads, source, id) == 0
  {
    if threads != [] {
      NobodyWaits(threads[..|threads| - 1], source, id);
    }
  }

  lemma FreshInv(s: State)
    requires Fresh(s)
    ensures Inv(s)
  {
    NewTableEmpty<cstring>();
    forall source: Source, id: nat | IsMap(source)
      ensures Balanced(s, source, id)
    {
      NobodyWaits(s.threads, source, id);
    }
  }

  lemma {:induction false} RunKeepsInv(states: seq<State>, steps: seq<Step>, i: nat)
    requires IsRun(states, steps) && Fresh(states[0]) && i <= |steps|
    ensures Inv(states[i])
  {
    if i == 0 {
      FreshInv(states[0]);
    } else {
      RunKeepsInv(states, steps, i - 1);
      assert Next(states[i - 1], steps[i - 1], states[i]);
      StepKeepsInv(states[i - 1], steps[i - 1]);
    }
  }

  /** No thread is between inserting an identifier and announcing it. */
  predicate NobodyPushing(threads: seq<Phase>, source: Source, id: nat) {
    forall t :: 0 <= t < |threads| && threads[t].Pushing? ==> threads[t].e.source != source || threads[t].e.id != id
  }

  lemma {:induction false} WaitingIsPushing(threads: seq<Phase>, source: Source, id: nat)
    ensures Waiting(threads, source, id) == 0 <==> NobodyPushing(threads, source, id)
  {
    if threads != [] {
      var n := |threads| - 1;
      WaitingIsPushing(threads[..n], source, id);
      assert threads == threads[..n] + [threads[n]];
    }
  }

  /**
   In every state of every run of any number of threads, for every call that has returned: the identifier is
   zero or that of its label; if the label was stored, the identifier has been announced exactly once, or else
   exactly one thread is about to announce it.
   */
  lemma AnnouncedOrWaiting(states: seq<State>, steps: seq<Step>, i: nat, k: nat)
    requires IsRun(states, steps) && Fresh(states[0]) && i <= |steps| && k < |states[i].answers|
    ensures var s, a := states[i], states[i].answers[k];
            && a.id == (if a.stored || a.source.Dynamic? then a.key else 0)
            && (a.stored ==> Announced(s.feature.events, a.source, a.key) + Waiting(s.threads, a.source, a.key) == 1)
            && (a.stored ==> (Announced(s.feature.events, a.source, a.key) == 1
                              <==> NobodyPushing(s.threads, a.source, a.key)))
  {
    var s, a := states[i], states[i].answers[k];
    RunKeepsInv(states, steps, i);
    assert Truthful(s.feature, a) && Balanced(s, a.source, a.key);
    WaitingIsPushing(s.threads, a.source, a.key);
    hide IsRun;
    hide NobodyPushing;
    hide LookupIn;
  }

  /**
   At the moment a call returns: its identifier has been announced if and only if its label was stored or could be,
   and no thread is between inserting it and announcing it.
   */
  lemma AnnouncedWhenReturned(states: seq<State>, steps: seq<Step>, i: nat)
    requires IsRun(states, steps) && Fresh(states[0]) && i < |steps|
    ensures Valid(states[i].feature) && Enabled(states[i], steps[i])
    ensures states[i + 1].answers == states[i].answers + Listed(Returned(states[i], steps[i]))
    ensures var a, s' := Returned(states[i], steps[i]), states[i + 1];
            a.Some? ==>
              && a.value.stored == IsStored(states[i].feature, a.value.source, a.value.key)
              && (Announced(s'.feature.events, a.value.source, a.value.key) == 1
                  <==> a.value.stored && NobodyPushing(s'.threads, a.value.source, a.value.key))
  {
    var s, s' := states[i], states[i + 1];
    RunKeepsInv(states, steps, i);
    RunKeepsInv(states, steps, i + 1);
    assert Next(s, steps[i], s');
    StepAnswers(s, steps[i]);
    hide IsRun;
    if Returned(s, steps[i]).Some? {
      var a := Returned(s, steps[i]).value;
      ReturnedIsTrue(s, steps[i]);
      ReturnedStays(s, steps[i]);
      WaitingIsPushing(s'.threads, a.source, a.key);
      assert Balanced(s', a.source, a.key);
      hide *;
      BalancedIs(s', a.source, a.key);
    }
  }

  /** A step that makes a call return stores nothing new. */
  lemma ReturnedStays(s: State, step: Step)
    requires Inv(s) && Enabled(s, step) && Returned(s, step).Some?
    ensures var a, f' := Returned(s, step).value, Apply(s, step).feature;
            Valid(f') && (IsStored(f', a.source, a.key) <==> IsStored(s.feature, a.source, a.key))
  {
    hide Djb2;
    hide LookupIn;
    hide HasRoom;
    hide AddTo;
    match step {
      case InsertStatic(t, address, text, alloc) =>
        InsertSplit(s, t, Static, address, text, alloc);
        InsertStores(s.feature, Static, address, text, alloc, Static, address);
      case InsertMissed(t, alloc) =>
        var text := s.threads[t].text;
        InsertSplit(s, t, Dynamic, Djb2(text), text, alloc);
        InsertStores(s.feature, Dynamic, Djb2(text), text, alloc, Dynamic, Djb2(text));
      case _ =>
    }
  }

  // An identifier that is returned before it is announced.

  /** Two threads add the same static label; the second one returns while the first has yet to push the event. */
  lemma ReturnedBeforeAnnounced(address: nat, text: cstring, alloc: Alloc)
    returns (states: seq<State>, steps: seq<Step>)
    ensures IsRun(states, steps) && Fresh(states[0]) && |steps| == 2
    ensures states[2].answers == [Answer(Static, address, address, true)]
    ensures Announced(states[2].feature.events, Static, address) == 0
  {
    var s0 := State(Empty(), [Outside, Outside], []);
    FreshInv(s0);
    var first, second := InsertStatic(0, address, text, alloc), InsertStatic(1, address, text, alloc);
    assert Fresh(s0) && Enabled(s0, first);
    hide *;
    FirstInserts(s0, address, text, alloc);
    var s1 := Apply(s0, first);
    StepKeepsInv(s0, first);
    SecondReturns(s1, address, text, alloc);
    var s2 := Apply(s1, second);
    states, steps := [s0, s1, s2], [first, second];
    TwoSteps(states, steps);
    AnnouncedWhenReturned(states, steps, 1);
    NotNobody(s2.threads, 0, Static, address);
    RunKeepsInv(states, steps, 2);
    AtMostOne(s2, Static, address);
  }

  lemma FirstInserts(s: State, address: nat, text: cstring, alloc: Alloc)
    requires Fresh(s) && s.threads == [Outside, Outside]
    ensures var step := InsertStatic(0, address, text, alloc);
            && Valid(s.feature) && Enabled(s, step)
            && var s' := Apply(s, step);
               && Valid(s'.feature) && s'.threads == [Pushing(Mapping(address, text, Static)), Outside]
               && s'.answers == [] && IsStored(s'.feature, Static, address)
  {
    NewTableEmpty<cstring>();
    InsertSplit(s, 0, Static, address, text, alloc);
    InsertStores(s.feature, Static, address, text, alloc, Static, address);
    hide AddTo;
  }

  lemma SecondReturns(s: State, address: nat, text: cstring, alloc: Alloc)
    requires Valid(s.feature) && IsStored(s.feature, Static, address)
    requires |s.threads| == 2 && s.threads[1].Outside? && s.answers == []
    ensures var step := InsertStatic(1, address, text, alloc);
            && Enabled(s, step) && Returned(s, step) == Some(Answer(Static, address, address, true))
            && Apply(s, step).threads == s.threads && Apply(s, step).answers == [Answer(Static, address, address, true)]
  {
    InsertSplit(s, 1, Static, address, text, alloc);
    hide AddTo;
    hide LookupIn;
    hide HasRoom;
  }

  lemma TwoSteps(states: seq<State>, steps: seq<Step>)
    requires |states| == 3 && |steps| == 2 && Valid(states[0].feature) && Valid(states[1].feature)
    requires Enabled(states[0], steps[0]) && states[1] == Apply(states[0], steps[0])
    requires Enabled(states[1], steps[1]) && states[2] == Apply(states[1], steps[1])
    ensures IsRun(states, steps)
  {
    hide Apply;
    hide Enabled;
  }

  lemma NotNobody(threads: seq<Phase>, t: nat, source: Source, id: nat)
    requires t < |threads| && threads[t].Pushing? && threads[t].e.source == source && threads[t].e.id == id
    ensures !NobodyPushing(threads, source, id)
  {
  }

  lemma AtMostOne(s: State, source: Source, id: nat)
    requires Inv(s) && IsMap(source)
    ensures Announced(s.feature.events, source, id) <= 1
  {
    assert Balanced(s, source, id);
  }

  // A call that is not interrupted.

  /** The rest of a call, when no other thread comes between. */
  ghost function Finish(s: State, t: nat): State
    requires Valid(s.feature) && t < |s.threads|
  {
    if s.threads[t].Pushing? then Apply(s, PushEvent(t)) else s
  }

  /** add_mapping without interruption is the operation of the sequential specification. */
  lemma AloneStatic(s: State, t: nat, address: nat, text: cstring, alloc: Alloc)
    requires Valid(s.feature) && t < |s.threads| && s.threads[t].Outside?
    ensures var s1 := Apply(s, InsertStatic(t, address, text, alloc));
            && Valid(s1.feature)
            && var s2, d := Finish(s1, t), Do(s.feature, AddMapping(address, text, alloc));
               && s2.feature == d.feature && s2.threads == s.threads
               && |s2.answers| == |s.answers| + 1 && s.answers <= s2.answers
               && s2.answers[|s.answers|] == Answer(Static, address, d.id, s2.answers[|s.answers|].stored)
  {
    InsertAlone(s, t, Static, address, text, alloc);
    hide AddTo;
    hide Insert;
  }

  /** The same for add_mapping_dynamic, the lookup and the insertion being two steps. */
  lemma AloneDynamic(s: State, t: nat, text: cstring, alloc: Alloc)
    requires Valid(s.feature) && t < |s.threads| && s.threads[t].Outside?
    ensures var s1 := Apply(s, LookUp(t, text));
            var s2 := if s1.threads[t].Missed? then Apply(s1, InsertMissed(t, alloc)) else s1;
            && Valid(s2.feature)
            && var s3, d := Finish(s2, t), Do(s.feature, AddDynamic(text, alloc));
               && s3.feature == d.feature && s3.threads == s.threads
               && |s3.answers| == |s.answers| + 1 && s.answers <= s3.answers
               && s3.answers[|s.answers|] == Answer(Dynamic, Djb2(text), d.id, s3.answers[|s.answers|].stored)
  {
    hide Djb2;
    hide AddTo;
    var s1 := Apply(s, LookUp(t, text));
    if s1.threads[t].Missed? {
      InsertAlone(s1, t, Dynamic, Djb2(text), text, alloc);
      assert s.threads[t := Missed(text)][t := Outside] == s.threads;
    } else {
      var a := AnswerTo(Dynamic, Djb2(text), true);
      assert s1.answers == s.answers + [a];
    }
  }

  lemma InsertAlone(s: State, t: nat, source: Source, key: nat, text: cstring, alloc: Alloc)
    requires Valid(s.feature) && t < |s.threads| && IsMap(source)
    ensures var s1 := Insert(s, t, source, key, text, alloc);
            var a := AddTo(TableFor(s.feature, source), key, text, alloc, source);
            && Valid(s1.feature)
            && var s2 := Finish(s1, t);
               && s2.feature == WithTable(s.feature, source, a.table).(events := s.feature.events + a.events)
               && s2.threads == s.threads[t := Outside] && s2.answers == s.answers + [AnswerTo(source, key, !a.failed)]
  {
    InsertSplit(s, t, source, key, text, alloc);
    InsertStores(s.feature, source, key, text, alloc, source, key);
    AddsWhen(TableFor(s.feature, source), key, text, alloc, source);
    hide AddTo;
    hide LookupIn;
    hide HasRoom;
    hide ValidTable;
    assert s.feature.events + [] == s.feature.events;
  }
}
