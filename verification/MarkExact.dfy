/**
A full collection marks no more than it must: the least set that contains the retained objects and
the roots and is closed under pointers.
 */
module MarkExact {
  import opened MarkModel
  import opened MarkSafety
  import opened MarkRuns

  /** All marks, and all objects the mark stack refers to, lie in c. */
  ghost predicate Within(s: State, c: set<Obj>) {
    && s.marked <= c
    && (forall k :: 0 <= k < |s.stack| && s.stack[k].src.Object? ==> s.stack[k].src.o in c)
  }

  /** Parallel marking marks only what it finds from the mark stack. */
  ghost predicate Needed(s: State, a: Answer) {
    s.phase == RootsPushed && s.parallel ==> forall c :: MarksClosed(s, c) && Within(s, c) ==> a.marks <= c
  }

  ghost predicate SameMemory(s: State, t: State) {
    t.heap == s.heap && t.statics == s.statics && t.stackRoots == s.stackRoots
  }

  lemma ClosedSame(s: State, t: State, c: set<Obj>)
    requires SameMemory(s, t)
    ensures MarksClosed(s, c) <==> MarksClosed(t, c)
  {
    assert forall w :: IsRootWord(s, w) <==> IsRootWord(t, w);
  }

  lemma AppendWithin(stack: seq<Entry>, rest: seq<Entry>, e: Entry, c: set<Obj>)
    requires forall k :: 0 <= k < |stack| && stack[k].src.Object? ==> stack[k].src.o in c
    requires rest <= stack && (e.src.Object? ==> e.src.o in c)
    ensures forall k :: 0 <= k < |rest + [e]| && (rest + [e])[k].src.Object? ==> (rest + [e])[k].src.o in c
  {
  }

  lemma PushEntryWithin(s: State, e: Entry, c: set<Obj>)
    requires Within(s, c) && (e.src.Object? ==> e.src.o in c)
    ensures Within(PushEntry(s, e), c)
  {
    var keep := if DISCARDS <= |s.stack| then |s.stack| - DISCARDS else 0;
    AppendWithin(s.stack, if |s.stack| < s.capacity then s.stack else s.stack[..keep], e, c);
    hide DISCARDS, INITIAL_MARK_STACK_SIZE;
  }

  lemma PushObjWithin(s: State, o: Obj, c: set<Obj>)
    requires Within(s, c) && o in c
    ensures Within(PushObj(s, o), c)
  {
    if Scanned(s.heap, o) { PushEntryWithin(s, Entry(Object(o), 0, |s.heap.contents[o]|), c); }
  }

  lemma PushContentsWithin(s: State, w: Word, c: set<Obj>)
    requires Within(s, c) && (w in s.heap.home ==> w in c)
    ensures Within(PushContents(s, w), c)
  {
    if w in s.heap.home && w !in s.marked { PushObjWithin(s.(marked := s.marked + {w}), w, c); }
  }

  lemma {:induction false} ScanWordsWithin(s: State, ws: seq<Word>, from: nat, hi: nat, c: set<Obj>)
    requires Within(s, c) && INITIAL_MARK_STACK_SIZE <= s.capacity
    requires forall i :: 0 <= i < |ws| && ws[i] in s.heap.home ==> ws[i] in c
    ensures Within(ScanWords(s, ws, from, hi), c)
    decreases hi - from
  {
    if from < hi && from < |ws| {
      PushContentsWithin(s, ws[from], c);
      PushContentsPushed(s, ws[from]);
      ScanWordsWithin(PushContents(s, ws[from]), ws, from + 1, hi, c);
    }
  }

  lemma WordsWithin(s: State, src: Source, i: nat, c: set<Obj>)
    requires MarksClosed(s, c) && (src.Object? ==> src.o in c) && i < |WordsOf(s, src)| && WordsOf(s, src)[i] in s.heap.home
    ensures WordsOf(s, src)[i] in c
  {
    var w := WordsOf(s, src)[i];
    match src
    case Object(o) => assert w in FieldsOf(s.heap, o);
    case StaticArea(k) => assert w in s.statics[k] && IsRootWord(s, w);
  }

  lemma MarkStepWithin(s: State, c: set<Obj>)
    requires MarksClosed(s, c) && Within(s, c) && 0 < |s.stack| && INITIAL_MARK_STACK_SIZE <= s.capacity
    ensures Within(MarkStep(s), c)
  {
    var e := s.stack[|s.stack| - 1];
    var r := s.(stack := WithoutPiece(s.stack), objectsMarked := true);
    forall k | 0 <= k < |r.stack| && r.stack[k].src.Object? ensures r.stack[k].src.o in c {
      assert r.stack[k].src == s.stack[k].src;
    }
    forall i | 0 <= i < |WordsOf(s, e.src)| && WordsOf(s, e.src)[i] in s.heap.home ensures WordsOf(s, e.src)[i] in c {
      WordsWithin(s, e.src, i, c);
    }
    ScanWordsWithin(r, WordsOf(s, e.src), e.lo, PieceEnd(e), c);
  }

  lemma {:induction false} MarkFromWithin(s: State, credit: int, c: set<Obj>)
    requires INITIAL_MARK_STACK_SIZE <= s.capacity && |s.stack| <= s.capacity && WordsOk(s)
    requires MarksClosed(s, c) && Within(s, c)
    ensures Within(MarkFrom(s, credit), c)
    decreases if credit < 0 then 0 else credit + 1, |s.stack|
  {
    if 0 <= credit && 0 < |s.stack| {
      MarkStepWithin(s, c);
      MarkStepOk(s);
      ClosedSame(s, MarkStep(s), c);
      MarkFromWithin(MarkStep(s), credit - Cost(s.stack[|s.stack| - 1]), c);
    }
  }

  lemma {:induction false} PushMarkedWithin(s: State, objs: seq<Obj>, i: nat, c: set<Obj>)
    requires Within(s, c)
    ensures Within(PushMarkedObjects(s, objs, i), c)
    decreases |objs| - i
  {
    if i < |objs| {
      if objs[i] in s.marked { PushObjWithin(s, objs[i], c); }
      PushMarkedWithin(if objs[i] in s.marked then PushObj(s, objs[i]) else s, objs, i + 1, c);
    }
  }

  lemma PushNextWithin(s: State, f: Filter, c: set<Obj>)
    requires Within(s, c)
    ensures Within(PushNext(s, f), c)
  {
    var k := NextMatch(s, s.scanPtr, f);
    if k in s.heap.blocks {
      PushMarkedWithin(s.(objectsMarked := true), s.heap.blocks[k].objs, 0, c);
    }
  }

  lemma {:induction false} PushStaticsWithin(s: State, k: nat, c: set<Obj>)
    requires Within(s, c)
    ensures Within(PushStatics(s, k), c)
    decreases |s.statics| - k
  {
    if k < |s.statics| && !s.aborted && |s.stack| < s.capacity {
      PushStaticsWithin(s.(stack := s.stack + [Entry(StaticArea(k), 0, |s.statics[k]|)]), k + 1, c);
    }
  }

  lemma PushRootsWithin(s: State, c: set<Obj>)
    requires MarksClosed(s, c) && Within(s, c) && INITIAL_MARK_STACK_SIZE <= s.capacity && |s.stack| <= s.capacity
    ensures Within(AfterRoots(PushRoots(s)), c)
  {
    PushStaticsWithin(s, 0, c);
    PushStaticsPushed(s, 0);
    var t := PushStatics(s, 0);
    forall i | 0 <= i < |t.stackRoots| && t.stackRoots[i] in t.heap.home ensures t.stackRoots[i] in c {
      assert IsRootWord(s, t.stackRoots[i]);
    }
    ScanWordsWithin(t, t.stackRoots, 0, |t.stackRoots|, c);
  }

  lemma MarkFromStackWithin(s: State, c: set<Obj>)
    requires Inv(s) && Tracked(s) && MarksClosed(s, c) && Within(s, c)
    ensures Within(MarkFromStack(s), c)
  {
    var r := s.(objectsMarked := true);
    WordsOkSame(s, r);
    ClosedSame(s, r, c);
    MarkFromWithin(r, HBLK_WORDS, c);
  }

  lemma StackWithin(s: State, c: set<Obj>)
    requires Inv(s) && Tracked(s) && MarksClosed(s, c) && Within(s, c)
    ensures Within(MarkFromStack(s), c) && Within(MarkFromStack(s.(tooSmall := true)), c)
  {
    var t := s.(tooSmall := true);
    TooSmallInv(s);
    ClosedSame(s, t, c);
    assert Within(t, c) && Tracked(t);
    hide Inv, MarksClosed, Within, MarkFromStack;
    MarkFromStackWithin(s, c);
    MarkFromStackWithin(t, c);
  }

  lemma ScanWithin(s: State, f: Filter, c: set<Obj>)
    requires Inv(s) && Tracked(s) && FilterFits(s.phase, f) && (s.objectsMarked || s.phase != Invalid)
    requires MarksClosed(s, c) && Within(s, c)
    ensures var t := PushNext(s, f); Within(t, c) && Within(AfterRoots(PushRoots(t)), c)
  {
    PushNextWithin(s, f, c);
    PushNextInv(s, f);
    ClosedSame(s, PushNext(s, f), c);
    PushRootsWithin(PushNext(s, f), c);
  }

  /** GC_mark_some marks only objects that every closed set around the marked ones contains. */
  lemma MarkSomeWithin(s: State, a: Answer, c: set<Obj>)
    requires Inv(s) && Tracked(s) && !s.aborted && MarksClosed(s, c) && Within(s, c) && Needed(s, a)
    ensures Within(MarkSome(s, a).s, c)
  {
    match s.phase
    case Idle =>
    case PushRescuers =>
      if s.capacity - INITIAL_MARK_STACK_SIZE / 2 <= |s.stack| - 1 {
        StackWithin(s, c);
      } else {
        ScanWithin(s, DirtyBlock, c);
      }
    case PushUncollectable =>
      if s.capacity / 4 <= |s.stack| - 1 {
        StackWithin(s, c);
      } else { ScanWithin(s, UncollectableBlock, c); }
    case RootsPushed =>
      if 0 < |s.stack| && !s.parallel { MarkFromStackWithin(s, c); }
    case _ =>
      if s.objectsMarked {
        if 0 < |s.stack| { MarkFromStackWithin(s, c); } else { InvalidWithin(s, a.ok, c); }
      }
  }

  lemma InvalidWithin(s: State, ok: bool, c: set<Obj>)
    requires Inv(s) && Tracked(s) && !s.aborted && MarksClosed(s, c) && Within(s, c)
    requires (s.phase == Invalid || s.phase == PartiallyInvalid) && s.objectsMarked && s.stack == []
    ensures Within(HeapScan(StartRescan(s, ok)), c)
  {
    var r := StartRescan(s, ok);
    if s.scanPtr == 0 && s.phase == Invalid { StartRescanInv(s, ok); }
    ClosedSame(s, r, c);
    ScanWithin(r, AnyBlock, c);
  }

  /** Consecutive calls of GC_mark_some. */
  ghost predicate IsMarking(states: seq<State>, answers: seq<Answer>) {
    && |states| == |answers| + 1
    && forall i :: 0 <= i < |answers| ==>
      !states[i].aborted && IsAnswer(states[i], answers[i]) && states[i + 1] == MarkSome(states[i], answers[i]).s
  }

  ghost predicate IsAnswer(s: State, a: Answer) { Possible(s, a) && Needed(s, a) }

  lemma {:induction false} MarkingWithin(states: seq<State>, answers: seq<Answer>, n: nat, c: set<Obj>)
    requires IsMarking(states, answers) && n <= |answers| && !states[n].aborted
    requires Inv(states[0]) && Tracked(states[0]) && MarksClosed(states[0], c) && Within(states[0], c)
    ensures Inv(states[n]) && SameWorld(states[0], states[n]) && Within(states[n], c)
  {
    if n != 0 {
      MarkingWithin(states, answers, n - 1, c);
      var s := states[n - 1];
      ClosedSame(states[0], s, c);
      MarkSomeInv(s, answers[n - 1]);
      MarkSomeWithin(s, answers[n - 1], c);
    }
  }

  lemma {:induction false} MarkingGrows(states: seq<State>, answers: seq<Answer>, n: nat)
    requires IsMarking(states, answers) && n <= |answers| && !states[n].aborted && Inv(states[0]) && Tracked(states[0])
    ensures Inv(states[n]) && SameWorld(states[0], states[n])
  {
    if n != 0 {
      MarkingGrows(states, answers, n - 1);
      hide Inv, MarkSome;
      MarkSomeInv(states[n - 1], answers[n - 1]);
    }
  }

  /** Consecutive calls of GC_mark_some: the states between them, and how memory and parallel marking answered. */
  datatype Run = Run(states: seq<State>, answers: seq<Answer>)

  /** The calls lead from s to t, and there was always something left to do. */
  ghost predicate Calls(s: State, run: Run, t: State) {
    && IsMarking(run.states, run.answers) && run.states[0] == s && run.states[|run.answers|] == t
    && forall i :: 0 <= i < |run.answers| ==> run.states[i].phase != Idle
  }

  lemma NoCalls(s: State)
    ensures Calls(s, Run([s], []), s)
  {
  }

  function Then(run: Run, a: Answer, t: State): Run { Run(run.states + [t], run.answers + [a]) }

  lemma CallsThen(s: State, run: Run, t: State, a: Answer)
    requires Calls(s, run, t) && !t.aborted && t.phase != Idle && IsAnswer(t, a)
    ensures Calls(s, Then(run, a, MarkSome(t, a).s), MarkSome(t, a).s)
  {
    hide MarkSome, IsAnswer;
  }

  /** The last call leads to t and reports the end of the mark phase. */
  ghost predicate EndsWell(run: Run, t: State) {
    var n := |run.answers|;
    0 < n < |run.states| && LastStep(run.states[n - 1], run.answers[n - 1], t)
  }

  lemma EndsThen(s: State, run: Run, t: State, a: Answer, u: State)
    requires Calls(s, run, t) && LastStep(t, a, u)
    ensures EndsWell(Then(run, a, u), u)
  {
    hide LastStep;
    var more := Then(run, a, u);
    assert more.states[|more.answers| - 1] == t && more.answers[|more.answers| - 1] == a;
  }

  lemma EndMissesOnlyStray(run: Run, t: State)
    requires EndsWell(run, t)
    ensures OnlyStrayMissed(t)
  {
    MarkSomeComplete(run.states[|run.answers| - 1], run.answers[|run.answers| - 1]);
  }

  /** Marking has kept the marks, and has marked and pushed only what it found. */
  ghost predicate OnlyFound(s: State, t: State) {
    SameMemory(s, t) && s.marked <= t.marked && forall c :: MarksClosed(s, c) && Within(s, c) ==> Within(t, c)
  }

  lemma CallsFind(s: State, run: Run, t: State)
    requires Calls(s, run, t) && Inv(s) && Tracked(s) && !t.aborted
    ensures OnlyFound(s, t) && t.stray == s.stray
  {
    hide IsMarking, MarksClosed, Within, Inv;
    MarkingGrows(run.states, run.answers, |run.answers|);
    forall c | MarksClosed(s, c) && Within(s, c) ensures Within(t, c) { MarkingWithin(run.states, run.answers, |run.answers|, c); }
  }

  /** The same, where the world is stopped for the calls. */
  lemma StoppedCallsFind(s: State, run: Run, t: State)
    requires Calls(Initiate(s), run, t) && Inv(Initiate(s)) && !t.aborted
    ensures OnlyFound(s, t.(stopped := false))
  {
    InitiateIs(s);
    FoundSame(t, t.(stopped := false));
    hide Calls, Inv, MarksClosed, Initiate, OnlyFound;
    FoundSame(s, Initiate(s));
    CallsFind(Initiate(s), run, t);
    FoundThen(s, Initiate(s), t);
    FoundThen(s, t, t.(stopped := false));
  }

  lemma InitiateIs(s: State)
    ensures var t := Initiate(s);
      t.heap == s.heap && t.statics == s.statics && t.stackRoots == s.stackRoots && t.marked == s.marked && t.stack == s.stack && t.stopped
  {
    hide Inv, MarksClosed, Within, MarkSome;
  }

  lemma FoundSame(s: State, t: State)
    requires SameMemory(s, t) && t.marked == s.marked && t.stack == s.stack
    ensures OnlyFound(s, t)
  {
    forall c | Within(s, c) ensures Within(t, c) {}
  }

  lemma FoundNothing(s: State)
    ensures OnlyFound(s, s)
  {
  }

  lemma FoundThen(s: State, t: State, u: State)
    requires OnlyFound(s, t) && OnlyFound(t, u)
    ensures OnlyFound(s, u)
  {
    forall c | MarksClosed(s, c) && Within(s, c) ensures Within(u, c) { ClosedSame(s, t, c); }
  }

  /** The least marks that parallel marking can come to. */
  ghost function LeastMarks(s: State): set<Obj> {
    set o | o in s.heap.home && forall c :: MarksClosed(s, c) && Within(s, c) ==> o in c
  }

  /** A word in a range on the mark stack refers into every closed set around the stack. */
  lemma EntryWithin(s: State, k: nat, i: nat, c: set<Obj>)
    requires MarksClosed(s, c) && Within(s, c) && k < |s.stack| && i < |WordsOf(s, s.stack[k].src)|
    requires WordsOf(s, s.stack[k].src)[i] in s.heap.home
    ensures WordsOf(s, s.stack[k].src)[i] in c
  {
    WordsWithin(s, s.stack[k].src, i, c);
  }

  /** There always is an answer, without an overflow. */
  lemma AnswerExists(s: State, ok: bool)
    requires s.marked <= s.heap.home.Keys
    ensures IsAnswer(s, Answer(ok, LeastMarks(s), false))
  {
    var m := LeastMarks(s);
    forall o | o in s.marked ensures o in m {}
    forall k, i: nat | 0 <= k < |s.stack| && s.stack[k].lo <= i < s.stack[k].hi && i < |WordsOf(s, s.stack[k].src)|
      ensures WordsOf(s, s.stack[k].src)[i] in s.heap.home ==> WordsOf(s, s.stack[k].src)[i] in m
    {
      if WordsOf(s, s.stack[k].src)[i] in s.heap.home {
        forall c | MarksClosed(s, c) && Within(s, c) ensures WordsOf(s, s.stack[k].src)[i] in c { EntryWithin(s, k, i, c); }
      }
    }
    forall o, w | o in m && w in FieldsOf(s.heap, o) && w in s.heap.home ensures w in m {
      forall c | MarksClosed(s, c) && Within(s, c) ensures w in c {}
    }
  }

  /** The state in which GC_try_to_collect_inner starts a world-stopped full collection. */
  ghost function FullStart(s: State): State {
    Initiate(ClearMarks(InvalidateMarkState(s)))
  }

  /** The objects whose marks the full collection does not clear. */
  ghost function Retained(s: State): set<Obj> {
    set o | o in s.marked && KeepsMarks(s, o)
  }

  lemma FullStartInv(s: State)
    requires Inv(s) && !s.stopped && !s.aborted
    ensures Inv(FullStart(s)) && SameMemory(s, FullStart(s)) && FullStart(s).marked == Retained(s)
    ensures FullStart(s).stack == [] && FullStart(s).stopped && FullStart(s).stray == {}
  {
    var t := ClearMarks(InvalidateMarkState(s));
    StepInv(s, InvalidateAndClear);
    InitiateInv(t);
    assert t.marked == Retained(s);
  }

  /** The marker runs from the start of a full collection to the call that reports its end. */
  ghost predicate IsFullCollection(s: State, states: seq<State>, answers: seq<Answer>, a: Answer) {
    && Inv(s) && !s.stopped && !s.aborted && IsMarking(states, answers) && states[0] == FullStart(s)
    && var last := states[|answers|]; !last.aborted && IsAnswer(last, a) && MarkSome(last, a).done
  }

  lemma LastState(s: State, states: seq<State>, answers: seq<Answer>, a: Answer, c: set<Obj>)
    requires IsFullCollection(s, states, answers, a) && MarksClosed(s, c) && Retained(s) <= c
    ensures var last := states[|answers|]; Inv(last) && last.stopped && SameMemory(s, last) && Within(last, c)
    ensures Retained(s) <= states[|answers|].marked && states[|answers|].stray == {}
  {
    FullStartInv(s);
    ClosedSame(s, states[0], c);
    hide FullStart, MarksClosed, MarkSome, IsAnswer, Inv;
    MarkingWithin(states, answers, |answers|, c);
  }

  lemma FullCollectionBounded(s: State, states: seq<State>, answers: seq<Answer>, a: Answer, c: set<Obj>)
    requires IsFullCollection(s, states, answers, a) && MarksClosed(s, c) && Retained(s) <= c
    ensures MarkSome(states[|answers|], a).s.marked <= c
  {
    LastState(s, states, answers, a, c);
    ClosedSame(s, states[|answers|], c);
    hide MarksClosed, MarkSome, Inv, IsMarking;
    MarkSomeWithin(states[|answers|], a, c);
  }

  lemma AllClosed(s: State)
    ensures MarksClosed(s, s.heap.home.Keys)
  {
  }

  /** m is the least closed set that contains kept. */
  ghost predicate LeastAround(s: State, kept: set<Obj>, m: set<Obj>) {
    MarksClosed(s, m) && kept <= m && forall c :: MarksClosed(s, c) && kept <= c ==> m <= c
  }

  /** A finished full collection has marked exactly the least closed set around the retained objects. */
  lemma FullCollectionExact(s: State, states: seq<State>, answers: seq<Answer>, a: Answer)
    requires IsFullCollection(s, states, answers, a)
    ensures LeastAround(s, Retained(s), MarkSome(states[|answers|], a).s.marked)
  {
    var last := states[|answers|];
    var m := MarkSome(last, a).s.marked;
    AllClosed(s);
    assert Retained(s) <= s.heap.home.Keys;
    LastState(s, states, answers, a, s.heap.home.Keys);
    hide IsMarking, FullStart, Within, Needed;
    ClosedAtEnd(last, a);
    NoStrayClosed(last, m);
    ClosedSame(s, last, m);
    assert last.marked <= m;
    hide IsFullCollection, MarksClosed, MarkSome;
    forall c | MarksClosed(s, c) && Retained(s) <= c ensures m <= c {
      FullCollectionBounded(s, states, answers, a, c);
    }
  }

  /** The calls of GC_mark_some from the start of a full collection to the report of its end. */
  lemma FullCallsExact(s: State, run: Run, t: State)
    requires Inv(s) && !s.stopped && !s.aborted && Calls(FullStart(s), run, t) && EndsWell(run, t)
    ensures LeastAround(s, Retained(s), t.marked)
  {
    var n := |run.answers| - 1;
    assert run.states[n + 1] == t;
    assert IsMarking(run.states[..n + 1], run.answers[..n]);
    hide FullStart, Retained, MarkSome, LeastAround, Inv;
    FullCollectionExact(s, run.states[..n + 1], run.answers[..n], run.answers[n]);
  }

  lemma LeastSame(s: State, t: State, kept: set<Obj>)
    requires SameMemory(s, t) && t.marked == s.marked && LeastAround(s, kept, s.marked) && AllReachableMarked(s)
    ensures LeastAround(t, kept, t.marked) && AllReachableMarked(t)
  {
    forall c ensures MarksClosed(s, c) <==> MarksClosed(t, c) { ClosedSame(s, t, c); }
    hide MarksClosed;
    assert forall w :: IsRootWord(s, w) <==> IsRootWord(t, w);
    forall o | Reachable(t, o) ensures o in t.marked {
      var p :| RootPath(t, p) && p[|p| - 1] == o;
      assert RootPath(s, p);
      assert o !in Missed(s);
    }
  }

  /** When the world goes on after that, all that is reachable is marked, and nothing that need not be. */
  lemma FullyMarked(s: State, run: Run, t: State)
    requires Inv(s) && !s.stopped && !s.aborted && Calls(FullStart(s), run, t) && EndsWell(run, t) && !t.aborted
    ensures LeastAround(t.(stopped := false), Retained(s), t.marked) && t.stray == {} && SameMemory(s, t)
    ensures OnlyStrayMissed(t.(stopped := false)) ==> AllReachableMarked(t.(stopped := false))
  {
    var u := t.(stopped := false);
    FullCallsExact(s, run, t);
    FullStartInv(s);
    hide Inv, FullStart, EndsWell, MarksClosed, OnlyStrayMissed, Retained;
    CallsFind(FullStart(s), run, t);
    hide Calls;
    forall c ensures MarksClosed(s, c) <==> MarksClosed(u, c) { ClosedSame(s, u, c); }
    if OnlyStrayMissed(u) { NoStrayNoneMissed(u); }
  }
}
