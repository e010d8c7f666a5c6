/**
For which builds the safety theorem holds.  ATOMIC_UNCOLLECTABLE makes IS_UNCOLLECTABLE ignore the
low bit of the kind (libs/gc/include/private/gc_priv.h:1249-1260), and this repository gave PRECISE
the number 3: precise blocks then keep their marks in GC_clear_marks, but only blocks whose kind
equals UNCOLLECTABLE are scanned again.  Such a build is unsafe; every other build is safe.
 */
module MarkBuilds {
  import opened MarkModel
  import opened MarkSafety
  import opened MarkRuns

  /** The program asks for objects of the predefined kinds only, and for PRECISE ones only if `precise`. */
  ghost predicate UsesKinds(events: seq<Event>, precise: bool) {
    forall i :: 0 <= i < |events| && events[i].NewBlock? ==>
      events[i].b.kind <= AUNCOLLECTABLE && (events[i].b.kind == PRECISE ==> precise)
  }

  ghost predicate IsBuildRun(states: seq<State>, events: seq<Event>, atomicUncollectable: bool, precise: bool) {
    IsRun(states, events) && states[0].atomicUncollectable == atomicUncollectable && UsesKinds(events, precise)
  }

  /** Every successful GC_stopped_mark of every run of the build marks all that is reachable without stray words. */
  ghost predicate BuildSafe(atomicUncollectable: bool, precise: bool) {
    forall states: seq<State>, events: seq<Event>, n: nat ::
      IsBuildRun(states, events, atomicUncollectable, precise) && FinishesAt(states, events, n) ==>
        OnlyStrayMissed(states[n + 1])
  }

  lemma ForgottenKinds(kind: nat, atomicUncollectable: bool)
    requires kind <= AUNCOLLECTABLE
    ensures KindForgotten(kind, atomicUncollectable) <==> atomicUncollectable && kind == PRECISE
  {
  }

  // A run that loses an object: a precise object, referred to by a stack, holds the only pointer to another one.

  const HOLDER: Obj := 100
  const LOST: Obj := 200

  const NORMAL_BLOCK := Block(1, NORMAL, [LOST])
  const PRECISE_BLOCK := Block(1, PRECISE, [HOLDER])
  const LOST_WORDS: map<Obj, seq<Word>> := map[LOST := [0]]
  const HOLDER_WORDS: map<Obj, seq<Word>> := map[HOLDER := [LOST]]

  const HEAP0 := Heap(map[], map[], map[])
  const HEAP1 := Heap(map[1 := NORMAL_BLOCK], map[LOST := 1], LOST_WORDS)
  const HEAP2 := Heap(map[1 := NORMAL_BLOCK, 2 := PRECISE_BLOCK], map[LOST := 1, HOLDER := 2], map[LOST := [0], HOLDER := [LOST]])

  const START := State(HEAP0, [], [], {}, [], INITIAL_MARK_STACK_SIZE, Idle, 0, false, false, {}, {}, false, false, true, false, false, {})

  const NO_ANSWER := Answer(false, {}, false)

  /** The state before GC_try_to_collect_inner: the precise block was created with its mark set. */
  const BEFORE := START.(heap := HEAP2, stackRoots := [HOLDER], marked := {HOLDER})

  ghost function CollectionEvents(): seq<Event> {
    [NewBlock(1, NORMAL_BLOCK, LOST_WORDS), NewBlock(2, PRECISE_BLOCK, HOLDER_WORDS), WriteStacks([HOLDER]),
     InvalidateAndClear, StopAndInitiate, MarkSomeStep(NO_ANSWER), MarkSomeStep(NO_ANSWER), MarkSomeStep(NO_ANSWER)]
  }

  ghost function CollectionStates(): seq<State> {
    [START, START.(heap := HEAP1), BEFORE.(stackRoots := []), BEFORE, BEFORE.(phase := Invalid),
     BEFORE.(phase := Invalid, stopped := true), BEFORE.(phase := PushUncollectable, stopped := true),
     BEFORE.(phase := RootsPushed, stopped := true, objectsMarked := true),
     BEFORE.(stopped := true, objectsMarked := true)]
  }

  lemma FirstPage(h: Heap, o: Obj)
    ensures o in h.home ==> PageOf(h, o, 0) == h.home[o]
  {
  }

  lemma Heap1Wf()
    ensures HeapWf(HEAP1) && WithBlock(HEAP0, 1, NORMAL_BLOCK, LOST_WORDS) == HEAP1
  {
    FirstPage(HEAP1, LOST);
    hide PageOf;
    assert NORMAL_BLOCK.objs[0] == LOST;
    assert LOST in NORMAL_BLOCK.objs;
  }

  lemma Heap2Wf()
    ensures HeapWf(HEAP2)
  {
    FirstPage(HEAP2, LOST);
    FirstPage(HEAP2, HOLDER);
    hide PageOf;
    assert NORMAL_BLOCK.objs[0] == LOST && PRECISE_BLOCK.objs[0] == HOLDER;
    assert LOST in NORMAL_BLOCK.objs && HOLDER in PRECISE_BLOCK.objs;
  }

  lemma Heap2IsGrown()
    ensures WithBlock(HEAP1, 2, PRECISE_BLOCK, HOLDER_WORDS) == HEAP2
  {
    var h := WithBlock(HEAP1, 2, PRECISE_BLOCK, HOLDER_WORDS);
    assert PRECISE_BLOCK.objs[0] == HOLDER;
    assert h.home == HEAP2.home && h.blocks == HEAP2.blocks && h.contents == HEAP2.contents;
  }

  lemma FirstAllocatable()
    ensures Allocatable(HEAP0, 1, NORMAL_BLOCK, LOST_WORDS)
  {
    Heap1Wf();
    hide WithBlock, HeapWf;
  }

  lemma SecondAllocatable()
    ensures Allocatable(HEAP1, 2, PRECISE_BLOCK, HOLDER_WORDS)
  {
    Heap2Wf();
    Heap2IsGrown();
    hide WithBlock, HeapWf;
  }

  lemma AllocationSteps()
    ensures Allocatable(HEAP0, 1, NORMAL_BLOCK, LOST_WORDS) && Allocatable(HEAP1, 2, PRECISE_BLOCK, HOLDER_WORDS)
    ensures AddBlock(START, 1, NORMAL_BLOCK, LOST_WORDS) == START.(heap := HEAP1)
    ensures AddBlock(START.(heap := HEAP1), 2, PRECISE_BLOCK, HOLDER_WORDS) == BEFORE.(stackRoots := [])
  {
    FirstAllocatable();
    SecondAllocatable();
    Heap1Wf();
    Heap2IsGrown();
    hide WithBlock, HeapWf, Allocatable;
    assert (set o | o in NORMAL_BLOCK.objs) == {LOST} by { assert NORMAL_BLOCK.objs[0] == LOST; }
    assert (set o | o in PRECISE_BLOCK.objs) == {HOLDER} by { assert PRECISE_BLOCK.objs[0] == HOLDER; }
  }

  lemma ClearStep()
    ensures ClearMarks(InvalidateMarkState(BEFORE)) == BEFORE.(phase := Invalid)
  {
    assert KeepsMarks(BEFORE, HOLDER);
    assert ClearMarks(InvalidateMarkState(BEFORE)).marked == {HOLDER};
  }

  /** No block is scanned again, and the root refers to an object that is marked already. */
  lemma RootsStep()
    ensures MarkSome(BEFORE.(phase := PushUncollectable, stopped := true), NO_ANSWER).s
            == BEFORE.(phase := RootsPushed, stopped := true, objectsMarked := true)
  {
    var s := BEFORE.(phase := PushUncollectable, stopped := true);
    assert forall k :: k in s.heap.blocks ==> !Matches(s, k, UncollectableBlock);
    assert PushNext(s, UncollectableBlock) == s;
    assert PushContents(s, HOLDER) == s;
    assert ScanWords(s, s.stackRoots, 0, 1) == ScanWords(s, s.stackRoots, 1, 1) == s;
    assert PushRoots(s) == s;
  }

  lemma PlainSteps()
    ensures MarkSome(BEFORE.(phase := Invalid, stopped := true), NO_ANSWER).s == BEFORE.(phase := PushUncollectable, stopped := true)
    ensures Initiate(BEFORE.(phase := Invalid)) == BEFORE.(phase := Invalid, stopped := true)
    ensures MarkSome(BEFORE.(phase := RootsPushed, stopped := true, objectsMarked := true), NO_ANSWER)
            == Outcome(BEFORE.(stopped := true, objectsMarked := true), true)
  {
  }

  /** Event e leads from s to t. */
  ghost predicate Leads(s: State, e: Event, t: State) { Enabled(s, e) && t == Apply(s, e) }

  lemma Allocates()
    ensures Leads(START, NewBlock(1, NORMAL_BLOCK, LOST_WORDS), START.(heap := HEAP1))
    ensures Leads(START.(heap := HEAP1), NewBlock(2, PRECISE_BLOCK, HOLDER_WORDS), BEFORE.(stackRoots := []))
  {
    AllocationSteps();
    hide Allocatable, AddBlock;
  }

  lemma Clears()
    ensures Leads(BEFORE.(stackRoots := []), WriteStacks([HOLDER]), BEFORE)
    ensures Leads(BEFORE, InvalidateAndClear, BEFORE.(phase := Invalid))
  {
    ClearStep();
    hide ClearMarks, InvalidateMarkState;
  }

  lemma Stops()
    ensures Leads(BEFORE.(phase := Invalid), StopAndInitiate, BEFORE.(phase := Invalid, stopped := true))
    ensures Leads(BEFORE.(phase := Invalid, stopped := true), MarkSomeStep(NO_ANSWER), BEFORE.(phase := PushUncollectable, stopped := true))
  {
    PlainSteps();
    hide MarkSome, Initiate;
  }

  lemma Marks()
    ensures Leads(BEFORE.(phase := PushUncollectable, stopped := true), MarkSomeStep(NO_ANSWER),
                  BEFORE.(phase := RootsPushed, stopped := true, objectsMarked := true))
    ensures Leads(BEFORE.(phase := RootsPushed, stopped := true, objectsMarked := true), MarkSomeStep(NO_ANSWER),
                  BEFORE.(stopped := true, objectsMarked := true))
  {
    RootsStep();
    PlainSteps();
    hide MarkSome;
  }

  lemma CollectionStep(i: nat)
    requires i < 8
    ensures Leads(CollectionStates()[i], CollectionEvents()[i], CollectionStates()[i + 1])
  {
    Allocates();
    Clears();
    Stops();
    Marks();
    hide Leads;
  }

  lemma LostIsReachable(s: State)
    requires s.heap == HEAP2 && s.stackRoots == [HOLDER] && s.stray == {}
    ensures CleanPath(s, [HOLDER, LOST])
  {
    var p := [HOLDER, LOST];
    assert FieldsOf(HEAP2, HOLDER) == [LOST];
    assert Refers(s, HOLDER, LOST) by { assert FieldsOf(s.heap, HOLDER)[0] == LOST; }
    assert RootPath(s, p);
  }

  lemma CollectionIsRun()
    ensures IsRun(CollectionStates(), CollectionEvents())
  {
    var states, events := CollectionStates(), CollectionEvents();
    assert |states| == 9 && |events| == 8 && states[0] == START;
    hide Apply, Enabled, CollectionStates, CollectionEvents;
    forall i | 0 <= i < 8 ensures Enabled(states[i], events[i]) && states[i + 1] == Apply(states[i], events[i]) { CollectionStep(i); }
  }

  lemma CollectionKinds()
    ensures UsesKinds(CollectionEvents(), true)
  {
  }

  lemma CollectionFinishes()
    ensures FinishesAt(CollectionStates(), CollectionEvents(), 7)
    ensures CollectionStates()[0].atomicUncollectable && LOST in Missed(CollectionStates()[8])
    ensures !OnlyStrayMissed(CollectionStates()[8])
  {
    var p := [HOLDER, LOST];
    CollectionStep(7);
    LostIsReachable(CollectionStates()[8]);
    assert p[|p| - 1] == LOST && RootPath(CollectionStates()[8], p);
  }

  /** The run is one of the build, finishes its collection, and leaves a reachable object unmarked. */
  lemma PreciseObjectLosesChild()
    ensures IsBuildRun(CollectionStates(), CollectionEvents(), true, true)
    ensures FinishesAt(CollectionStates(), CollectionEvents(), 7)
    ensures LOST in Missed(CollectionStates()[8]) && !OnlyStrayMissed(CollectionStates()[8])
  {
    CollectionIsRun();
    CollectionKinds();
    CollectionFinishes();
    hide IsRun, UsesKinds, FinishesAt, Missed, OnlyStrayMissed, CollectionEvents, CollectionStates;
  }

  lemma BuildEventOk(s: State, e: Event, precise: bool)
    requires e.NewBlock? ==> e.b.kind <= AUNCOLLECTABLE && (e.b.kind == PRECISE ==> precise)
    requires !(s.atomicUncollectable && precise)
    ensures EventOk(s, e)
  {
    if e.NewBlock? { ForgottenKinds(e.b.kind, s.atomicUncollectable); }
  }

  lemma {:induction false} BuildRunInv(states: seq<State>, events: seq<Event>, n: nat, atomicUncollectable: bool, precise: bool)
    requires IsBuildRun(states, events, atomicUncollectable, precise) && n <= |events| && !(atomicUncollectable && precise)
    ensures states[n].atomicUncollectable == atomicUncollectable && (states[n].aborted || Inv(states[n]))
    ensures n < |events| ==> EventOk(states[n], events[n])
  {
    if n == 0 {
      InitialInv(states[0]);
    } else {
      BuildRunInv(states, events, n - 1, atomicUncollectable, precise);
      assert states[n] == Apply(states[n - 1], events[n - 1]);
      StepInv(states[n - 1], events[n - 1]);
    }
    hide Inv, EventOk, Apply, Enabled;
    if n < |events| { BuildEventOk(states[n], events[n], precise); }
  }

  lemma BuildRunSafe(states: seq<State>, events: seq<Event>, n: nat, atomicUncollectable: bool, precise: bool)
    requires IsBuildRun(states, events, atomicUncollectable, precise) && FinishesAt(states, events, n)
    requires !(atomicUncollectable && precise)
    ensures OnlyStrayMissed(states[n + 1])
  {
    forall i | 0 <= i < |events| ensures EventOk(states[i], events[i]) {
      BuildRunInv(states, events, i, atomicUncollectable, precise);
    }
    StoppedMarkSafe(states, events, n);
  }

  /** A build is safe exactly if it does not combine ATOMIC_UNCOLLECTABLE with precise objects. */
  lemma BuildSafeIff(atomicUncollectable: bool, precise: bool)
    ensures BuildSafe(atomicUncollectable, precise) <==> !(atomicUncollectable && precise)
  {
    if atomicUncollectable && precise {
      PreciseObjectLosesChild();
      assert !OnlyStrayMissed(CollectionStates()[7 + 1]);
    } else {
      forall states: seq<State>, events: seq<Event>, n: nat
        | IsBuildRun(states, events, atomicUncollectable, precise) && FinishesAt(states, events, n)
        ensures OnlyStrayMissed(states[n + 1])
      {
        BuildRunSafe(states, events, n, atomicUncollectable, precise);
      }
    }
  }
}
