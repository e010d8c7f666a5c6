/**
What a stray word does.  A conservative collector takes any word for a pointer.  If a word of an old, clean,
marked object happens to hold the address of memory that is allocated later, an incremental collection does
not look at it again: the new object is not marked on its account.  Here is a whole run in which this happens.
 */
module StrayWords {
  import opened MarkModel
  import opened MarkSafety
  import opened MarkRuns
  import opened MarkBuilds

  const OLD_BLOCK := Block(1, NORMAL, [HOLDER])
  const OLD_HEAP := Heap(map[2 := OLD_BLOCK], map[HOLDER := 2], HOLDER_WORDS)
  const NEW_HEAP := Heap(map[2 := OLD_BLOCK, 1 := NORMAL_BLOCK], map[HOLDER := 2, LOST := 1], map[HOLDER := [LOST], LOST := [0]])

  /** Incremental collection, in a build that is safe. */
  const BEGIN := START.(incremental := true, atomicUncollectable := false)

  /** The holder has been allocated; its word refers to nothing. */
  const HELD := BEGIN.(heap := OLD_HEAP, dirty := {2})

  /** A full collection begins. */
  const CLEARED := HELD.(stackRoots := [HOLDER], phase := Invalid)
  const FULL := CLEARED.(stopped := true, dirty := {}, grungy := {2})

  /** The holder was found from the stack. */
  const FOUND := FULL.(phase := RootsPushed, marked := {HOLDER}, objectsMarked := true)

  /** Between the two collections: the holder is marked, its page is clean, and its word refers to nothing yet. */
  const BETWEEN := FOUND.(phase := Idle, stopped := false)

  const GROWN := BETWEEN.(heap := NEW_HEAP, dirty := {1}, stray := {(HOLDER, 0)})
  const STOPPED := GROWN.(dirty := {}, grungy := {1}, stopped := true, phase := PushRescuers)

  ghost function RunEvents(): seq<Event> {
    [NewBlock(2, OLD_BLOCK, HOLDER_WORDS), WriteStacks([HOLDER]), ClearForFull, StopAndInitiate, MarkSomeStep(NO_ANSWER),
     MarkSomeStep(NO_ANSWER), MarkSomeStep(NO_ANSWER), MarkSomeStep(NO_ANSWER), StartWorld,
     NewBlock(1, NORMAL_BLOCK, LOST_WORDS), StopAndInitiate, MarkSomeStep(NO_ANSWER), MarkSomeStep(NO_ANSWER), MarkSomeStep(NO_ANSWER)]
  }

  ghost function RunStates(): seq<State> {
    [BEGIN, HELD, HELD.(stackRoots := [HOLDER]), CLEARED, FULL, FULL.(phase := PushUncollectable),
     FOUND.(stack := [Entry(Object(HOLDER), 0, 1)]), FOUND, FOUND.(phase := Idle), BETWEEN,
     GROWN, STOPPED, STOPPED.(scanPtr := 2), STOPPED.(phase := RootsPushed), STOPPED.(phase := Idle)]
  }

  lemma OldHeapWf()
    ensures HeapWf(OLD_HEAP) && WithBlock(HEAP0, 2, OLD_BLOCK, HOLDER_WORDS) == OLD_HEAP
  {
    FirstPage(OLD_HEAP, HOLDER);
    hide PageOf;
    assert OLD_BLOCK.objs[0] == HOLDER;
    assert HOLDER in OLD_BLOCK.objs;
  }

  lemma NewHeapWf()
    ensures HeapWf(NEW_HEAP)
  {
    FirstPage(NEW_HEAP, HOLDER);
    FirstPage(NEW_HEAP, LOST);
    hide PageOf;
    assert OLD_BLOCK.objs[0] == HOLDER && NORMAL_BLOCK.objs[0] == LOST;
    assert HOLDER in OLD_BLOCK.objs && LOST in NORMAL_BLOCK.objs;
  }

  lemma HeapGrows()
    ensures WithBlock(OLD_HEAP, 1, NORMAL_BLOCK, LOST_WORDS) == NEW_HEAP
  {
    var h := WithBlock(OLD_HEAP, 1, NORMAL_BLOCK, LOST_WORDS);
    assert NORMAL_BLOCK.objs[0] == LOST;
    assert h.home == NEW_HEAP.home && h.blocks == NEW_HEAP.blocks && h.contents == NEW_HEAP.contents;
  }

  // ---------- the first collection ----------

  lemma AllocatesHolder()
    ensures Leads(BEGIN, NewBlock(2, OLD_BLOCK, HOLDER_WORDS), HELD)
  {
    OldHeapWf();
    assert StraysFor(BEGIN, OLD_BLOCK) == {};
    assert Pages(2, 1) == {2} by { assert PageIn(2, 2, 1); }
    hide WithBlock, HeapWf, StraysFor, Pages;
    assert Allocatable(HEAP0, 2, OLD_BLOCK, HOLDER_WORDS) by { assert OLD_BLOCK.objs[0] == HOLDER; }
  }

  lemma BeginsFull()
    ensures Leads(HELD, WriteStacks([HOLDER]), HELD.(stackRoots := [HOLDER]))
    ensures Leads(HELD.(stackRoots := [HOLDER]), ClearForFull, CLEARED)
    ensures Leads(CLEARED, StopAndInitiate, FULL)
    ensures Leads(FULL, MarkSomeStep(NO_ANSWER), FULL.(phase := PushUncollectable))
  {
    assert ClearMarks(HELD.(stackRoots := [HOLDER])).marked == {};
  }

  lemma PushesHolder()
    ensures Leads(FULL.(phase := PushUncollectable), MarkSomeStep(NO_ANSWER), FOUND.(stack := [Entry(Object(HOLDER), 0, 1)]))
  {
    var s := FULL.(phase := PushUncollectable);
    var t := s.(marked := {HOLDER}, stack := [Entry(Object(HOLDER), 0, 1)]);
    assert forall k :: k in s.heap.blocks ==> !Matches(s, k, UncollectableBlock);
    assert PushNext(s, UncollectableBlock) == s;
    assert PushContents(s, HOLDER) == t;
    assert ScanWords(s, [HOLDER], 0, 1) == ScanWords(t, [HOLDER], 1, 1) == t;
    assert PushRoots(s) == t;
  }

  lemma ScansHolder()
    ensures Leads(FOUND.(stack := [Entry(Object(HOLDER), 0, 1)]), MarkSomeStep(NO_ANSWER), FOUND)
  {
    var s := FOUND.(stack := [Entry(Object(HOLDER), 0, 1)]);
    assert FieldsOf(OLD_HEAP, HOLDER) == [LOST];
    assert WithoutPiece(s.stack) == [];
    assert PushContents(FOUND, LOST) == FOUND;
    assert ScanWords(FOUND, [LOST], 0, 1) == ScanWords(FOUND, [LOST], 1, 1) == FOUND;
    assert MarkStep(s) == FOUND;
    assert MarkFrom(s, HBLK_WORDS) == MarkFrom(FOUND, HBLK_WORDS - 1) == FOUND;
  }

  lemma EndsFull()
    ensures Leads(FOUND, MarkSomeStep(NO_ANSWER), FOUND.(phase := Idle)) && Leads(FOUND.(phase := Idle), StartWorld, BETWEEN)
  {
  }

  // ---------- the allocation, and the second collection ----------

  lemma BecomesStray()
    ensures StraysFor(BETWEEN, NORMAL_BLOCK) == {(HOLDER, 0)}
  {
    assert FieldsOf(OLD_HEAP, HOLDER) == [LOST];
    assert NORMAL_BLOCK.objs[0] == LOST;
    assert IsStray(BETWEEN, NORMAL_BLOCK, HOLDER, 0);
  }

  lemma Allocates()
    ensures Leads(BETWEEN, NewBlock(1, NORMAL_BLOCK, LOST_WORDS), GROWN)
  {
    NewHeapWf();
    HeapGrows();
    BecomesStray();
    assert Pages(1, 1) == {1} by { assert PageIn(1, 1, 1); }
    hide WithBlock, HeapWf, StraysFor, Pages;
    assert Allocatable(OLD_HEAP, 1, NORMAL_BLOCK, LOST_WORDS) by { assert NORMAL_BLOCK.objs[0] == LOST; }
  }

  /** The new block is scanned because its page is dirty, but no object in it is marked. */
  lemma ScansNewBlock()
    ensures Leads(GROWN, StopAndInitiate, STOPPED)
    ensures Leads(STOPPED, MarkSomeStep(NO_ANSWER), STOPPED.(scanPtr := 2))
  {
    assert IsNextMatch(STOPPED, 0, DirtyBlock, 1) by { assert 1 <= 1 < 1 + STOPPED.heap.blocks[1].nblks && 1 in STOPPED.grungy; }
    var k := NextMatch(STOPPED, 0, DirtyBlock);
    assert k == 1 by { assert IsNextMatch(STOPPED, 0, DirtyBlock, k); }
    assert PushNext(STOPPED, DirtyBlock) == STOPPED.(scanPtr := 2);
  }

  /** The page of the holder is clean, and the root refers to an object that is marked already. */
  lemma SkipsHolder()
    ensures Leads(STOPPED.(scanPtr := 2), MarkSomeStep(NO_ANSWER), STOPPED.(phase := RootsPushed))
  {
    var s := STOPPED.(scanPtr := 2);
    assert forall k :: k in s.heap.blocks && 2 <= k ==> !Matches(s, k, DirtyBlock);
    assert PushNext(s, DirtyBlock) == STOPPED;
    assert PushContents(STOPPED, HOLDER) == STOPPED;
    assert ScanWords(STOPPED, [HOLDER], 0, 1) == ScanWords(STOPPED, [HOLDER], 1, 1) == STOPPED;
    assert PushRoots(STOPPED) == STOPPED;
  }

  lemma Finishes()
    ensures Leads(STOPPED.(phase := RootsPushed), MarkSomeStep(NO_ANSWER), STOPPED.(phase := Idle))
    ensures MarkSome(STOPPED.(phase := RootsPushed), NO_ANSWER) == Outcome(STOPPED.(phase := Idle), true)
  {
  }

  lemma HolderRefers()
    ensures LOST in Missed(STOPPED.(phase := Idle))
  {
    var t := STOPPED.(phase := Idle);
    assert FieldsOf(NEW_HEAP, HOLDER) == [LOST];
    assert RootPath(t, [HOLDER, LOST]);
  }

  // ---------- the run ----------

  lemma FirstSteps(i: nat)
    requires i < 9
    ensures Leads(RunStates()[i], RunEvents()[i], RunStates()[i + 1])
  {
    AllocatesHolder();
    BeginsFull();
    PushesHolder();
    ScansHolder();
    EndsFull();
    hide Leads;
  }

  lemma LastSteps(i: nat)
    requires 9 <= i < 14
    ensures Leads(RunStates()[i], RunEvents()[i], RunStates()[i + 1])
  {
    Allocates();
    ScansNewBlock();
    SkipsHolder();
    Finishes();
    hide Leads;
  }

  lemma RunIsRun()
    ensures IsRun(RunStates(), RunEvents())
  {
    var states, events := RunStates(), RunEvents();
    assert |states| == 15 && |events| == 14 && states[0] == BEGIN;
    hide Apply, Enabled, RunStates, RunEvents;
    forall i | 0 <= i < 14 ensures Enabled(states[i], events[i]) && states[i + 1] == Apply(states[i], events[i]) {
      if i < 9 { FirstSteps(i); } else { LastSteps(i); }
    }
  }

  lemma RunFinishes()
    ensures FinishesAt(RunStates(), RunEvents(), 13) && UsesKinds(RunEvents(), false)
    ensures RunStates()[14] == STOPPED.(phase := Idle) && !RunStates()[0].atomicUncollectable
  {
    Finishes();
    hide MarkSome;
  }

  /**
   * A run of a safe build that finishes its second collection with an object unmarked that the stacks lead to; on
   * the way is a word that became stray when the object was allocated.
   */
  lemma StrayWordMissed()
    ensures IsBuildRun(RunStates(), RunEvents(), false, false) && FinishesAt(RunStates(), RunEvents(), 13)
    ensures var t := RunStates()[14]; LOST in Missed(t) && t.stray == {(HOLDER, 0)} && OnlyStrayMissed(t)
  {
    RunIsRun();
    RunFinishes();
    HolderRefers();
    hide FinishesAt, UsesKinds, Missed, RunStates, RunEvents, IsRun, OnlyStrayMissed;
    BuildRunSafe(RunStates(), RunEvents(), 13, false, false);
  }
}
