/**
The collector as the source has it: global variables that the marker updates in place
(libs/gc/mark.c) and the driver around it (libs/gc/alloc.c).  Every method is proved to do to the
state what the function of the same name in MarkModel says.
 */
module CollectorState {
  import M = MarkModel
  import S = MarkSafety
  import T = MarkTermination
  import R = MarkRuns
  import X = MarkExact

  type Obj = M.Obj
  type Word = M.Word

  /** A stop function: GC_never_stop_func, or one that answers its i-th question by says(i). */
  datatype StopFunction = Never | Timed(says: nat -> bool)

  predicate Says(stop: StopFunction, i: nat) { stop.Timed? && stop.says(i) }

  /** None of these questions is answered by stopping. */
  ghost predicate GoesOn(stop: StopFunction, from: nat, to: nat) { forall i: nat {:trigger Says(stop, i)} :: from <= i < to ==> !Says(stop, i) }

  class Collector {
    var heap: M.Heap
    var statics: seq<seq<Word>>
    var stackRoots: seq<Word>
    var marked: set<Obj>
    var stack: seq<M.Entry>
    var capacity: nat
    var phase: M.Phase
    var scanPtr: nat
    var tooSmall: bool
    var objectsMarked: bool
    var dirty: set<nat>
    var grungy: set<nat>
    var stopped: bool
    var incremental: bool
    var atomicUncollectable: bool
    var aborted: bool
    const parallel: bool
    ghost var stray: set<(Obj, nat)>   // history, for the statement of what is marked

    ghost function Abs(): M.State reads this {
      M.State(heap, statics, stackRoots, marked, stack, capacity, phase, scanPtr, tooSmall, objectsMarked,
              dirty, grungy, stopped, incremental, atomicUncollectable, aborted, parallel, stray)
    }

    ghost function Measure(): T.Measure reads this { T.MeasureOf(Abs()) }

    // ---------- pushing ----------

    method PushEntry(e: M.Entry)
      modifies this`stack, this`phase, this`tooSmall
      ensures Abs() == M.PushEntry(old(Abs()), e)
    {
      if |stack| < capacity {
        stack := stack + [e];
      } else {
        SignalMarkStackOverflow();
        stack := stack + [e];
      }
    }

    /** GC_signal_mark_stack_overflow. */
    method SignalMarkStackOverflow()
      modifies this`stack, this`phase, this`tooSmall
      ensures phase == M.Invalid && tooSmall
      ensures stack == old(stack)[..if M.DISCARDS <= |old(stack)| then |old(stack)| - M.DISCARDS else 0]
    {
      phase := M.Invalid;
      tooSmall := true;
      stack := stack[..if M.DISCARDS <= |stack| then |stack| - M.DISCARDS else 0];
    }

    method PushObj(o: Obj)
      modifies this`stack, this`phase, this`tooSmall
      ensures Abs() == M.PushObj(old(Abs()), o)
    {
      if M.Scanned(heap, o) {
        PushEntry(M.Entry(M.Object(o), 0, |heap.contents[o]|));
      }
    }

    method PushContents(w: Word)
      modifies this`stack, this`phase, this`tooSmall, this`marked
      ensures Abs() == M.PushContents(old(Abs()), w)
    {
      if w in heap.home && w !in marked {
        marked := marked + {w};
        PushObj(w);
      }
    }

    method ScanWords(ws: seq<Word>, lo: nat, hi: nat)
      modifies this`stack, this`phase, this`tooSmall, this`marked
      ensures Abs() == M.ScanWords(old(Abs()), ws, lo, hi)
    {
      var i := lo;
      while i < hi && i < |ws|
        invariant lo <= i
        invariant M.ScanWords(Abs(), ws, i, hi) == M.ScanWords(old(Abs()), ws, lo, hi)
        decreases hi - i
      {
        PushContents(ws[i]);
        i := i + 1;
      }
    }

    // ---------- marking ----------

    /** One round of the loop of GC_mark_from. */
    method MarkRound()
      requires 0 < |stack|
      modifies this`stack, this`phase, this`tooSmall, this`marked, this`objectsMarked
      ensures Abs() == M.MarkStep(old(Abs()))
    {
      var e := stack[|stack| - 1];
      stack, objectsMarked := M.WithoutPiece(stack), true;
      ScanWords(WordsAt(e.src), e.lo, M.PieceEnd(e));
    }

    function WordsAt(src: M.Source): seq<Word>
      reads this
      ensures WordsAt(src) == M.WordsOf(Abs(), src)
    {
      match src
      case Object(o) => M.FieldsOf(heap, o)
      case StaticArea(k) => if k < |statics| then statics[k] else []
    }

    /** GC_mark_from on the main mark stack. */
    method MarkFromMarkStack()
      modifies this`stack, this`phase, this`tooSmall, this`marked, this`objectsMarked
      ensures Abs() == M.MarkFromStack(old(Abs()))
    {
      objectsMarked := true;
      var credit: int := M.HBLK_WORDS;
      while 0 <= credit && 0 < |stack|
        invariant M.MarkFrom(Abs(), credit) == M.MarkFromStack(old(Abs()))
        decreases if credit < 0 then 0 else credit + 1, |stack|
      {
        var cost := M.Cost(stack[|stack| - 1]);
        FreeRound(Abs());
        hide M.MarkStep, M.Cost;
        MarkRound();
        credit := credit - cost;
      }
    }

    /** A round that costs nothing removes an entry. */
    static lemma FreeRound(s: M.State)
      requires 0 < |s.stack|
      ensures M.Cost(s.stack[|s.stack| - 1]) == 0 ==> |M.MarkStep(s).stack| < |s.stack|
    {
    }

    // ---------- scanning blocks ----------

    /** GC_push_marked. */
    method PushMarked(b: M.Block)
      modifies this`stack, this`phase, this`tooSmall, this`objectsMarked
      ensures Abs() == M.PushMarked(old(Abs()), b)
    {
      if !M.HasDescr(b.kind) || forall i :: 0 <= i < |b.objs| ==> b.objs[i] !in marked {
        return;
      }
      objectsMarked := true;
      var i := 0;
      ghost var start := Abs();
      while i < |b.objs|
        invariant M.PushMarkedObjects(Abs(), b.objs, i) == M.PushMarkedObjects(start, b.objs, 0)
      {
        if b.objs[i] in marked { PushObj(b.objs[i]); }
        i := i + 1;
      }
    }

    /** GC_next_used_block: the first used block at or after `from`, or 0. */
    method NextUsedBlock(from: nat) returns (k: nat)
      requires forall b :: b in heap.blocks ==> 1 <= b
      ensures k == 0 ==> forall b :: b in heap.blocks ==> b < from
      ensures k != 0 ==> k in heap.blocks && from <= k && forall b :: b in heap.blocks && from <= b ==> k <= b
    {
      k := 0;
      var rest := heap.blocks.Keys;
      while rest != {}
        invariant rest <= heap.blocks.Keys
        invariant k == 0 ==> forall b :: b in heap.blocks && b !in rest ==> b < from
        invariant k != 0 ==> k in heap.blocks && from <= k
                             && forall b :: b in heap.blocks && b !in rest && from <= b ==> k <= b
        decreases rest
      {
        var b :| b in rest;
        rest := rest - {b};
        if from <= b && (k == 0 || b < k) { k := b; }
      }
    }

    /** The search loop of GC_push_next_marked_dirty and GC_push_next_marked_uncollectable. */
    method FindNext(f: M.Filter) returns (k: nat)
      requires forall b :: b in heap.blocks ==> 1 <= b && 1 <= heap.blocks[b].nblks
      requires forall b, b' :: b in heap.blocks && b' in heap.blocks && b < b' ==> b + heap.blocks[b].nblks <= b'
      ensures k == 0 ==> forall b :: b in heap.blocks && scanPtr <= b ==> !Matches(b, f)
      ensures k != 0 ==> k in heap.blocks && scanPtr <= k && Matches(k, f)
      ensures k != 0 ==> forall b :: b in heap.blocks && scanPtr <= b < k ==> !Matches(b, f)
    {
      var h := scanPtr;
      k := NextUsedBlock(h);
      while k != 0 && !Matches(k, f)
        invariant scanPtr <= h
        invariant forall b :: b in heap.blocks && scanPtr <= b < h ==> !Matches(b, f)
        invariant k == 0 ==> forall b :: b in heap.blocks ==> b < h
        invariant k != 0 ==> k in heap.blocks && h <= k && forall b :: b in heap.blocks && h <= b ==> k <= b
        decreases set b | b in heap.blocks && h <= b
      {
        ghost var passed, ahead := k, set b | b in heap.blocks && h <= b;
        h := k + heap.blocks[k].nblks;
        k := NextUsedBlock(h);
        assert passed in ahead && passed !in (set b | b in heap.blocks && h <= b);
      }
    }

    /** GC_push_next_marked, GC_push_next_marked_dirty and GC_push_next_marked_uncollectable. */
    method PushNext(f: M.Filter)
      requires M.HeapWf(heap)
      modifies this`stack, this`phase, this`tooSmall, this`objectsMarked, this`scanPtr
      ensures Abs() == M.PushNext(old(Abs()), f)
    {
      var k := FindNext(f);
      if k == 0 {
        assert M.NextMatch(Abs(), scanPtr, f) !in heap.blocks by { NoMatch(Abs(), scanPtr, f); }
        scanPtr := 0;
      } else {
        assert M.NextMatch(Abs(), scanPtr, f) == k by { UniqueMatch(Abs(), scanPtr, f, k); }
        var b := heap.blocks[k];
        PushMarked(b);
        scanPtr := k + b.nblks;
      }
    }

    static lemma NoMatch(s: M.State, from: nat, f: M.Filter)
      requires forall k :: k in s.heap.blocks ==> 1 <= k
      requires forall k :: k in s.heap.blocks && from <= k ==> !M.Matches(s, k, f)
      ensures M.NextMatch(s, from, f) !in s.heap.blocks
    {
    }

    predicate Matches(k: nat, f: M.Filter)
      requires k in heap.blocks
      reads this
      ensures Matches(k, f) == M.Matches(Abs(), k, f)
    {
      match f
      case AnyBlock => true
      case DirtyBlock => exists p :: k <= p < k + heap.blocks[k].nblks && p in grungy
      case UncollectableBlock => heap.blocks[k].kind == M.UNCOLLECTABLE
    }

    static lemma UniqueMatch(s: M.State, from: nat, f: M.Filter, k: nat)
      requires M.IsNextMatch(s, from, f, k)
      ensures M.NextMatch(s, from, f) == k
    {
      var k' := M.NextMatch(s, from, f);
      assert M.IsNextMatch(s, from, f, k');
    }

    /** GC_push_all for every piece of static data. */
    method PushStatics()
      requires !aborted
      modifies this`stack, this`aborted
      ensures Abs() == M.PushStatics(old(Abs()), 0)
    {
      var k := 0;
      while k < |statics|
        invariant !aborted && M.PushStatics(Abs(), k) == M.PushStatics(old(Abs()), 0)
      {
        if capacity <= |stack| {
          aborted := true;
          return;
        }
        stack := stack + [M.Entry(M.StaticArea(k), 0, |statics[k]|)];
        k := k + 1;
      }
    }

    /** GC_push_roots, followed by what GC_mark_some does after it. */
    method PushRoots()
      requires !aborted
      modifies this`stack, this`phase, this`tooSmall, this`marked, this`objectsMarked, this`aborted
      ensures Abs() == M.AfterRoots(M.PushRoots(old(Abs())))
    {
      PushStatics();
      if aborted { return; }
      hide M.PushStatics, M.ScanWords;
      ScanWords(stackRoots, 0, |stackRoots|);
      objectsMarked := true;
      if phase != M.Invalid { phase := M.RootsPushed; }
    }

    method AllocMarkStack(n: nat, ok: bool)
      modifies this`tooSmall, this`capacity, this`stack
      ensures Abs() == M.AllocMarkStack(old(Abs()), n, ok)
    {
      tooSmall := false;
      if ok { capacity := n; }
      stack := [];
    }

    // ---------- the state machine ----------

    /** Push the next block that passes the filter; after the last one, the roots. */
    method ScanBlocks(f: M.Filter)
      requires M.HeapWf(heap) && !aborted
      modifies this`stack, this`phase, this`tooSmall, this`marked, this`objectsMarked, this`scanPtr, this`aborted
      ensures Abs() == var t := M.PushNext(old(Abs()), f); if t.scanPtr == 0 then M.AfterRoots(M.PushRoots(t)) else t
    {
      hide M.HeapWf, M.PushNext, M.PushRoots, M.AfterRoots;
      PushNext(f);
      if scanPtr == 0 { PushRoots(); }
    }

    /** The scan of the whole heap starts over when the state is MS_INVALID. */
    method StartRescan(ok: bool)
      modifies this`stack, this`phase, this`tooSmall, this`capacity
      ensures Abs() == M.StartRescan(old(Abs()), ok)
    {
      if scanPtr == 0 && phase == M.Invalid {
        if tooSmall { AllocMarkStack(2 * capacity, ok); }
        phase := M.PartiallyInvalid;
      }
    }

    /** One step of that scan, which an overflow may make invalid again. */
    method ScanHeap()
      requires M.HeapWf(heap) && !aborted
      modifies this`stack, this`phase, this`tooSmall, this`objectsMarked, this`scanPtr, this`marked, this`aborted
      ensures Abs() == M.HeapScan(old(Abs()))
    {
      hide M.HeapWf, M.PushNext, M.PushRoots, M.AfterRoots;
      PushNext(M.AnyBlock);
      if scanPtr == 0 && phase == M.PartiallyInvalid { PushRoots(); }
    }

    /** GC_do_parallel_mark, with the outcome that the answer tells. */
    method DoParallelMark(a: M.Answer)
      modifies this`stack, this`phase, this`tooSmall, this`marked
      ensures Abs() == M.ParallelPhase(old(Abs()), a)
    {
      marked, stack := a.marks, [];
      if a.overflow { phase, tooSmall := M.Invalid, true; }
    }

    /** MS_ROOTS_PUSHED with GC_parallel. */
    method MarkInParallel(a: M.Answer) returns (done: bool)
      modifies this`stack, this`phase, this`tooSmall, this`marked, this`capacity
      ensures M.Outcome(Abs(), done) == M.AfterParallelMark(old(Abs()), a)
    {
      DoParallelMark(a);
      hide M.ParallelPhase, M.AllocMarkStack;
      if tooSmall { AllocMarkStack(2 * capacity, a.ok); }
      done := phase == M.RootsPushed;
      if done { phase := M.Idle; }
    }

    /** GC_mark_some; the answer says what allocating a larger mark stack and marking in parallel come to. */
    method MarkSome(a: M.Answer) returns (done: bool)
      requires M.HeapWf(heap) && !aborted
      modifies this`stack, this`phase, this`tooSmall, this`marked, this`objectsMarked, this`scanPtr, this`capacity,
               this`aborted
      ensures M.Outcome(Abs(), done) == M.MarkSome(old(Abs()), a)
    {
      hide M.HeapWf, M.PushNext, M.PushRoots, M.AfterRoots, M.AfterParallelMark, M.StartRescan, M.HeapScan, M.MarkFromStack;
      done := false;
      if phase == M.Idle {
      } else if phase == M.PushRescuers {
        if capacity - M.INITIAL_MARK_STACK_SIZE / 2 <= |stack| - 1 {
          tooSmall := true;
          MarkFromMarkStack();
        } else {
          ScanBlocks(M.DirtyBlock);
        }
      } else if phase == M.PushUncollectable {
        if capacity / 4 <= |stack| - 1 {
          if parallel { tooSmall := true; }
          MarkFromMarkStack();
        } else {
          ScanBlocks(M.UncollectableBlock);
        }
      } else if phase == M.RootsPushed {
        if parallel {
          done := MarkInParallel(a);
        } else if 0 < |stack| {
          MarkFromMarkStack();
        } else {
          phase := M.Idle;
          if tooSmall { AllocMarkStack(2 * capacity, a.ok); }
          done := true;
        }
      } else if !objectsMarked {
        phase := M.PushUncollectable;
      } else if 0 < |stack| {
        MarkFromMarkStack();
      } else {
        StartRescan(a.ok);
        ScanHeap();
      }
    }

    /** GC_read_dirty: the dirty bits become the grungy bits. */
    method ReadDirty()
      modifies this`grungy, this`dirty
      ensures grungy == old(dirty) && dirty == {}
    {
      grungy, dirty := dirty, {};
    }

    method StopAndReadDirty()
      modifies this`stopped, this`scanPtr, this`grungy, this`dirty
      ensures stopped && scanPtr == 0
      ensures if incremental then grungy == old(dirty) && dirty == {} else grungy == old(grungy) && dirty == old(dirty)
    {
      stopped, scanPtr := true, 0;
      if incremental { ReadDirty(); }
    }

    /** STOP_WORLD and GC_initiate_gc. */
    method InitiateGc()
      modifies this`stopped, this`scanPtr, this`grungy, this`dirty, this`phase, this`aborted
      ensures Abs() == M.Initiate(old(Abs()))
    {
      StopAndReadDirty();
      if phase == M.Idle {
        phase := M.PushRescuers;
      } else if phase != M.Invalid {
        aborted := true;
      }
    }

    method InvalidateMarkState()
      modifies this`phase, this`stack
      ensures Abs() == M.InvalidateMarkState(old(Abs()))
    {
      phase := M.Invalid;
      stack := [];
    }

    /** GC_clear_hdr_marks, for the header of block k. */
    method ClearMarksOf(k: nat)
      requires forall o :: o in marked ==> o in heap.home
      modifies this`marked
      ensures forall o :: o in marked <==> o in old(marked) && heap.home[o] != k
    {
      marked := set o | o in marked && heap.home[o] != k;
    }

    /** GC_apply_to_all_blocks(clear_marks_for_block). */
    method ClearAllMarks()
      requires M.HeapWf(heap) && marked <= heap.home.Keys
      modifies this`marked
      ensures marked == M.ClearMarks(old(Abs())).marked
    {
      var rest := heap.blocks.Keys;
      assert forall o :: o in marked ==> o in heap.home && heap.home[o] in heap.blocks;
      hide M.IsUncollectable, M.HeapWf;
      while rest != {}
        invariant rest <= heap.blocks.Keys
        invariant forall o :: o in marked <==>
          (o in old(marked)
           && (heap.home[o] in rest || M.IsUncollectable(heap.blocks[heap.home[o]].kind, atomicUncollectable)))
        decreases rest
      {
        var k :| k in rest;
        rest := rest - {k};
        if !M.IsUncollectable(heap.blocks[k].kind, atomicUncollectable) { ClearMarksOf(k); }
      }
    }

    /** GC_clear_marks. */
    method ClearMarks()
      requires M.HeapWf(heap) && marked <= heap.home.Keys
      modifies this`marked, this`objectsMarked, this`phase, this`scanPtr, this`stray
      ensures Abs() == M.ClearMarks(old(Abs()))
    {
      hide M.HeapWf;
      ClearAllMarks();
      objectsMarked := false;
      phase := M.Invalid;
      scanPtr := 0;
      stray := {};
    }

    // ---------- steps of the driver (alloc.c) ----------

    /** Between collector steps, with the world running. */
    ghost predicate Ready() reads this {
      S.Inv(Abs()) && !stopped && !aborted
    }

    /** A call of GC_mark_some by the driver: it keeps the invariant and gets closer to the end. */
    method Step(a: M.Answer) returns (done: bool)
      requires S.Inv(Abs()) && S.Tracked(Abs()) && !aborted && phase != M.Idle && M.Possible(Abs(), a) && !T.Stuck(Abs(), a)
      modifies this`stack, this`phase, this`tooSmall, this`marked, this`objectsMarked, this`scanPtr, this`capacity,
               this`aborted
      ensures |statics| <= M.INITIAL_MARK_STACK_SIZE / 2 ==> !aborted
      ensures !aborted ==> S.Inv(Abs()) && T.Compare(Measure(), old(Measure())) == T.Lower && (done <==> phase == M.Idle)
      ensures M.MarkSome(old(Abs()), a) == M.Outcome(Abs(), done)
    {
      ghost var before := Abs();
      T.MarkSomeAdvances(before, a);
      assert M.HeapWf(heap);
      hide S.Inv, M.MarkSome, M.Possible, T.Stuck, M.HeapWf, T.MeasureOf, T.Compare;
      done := MarkSome(a);
    }

    /**
     * Any answer that is possible now, whatever parallel marking finds and however much of it is lost; but if only
     * a larger mark stack lets parallel marking go on, there is memory for one.
     */
    method AskForAnswer() returns (a: M.Answer)
      requires S.Inv(Abs())
      ensures X.IsAnswer(Abs(), a) && !T.Stuck(Abs(), a)
    {
      var ok, overflow: bool := *, *;
      var some: set<Obj> := *;
      var all := MarksFromStack();
      var part := marked + some * all;
      assert forall c :: S.MarksClosed(Abs(), c) && X.Within(Abs(), c) ==> part <= c;
      hide S.Inv, M.StackBound, S.MarksClosed, X.Within, M.StackMarked, M.NewlyScanned, T.StaticEntries;
      if overflow && (part != marked || capacity < M.StackBound(stack)) {
        a := M.Answer(ok || part == marked, part, true);
      } else {
        a := M.Answer(ok, all, false);
      }
    }

    /** The objects that the ranges on the mark stack refer to. */
    function StackTargets(): set<Obj> reads this {
      set k: nat, i: nat | k < |stack| && stack[k].lo <= i < stack[k].hi && i < |WordsAt(stack[k].src)|
                           && OnRange(k, i, WordsAt(stack[k].src)[i]) && WordsAt(stack[k].src)[i] in heap.home
        :: WordsAt(stack[k].src)[i]
    }

    predicate OnRange(k: nat, i: nat, w: Word) reads this {
      k < |stack| && stack[k].lo <= i < stack[k].hi && i < |WordsAt(stack[k].src)| && WordsAt(stack[k].src)[i] == w
    }

    /** A set that is closed around the marks and the mark stack contains all of m. */
    ghost predicate Contained(m: set<Obj>) reads this {
      forall c :: S.MarksClosed(Abs(), c) && X.Within(Abs(), c) ==> m <= c
    }

    /** What can be found from the mark stack, object by object. */
    method MarksFromStack() returns (m: set<Obj>)
      requires marked <= heap.home.Keys
      ensures marked <= m <= heap.home.Keys && M.StackMarked(Abs(), m) && M.NewlyScanned(Abs(), m) && Contained(m)
    {
      var todo := StackTargets() - marked;
      m := marked + todo;
      TargetsMarked(m);
      while todo != {}
        invariant marked <= m <= heap.home.Keys && todo <= m && M.StackMarked(Abs(), m) && Contained(m)
        invariant forall o, w :: o in m && o !in marked && o !in todo && w in M.FieldsOf(heap, o) && w in heap.home ==> w in m
        decreases heap.home.Keys - m, todo
      {
        var o :| o in todo;
        var found := set w | w in M.FieldsOf(heap, o) && w in heap.home && w !in m;
        todo := todo - {o} + found;
        m := m + found;
      }
    }

    lemma TargetsMarked(m: set<Obj>)
      requires m == marked + (StackTargets() - marked)
      ensures M.StackMarked(Abs(), m) && Contained(m)
    {
      forall k, i: nat | 0 <= k < |stack| && stack[k].lo <= i < stack[k].hi && i < |M.WordsOf(Abs(), stack[k].src)|
        ensures M.WordsOf(Abs(), stack[k].src)[i] in heap.home ==> M.WordsOf(Abs(), stack[k].src)[i] in m
      {
        assert OnRange(k, i, WordsAt(stack[k].src)[i]);
      }
      forall c | S.MarksClosed(Abs(), c) && X.Within(Abs(), c) ensures m <= c {
        forall w | w in StackTargets() ensures w in c {
          var k: nat, i: nat :| k < |stack| && stack[k].lo <= i < stack[k].hi && i < |WordsAt(stack[k].src)|
                                && OnRange(k, i, WordsAt(stack[k].src)[i]) && WordsAt(stack[k].src)[i] == w && w in heap.home;
          X.EntryWithin(Abs(), k, i, c);
        }
      }
    }

    ghost function Between(from: nat, to: nat): nat { if from < to then to - from else 0 }

    /** The steps GC_collect_a_little_inner makes while the world runs, up to the end of a mark phase. */
    method RunSteps(from: nat, to: nat) returns (done: bool, ghost run: X.Run)
      requires Ready() && incremental && phase != M.Idle
      modifies this`stack, this`phase, this`tooSmall, this`marked, this`objectsMarked, this`scanPtr, this`capacity,
               this`aborted
      ensures |statics| <= M.INITIAL_MARK_STACK_SIZE / 2 ==> !aborted
      ensures X.Calls(old(Abs()), run, Abs()) && |run.answers| <= Between(from, to)
      ensures !aborted ==> Ready() && (done <==> phase == M.Idle) && (!done ==> |run.answers| == Between(from, to))
      ensures !aborted ==> if from < to then T.Compare(Measure(), old(Measure())) == T.Lower else !done && Measure() == old(Measure())
    {
      hide S.Inv, T.MeasureOf, M.MarkSome, M.Possible, X.Needed, T.Compare, X.Calls;
      run := X.Run([Abs()], []);
      X.NoCalls(Abs());
      done := false;
      var i := from;
      ghost var start := Measure();
      while i < to && !done
        invariant Ready() && from <= i && (i == from || from < to) && (done <==> phase == M.Idle)
        invariant X.Calls(old(Abs()), run, Abs()) && |run.answers| == i - from <= Between(from, to)
        invariant if i == from then !done && Measure() == start else T.Compare(Measure(), start) == T.Lower
      {
        var a := AskForAnswer();
        ghost var before := Measure();
        X.CallsThen(old(Abs()), run, Abs(), a);
        done := Step(a);
        run := X.Then(run, a, Abs());
        if aborted { return; }
        T.CompareTransitive(Measure(), before, start);
        i := i + 1;
      }
    }

    method RestartWorld()
      requires S.Inv(Abs()) && stopped && !aborted
      modifies this`stopped
      ensures Ready() && Abs() == old(Abs()).(stopped := false)
      ensures M.OnlyStrayMissed(old(Abs())) ==> M.OnlyStrayMissed(Abs())
    {
      ghost var before, after := Abs(), Abs().(stopped := false);
      R.StartWorldInv(before);
      if M.OnlyStrayMissed(before) { SameMissed(before, after); }
      stopped := false;
      assert Abs() == after;
    }

    /** The loop of GC_stopped_mark, which asks the stop function before every step. */
    method MarkUntilStopped(stop: StopFunction, first: nat) returns (done: bool, steps: nat, ghost run: X.Run)
      requires S.Inv(Abs()) && stopped && !aborted && phase != M.Idle
      modifies this`stack, this`phase, this`tooSmall, this`marked, this`objectsMarked, this`scanPtr, this`capacity,
               this`aborted
      ensures |statics| <= M.INITIAL_MARK_STACK_SIZE / 2 ==> !aborted
      ensures X.Calls(old(Abs()), run, Abs())
      ensures !aborted ==> S.Inv(Abs()) && (stop.Never? ==> done) && (done <==> phase == M.Idle)
      ensures !aborted ==> if done then X.EndsWell(run, Abs()) else steps == |run.answers| && Says(stop, first + |run.answers|)
      ensures GoesOn(stop, first, first + |run.answers|)
    {
      hide S.Inv, T.MeasureOf, M.MarkSome, M.Possible, X.Calls, X.EndsWell;
      run := X.Run([Abs()], []);
      X.NoCalls(Abs());
      steps, done := 0, false;
      ghost var m := Measure();
      while !Says(stop, first + steps)
        invariant S.Inv(Abs()) && !aborted && m == Measure()
        invariant X.Calls(old(Abs()), run, Abs()) && steps == |run.answers|
        invariant !done && phase != M.Idle && GoesOn(stop, first, first + steps)
        decreases m.unmarked, m.mixed, m.deficit, m.rank, m.ahead, m.work
      {
        var a := AskForAnswer();
        ghost var last, before := Abs(), run;
        X.CallsThen(old(Abs()), run, last, a);
        done := Step(a);
        run := X.Then(run, a, Abs());
        if done && !aborted { X.EndsThen(old(Abs()), before, last, a, Abs()); }
        if aborted || done { break; }
        m := Measure();
        steps := steps + 1;
      }
    }

    method StopWorld()
      requires Ready() && (phase == M.Invalid || (phase == M.Idle && incremental))
      modifies this`stopped, this`scanPtr, this`grungy, this`dirty, this`phase, this`aborted
      ensures Abs() == M.Initiate(old(Abs())) && S.Inv(Abs()) && stopped && !aborted && phase != M.Idle
    {
      R.InitiateInv(Abs());
      InitiateGc();
    }

    static lemma SameMissed(s: M.State, t: M.State)
      requires X.SameMemory(s, t) && t.stray == s.stray && s.marked <= t.marked && M.OnlyStrayMissed(s)
      ensures M.OnlyStrayMissed(t)
    {
      forall p | M.CleanPath(t, p) ensures p[|p| - 1] in t.marked { S.SamePath(s, t, p); }
    }

    /** GC_invalidate_mark_state and GC_clear_marks, with which GC_try_to_collect_inner starts over. */
    method StartOver(invalidate: bool)
      requires Ready() && (!invalidate ==> phase == M.Idle)
      modifies this`marked, this`objectsMarked, this`phase, this`scanPtr, this`stack, this`stray
      ensures Ready() && phase == M.Invalid && Abs() == M.ClearMarks(if invalidate then M.InvalidateMarkState(old(Abs())) else old(Abs()))
    {
      R.StepInv(Abs(), if invalidate then R.InvalidateAndClear else R.ClearForFull);
      if invalidate { InvalidateMarkState(); }
      ClearMarks();
    }

    method Abandon()
      requires Ready() && !incremental
      modifies this`phase, this`stack
      ensures Ready() && Abs() == M.InvalidateMarkState(old(Abs()))
    {
      R.StepInv(Abs(), R.Abandon);
      InvalidateMarkState();
    }
  }

  const GC_RATE: nat := 10
  const MAX_PRIOR_ATTEMPTS: nat := 1

  /** Attempts that may still be given up, the measure of marking, and the deficit. */
  datatype Position = Position(left: nat, m: T.Measure, deficit: nat)

  predicate CloserTo(p: Position, q: Position) {
    || p.left < q.left
    || (p.left == q.left && (T.Smaller(p.m, q.m) || (p.m == q.m && p.deficit < q.deficit)))
  }

  lemma CloserOrder(p: Position, q: Position)
    requires CloserTo(p, q)
    ensures (q.left, q.m.unmarked, q.m.mixed, q.m.deficit, q.m.rank, q.m.ahead, q.m.work, q.deficit
            decreases to p.left, p.m.unmarked, p.m.mixed, p.m.deficit, p.m.rank, p.m.ahead, p.m.work, p.deficit)
  {
  }

  /** The driver of alloc.c: when to collect, fully or partially, stopped or incrementally. */
  class Driver {
    const gc: Collector
    var deficit: nat           // GC_deficit
    var attempts: nat          // GC_n_attempts
    var isFullGc: bool         // GC_is_full_gc
    var partialGcs: nat        // n_partial_gcs of GC_maybe_gc
    var gcNo: nat              // GC_gc_no

    constructor (gc: Collector)
      ensures this.gc == gc && deficit == attempts == partialGcs == gcNo == 0 && !isFullGc
    {
      this.gc := gc;
      deficit, attempts, isFullGc, partialGcs, gcNo := 0, 0, false, 0, 0;
    }

    /** GC_deficit, GC_n_attempts, GC_is_full_gc, n_partial_gcs and GC_gc_no. */
    ghost function Counters(): (nat, nat, bool, nat, nat) reads this { (deficit, attempts, isFullGc, partialGcs, gcNo) }

    /** The state of the collector, with the world stopped. */
    ghost function Stopped(): M.State reads gc { gc.Abs().(stopped := true) }

    /**
     * GC_stopped_mark, with a stop function that has answered `first` questions.  The calls of GC_mark_some start from
     * the state that GC_initiate_gc leaves, and go on until it says to stop; then their number becomes GC_deficit.
     */
    method StoppedMark(stop: StopFunction, first: nat) returns (done: bool, ghost run: X.Run)
      requires gc.Ready() && (gc.phase == M.Invalid || (gc.phase == M.Idle && gc.incremental))
      modifies gc`stack, gc`phase, gc`tooSmall, gc`marked, gc`objectsMarked, gc`scanPtr, gc`capacity,
               gc`aborted, gc`stopped, gc`grungy, gc`dirty, this`deficit, this`gcNo
      ensures |gc.statics| <= M.INITIAL_MARK_STACK_SIZE / 2 ==> !gc.aborted
      ensures X.Calls(M.Initiate(old(gc.Abs())), run, Stopped())
      ensures GoesOn(stop, first, first + |run.answers|) && (gc.aborted ==> !done)
      ensures !gc.aborted ==> gc.Ready() && (done || Says(stop, first + |run.answers|)) && (done <==> gc.phase == M.Idle)
      ensures !gc.aborted ==> X.OnlyFound(old(gc.Abs()), gc.Abs())
      ensures !gc.aborted && done ==> M.OnlyStrayMissed(gc.Abs()) && X.EndsWell(run, Stopped())
      ensures gcNo == if !gc.aborted && done then old(gcNo) + 1 else old(gcNo)
      ensures deficit == if !gc.aborted && !done then |run.answers| else old(deficit)
    {
      hide S.Inv, M.Initiate, M.OnlyStrayMissed, T.MeasureOf, M.MarkSome, M.Possible, X.Calls, X.OnlyFound, X.EndsWell;
      ghost var before := gc.Abs();
      gc.StopWorld();
      var steps;
      done, steps, run := gc.MarkUntilStopped(stop, first);
      if gc.aborted { return false, run; }
      X.StoppedCallsFind(before, run, gc.Abs());
      if done { X.EndMissesOnlyStray(run, gc.Abs()); }
      gc.RestartWorld();
      if done { gcNo := gcNo + 1; } else { deficit := steps; }
    }

    /** What is left of GC_finish_collection here: finalization and sweeping are not part of the marker. */
    method FinishCollection()
      modifies this`attempts, this`isFullGc
      ensures attempts == 0 && !isFullGc && gc.Abs() == old(gc.Abs())
    {
      attempts := 0;
      isFullGc := false;
    }

    /** Attempts at stopped marking that may still be given up when they take too long. */
    ghost function AttemptsLeft(): nat
      reads this`attempts
    {
      if attempts < MAX_PRIOR_ATTEMPTS then MAX_PRIOR_ATTEMPTS - attempts else 0
    }

    /** What remains of a deficit after GC_RATE * n steps. */
    static function Left(deficit: nat, n: nat): nat { if GC_RATE * n <= deficit then deficit - GC_RATE * n else 0 }

    /** What lies ahead of the collection in progress. */
    ghost function Ahead(): Position reads this, gc { Position(AttemptsLeft(), gc.Measure(), deficit) }

    /**
     * GC_collect_a_little_inner while a collection is in progress; timeout is GC_timeout_stop_func if GC_time_limit is set,
     * and Never otherwise.  The steps of
     * `run` are made while the world runs; if they end a mark phase (`tried`), marking is completed in a stopped world.
     */
    method CollectInProgress(n: nat, timeout: StopFunction) returns (finished: bool, tried: bool, ghost run: X.Run, ghost mid: M.State, ghost more: X.Run)
      requires gc.Ready() && gc.incremental && gc.phase != M.Idle && 1 <= n
      modifies gc`stack, gc`phase, gc`tooSmall, gc`marked, gc`objectsMarked, gc`scanPtr, gc`capacity,
               gc`aborted, gc`stopped, gc`grungy, gc`dirty, this`deficit, this`attempts, this`isFullGc, this`gcNo
      ensures |gc.statics| <= M.INITIAL_MARK_STACK_SIZE / 2 ==> !gc.aborted
      ensures X.Calls(old(gc.Abs()), run, mid) && |run.answers| <= gc.Between(old(deficit), GC_RATE * n)
      ensures !mid.aborted ==> if mid.phase == M.Idle then tried else !tried && |run.answers| == gc.Between(old(deficit), GC_RATE * n)
      ensures if tried then X.Calls(M.Initiate(mid), more, Stopped()) else gc.Abs() == mid
      ensures !gc.aborted ==> gc.Ready() && (finished <==> gc.phase == M.Idle) && X.OnlyFound(old(gc.Abs()), gc.Abs())
      ensures finished ==> tried && M.OnlyStrayMissed(gc.Abs())
      ensures tried ==> GoesOn(TimeoutNow(old(attempts), timeout), 0, |more.answers|)
      ensures !gc.aborted && tried && !finished ==> Says(TimeoutNow(old(attempts), timeout), |more.answers|)
      ensures gcNo == (if finished then old(gcNo) + 1 else old(gcNo)) && isFullGc == (old(isFullGc) && !finished)
      ensures !gc.aborted ==> attempts == if finished then 0 else if tried then old(attempts) + 1 else old(attempts)
      ensures !gc.aborted ==> deficit == Left(if tried && !finished then |more.answers| else old(deficit), n)
      ensures !gc.aborted && !finished ==> CloserTo(Ahead(), old(Ahead()))
    {
      hide S.Inv, M.OnlyStrayMissed, T.MeasureOf, T.Compare, X.Calls, X.OnlyFound, M.Initiate, X.EndsWell;
      finished, more := false, X.Run([], []);
      ghost var before := gc.Abs();
      tried, run := gc.RunSteps(deficit, GC_RATE * n);
      mid := gc.Abs();
      if gc.aborted { return false, false, run, mid, more; }
      X.CallsFind(before, run, mid);
      if tried {
        finished, more := StoppedMark(if attempts < MAX_PRIOR_ATTEMPTS && timeout.Timed? then timeout else Never, 0);
        if gc.aborted { return false, true, run, mid, more; }
        X.FoundThen(before, mid, gc.Abs());
        if finished {
          FinishCollection();
        } else {
          attempts := attempts + 1;
        }
      }
      deficit := Left(deficit, n);
      T.LowerOrder(gc.Measure(), old(gc.Measure()));
      hide T.Smaller;
    }

    /** Only the first attempts may be given up. */
    static function TimeoutNow(attempts: nat, timeout: StopFunction): StopFunction { if attempts < MAX_PRIOR_ATTEMPTS then timeout else Never }

    /** A collection goes on while the world runs. */
    predicate InProgress() reads gc { gc.incremental && gc.phase != M.Idle }

    /** A collection has been completed since GC_gc_no was before. */
    ghost predicate Completed(before: nat) reads this, gc {
      M.OnlyStrayMissed(gc.Abs()) && gcNo == before + 1 && attempts == 0 && !isFullGc
    }

    /** The loop of GC_try_to_collect_inner: the collection in progress is finished, unless the stop function says to give up. */
    method FinishCurrent(stop: StopFunction, first: nat, timeouts: nat -> StopFunction) returns (goOn: bool, asked: nat)
      requires gc.Ready() && InProgress()
      modifies gc`stack, gc`phase, gc`tooSmall, gc`marked, gc`objectsMarked, gc`scanPtr, gc`capacity,
               gc`aborted, gc`stopped, gc`grungy, gc`dirty, this`deficit, this`attempts, this`isFullGc, this`gcNo
      ensures |gc.statics| <= M.INITIAL_MARK_STACK_SIZE / 2 ==> !gc.aborted
      ensures first <= asked && GoesOn(stop, first, asked)
      ensures !gc.aborted ==> gc.Ready() && (goOn || Says(stop, asked)) && (goOn <==> !InProgress()) && X.OnlyFound(old(gc.Abs()), gc.Abs())
      ensures !gc.aborted ==> if goOn then Completed(old(gcNo)) else gcNo == old(gcNo) && isFullGc == old(isFullGc)
    {
      ghost var before, p := gc.Abs(), Ahead();
      hide *;
      X.FoundNothing(before);
      goOn, asked := false, first;
      NothingAsked(stop, first);
      while !goOn
        invariant gc.Ready() && p == Ahead() && X.OnlyFound(before, gc.Abs())
        invariant first <= asked && GoesOn(stop, first, asked) && (goOn <==> !InProgress())
        invariant if goOn then Completed(old(gcNo)) else gcNo == old(gcNo) && isFullGc == old(isFullGc)
        decreases !goOn, p.left, p.m.unmarked, p.m.mixed, p.m.deficit, p.m.rank, p.m.ahead, p.m.work, p.deficit
      {
        if Says(stop, asked) { return; }
        AskedOne(stop, first, asked);
        ghost var p0 := p;
        goOn, p := CollectSome(before, timeouts(asked), p);
        asked := asked + 1;
        if gc.aborted { return; }
        if !goOn { CloserOrder(p, p0); }
      }
    }

    /** GC_collect_a_little_inner(1). */
    method CollectSome(ghost start: M.State, timeout: StopFunction, ghost p: Position) returns (finished: bool, ghost p': Position)
      requires gc.Ready() && InProgress() && X.OnlyFound(start, gc.Abs()) && p == Ahead()
      modifies gc`stack, gc`phase, gc`tooSmall, gc`marked, gc`objectsMarked, gc`scanPtr, gc`capacity,
               gc`aborted, gc`stopped, gc`grungy, gc`dirty, this`deficit, this`attempts, this`isFullGc, this`gcNo
      ensures |gc.statics| <= M.INITIAL_MARK_STACK_SIZE / 2 ==> !gc.aborted
      ensures !gc.aborted ==> gc.Ready() && (finished <==> !InProgress()) && X.OnlyFound(start, gc.Abs())
      ensures !gc.aborted ==> if finished then Completed(old(gcNo)) else gcNo == old(gcNo) && isFullGc == old(isFullGc)
      ensures !gc.aborted && attempts == old(attempts) && !finished ==> deficit == Left(old(deficit), 1)
      ensures p' == Ahead() && (!gc.aborted && !finished ==> CloserTo(p', p))
    {
      hide S.Inv, M.OnlyStrayMissed, X.OnlyFound, X.Calls, M.Initiate, CloserTo;
      ghost var before, run, mid, more := gc.Abs(), X.Run([], []), gc.Abs(), X.Run([], []);
      var tried;
      finished, tried, run, mid, more := CollectInProgress(1, timeout);
      if !gc.aborted { X.FoundThen(start, before, gc.Abs()); }
      p' := Ahead();
    }

    /** What GC_try_to_collect_inner leaves when marking was given up in state s. */
    static ghost function GivenUp(s: M.State): M.State {
      if s.incremental then s.(stopped := false) else M.InvalidateMarkState(s.(stopped := false))
    }

    /**
     * GC_try_to_collect_inner, when no collection is in progress: everything is marked again, with the world stopped.
     * What is marked in the end is the least closed set around the objects whose marks are not cleared.
     */
    method CollectFully(stop: StopFunction, first: nat) returns (collected: bool, ghost run: X.Run, ghost end: M.State)
      requires gc.Ready()
      modifies gc`stack, gc`phase, gc`tooSmall, gc`marked, gc`objectsMarked, gc`scanPtr, gc`capacity,
               gc`aborted, gc`stray, gc`stopped, gc`grungy, gc`dirty, this`deficit, this`attempts, this`isFullGc, this`gcNo
      ensures |gc.statics| <= M.INITIAL_MARK_STACK_SIZE / 2 ==> !gc.aborted
      ensures X.Calls(X.FullStart(old(gc.Abs())), run, end)
      ensures GoesOn(stop, first, first + |run.answers|) && (gc.aborted ==> !collected)
      ensures !gc.aborted ==> gc.Ready() && (collected || Says(stop, first + |run.answers|))
      ensures !gc.aborted ==> if collected then FullyCollected(old(gc.Abs()), run, end)
                              else gc.Abs() == GivenUp(end) && isFullGc && deficit == |run.answers| && attempts == old(attempts)
      ensures gcNo == if !gc.aborted && collected then old(gcNo) + 1 else old(gcNo)
      ensures !gc.aborted && collected ==> deficit == old(deficit)
    {
      hide S.Inv, M.OnlyStrayMissed, M.AllReachableMarked, X.OnlyFound, X.Calls, X.LeastAround, M.Initiate, X.EndsWell, M.ClearMarks;
      ghost var from := gc.Abs();
      gc.StartOver(true);
      isFullGc := true;
      collected, run := StoppedMark(stop, first);
      end := Stopped();
      if gc.aborted { return; }
      if collected {
        X.FullyMarked(from, run, end);
        FinishCollection();
      } else if !gc.incremental {
        gc.Abandon();
      }
    }

    /** A full collection that started from s has been completed. */
    ghost predicate FullyCollected(s: M.State, run: X.Run, end: M.State) reads this, gc {
      && end == Stopped() && X.EndsWell(run, end) && gc.phase == M.Idle && gc.stray == {} && attempts == 0 && !isFullGc
      && X.SameMemory(s, gc.Abs()) && X.LeastAround(gc.Abs(), X.Retained(s), gc.marked) && M.OnlyStrayMissed(gc.Abs()) && M.AllReachableMarked(gc.Abs())
    }

    /**
     * GC_try_to_collect_inner: finish the collection in progress, and then, if that is not given up (`began`), collect
     * fully from the state `from`.  dontGc is GC_dont_gc, and reclaimGivenUp says that GC_reclaim_all gives up, which it
     * is called for unless the stop function is GC_never_stop_func; `asked` counts what that was asked before.
     */
    method TryToCollect(dontGc: bool, stop: StopFunction, timeouts: nat -> StopFunction, reclaimGivenUp: bool)
      returns (collected: bool, ghost began: bool, ghost from: M.State, ghost run: X.Run, ghost end: M.State, ghost asked: nat)
      requires gc.Ready()
      modifies gc`stack, gc`phase, gc`tooSmall, gc`marked, gc`objectsMarked, gc`scanPtr, gc`capacity,
               gc`aborted, gc`stray, gc`stopped, gc`grungy, gc`dirty, this`deficit, this`attempts, this`isFullGc, this`gcNo
      ensures |gc.statics| <= M.INITIAL_MARK_STACK_SIZE / 2 ==> !gc.aborted
      ensures dontGc || Says(stop, 0) ==> !began && gc.Abs() == old(gc.Abs()) && Counters() == old(Counters())
      ensures !dontGc ==> GoesOn(stop, 0, asked) && (gc.aborted || began || Says(stop, asked) || (stop.Timed? && reclaimGivenUp))
      ensures began ==> !(stop.Timed? && reclaimGivenUp) && GoesOn(stop, asked, asked + |run.answers|)
      ensures !gc.aborted && began && !collected ==> Says(stop, asked + |run.answers|)
      ensures !gc.aborted ==> gc.Ready() && (stop.Never? && !dontGc ==> collected) && X.OnlyFound(old(gc.Abs()), from)
      ensures !old(InProgress()) ==> from == old(gc.Abs()) && (stop.Never? && !dontGc ==> began)
      ensures collected ==> began && !gc.aborted
      ensures began ==> !(from.incremental && from.phase != M.Idle) && X.Calls(X.FullStart(from), run, end)
      ensures !gc.aborted ==> if collected then FullyCollected(from, run, end)
                              else if began then gc.Abs() == GivenUp(end) && isFullGc && deficit == |run.answers|
                              else gc.Abs() == from
      ensures if old(InProgress()) then !gc.aborted && began ==> gcNo == old(gcNo) + 1 + (if collected then 1 else 0)
              else gcNo == old(gcNo) + (if collected then 1 else 0) && (!began ==> Counters() == old(Counters()))
    {
      hide S.Inv, X.OnlyFound, X.Calls, X.FullStart, FullyCollected, M.OnlyStrayMissed, GivenUp;
      collected, began, from, run, end, asked := false, false, gc.Abs(), X.Run([], []), gc.Abs(), 0;
      X.FoundNothing(from);
      NothingAsked(stop, 0);
      if dontGc || Says(stop, 0) { return; }
      AskedOne(stop, 0, 0);
      var n := 1;
      asked := n;
      hide GoesOn;
      if InProgress() {
        var goOn;
        goOn, n := FinishCurrent(stop, n, timeouts);
        from, asked := gc.Abs(), n;
        AskedMore(stop, 0, 1, n);
        if gc.aborted || !goOn { return; }
      }
      if stop.Timed? && reclaimGivenUp { return; }
      began := true;
      collected, run, end := CollectFully(stop, n);
    }

    static lemma NothingAsked(stop: StopFunction, from: nat)
      ensures GoesOn(stop, from, from)
    {
    }

    static lemma AskedOne(stop: StopFunction, from: nat, to: nat)
      requires GoesOn(stop, from, to) && !Says(stop, to)
      ensures GoesOn(stop, from, to + 1)
    {
    }

    static lemma AskedMore(stop: StopFunction, from: nat, mid: nat, to: nat)
      requires GoesOn(stop, from, mid) && GoesOn(stop, mid, to)
      ensures GoesOn(stop, from, to)
    {
    }

    /**
     * GC_maybe_gc once GC_should_collect says so.  A full collection starts with all marks cleared but those of kinds
     * that keep them; a partial one adds to the marks of the last.  timeout is Never if GC_time_limit is GC_TIME_UNLIMITED.
     */
    method MaybeGc(needFullGc: bool, fullFreq: nat, timeout: StopFunction, timeouts: nat -> StopFunction, reclaimGivenUp: bool) returns (collected: bool, ghost run: X.Run, ghost end: M.State)
      requires gc.Ready() && (gc.incremental ==> gc.phase == M.Idle)
      modifies gc`stack, gc`phase, gc`tooSmall, gc`marked, gc`objectsMarked, gc`scanPtr, gc`capacity,
               gc`aborted, gc`stray, gc`stopped, gc`grungy, gc`dirty, this
      ensures |gc.statics| <= M.INITIAL_MARK_STACK_SIZE / 2 ==> !gc.aborted
      ensures !gc.aborted ==> gc.Ready() && (collected || (gc.incremental && Says(timeout, |run.answers|)))
      ensures gc.incremental ==> GoesOn(timeout, 0, |run.answers|)
      ensures partialGcs == if old(FullDue(needFullGc, fullFreq)) then 0 else old(partialGcs) + 1
      ensures X.Calls(if old(FullDue(needFullGc, fullFreq)) then X.FullStart(old(gc.Abs())) else M.Initiate(old(gc.Abs())), run, end)
      ensures !gc.aborted && collected ==>
        if old(FullDue(needFullGc, fullFreq)) then FullyCollected(old(gc.Abs()), run, end) else PartlyCollected(old(gc.Abs()), run, end)
      ensures !gc.aborted && !collected ==>
        && gc.incremental && gc.Abs() == GivenUp(end) && deficit == |run.answers|
        && isFullGc == (old(isFullGc) || old(FullDue(needFullGc, fullFreq)))
        && attempts == if isFullGc then old(attempts) else old(attempts) + 1
      ensures gcNo == if !gc.aborted && collected then old(gcNo) + 1 else old(gcNo)
    {
      hide S.Inv, X.Calls, X.FullStart, X.EndsWell, X.LeastAround, X.Retained, M.OnlyStrayMissed, M.AllReachableMarked, PartlyCollected, M.Initiate, M.ClearMarks, GoesOn, Says, GivenUp, X.SameMemory;
      ghost var from := gc.Abs();
      if !gc.incremental {
        ghost var began, asked := true, 0;
        collected, began, from, run, end, asked := TryToCollect(false, Never, timeouts, reclaimGivenUp);
        partialGcs := 0;
        return;
      }
      ghost var full := FullDue(needFullGc, fullFreq);
      ChooseKind(needFullGc, fullFreq);
      collected, run, end := MarkStopped(timeout, from, full);
    }

    /** The choice between a full and a partial collection in GC_maybe_gc. */
    method ChooseKind(needFullGc: bool, fullFreq: nat)
      requires gc.Ready() && gc.incremental && gc.phase == M.Idle
      modifies gc`marked, gc`objectsMarked, gc`phase, gc`scanPtr, gc`stack, gc`stray, this`partialGcs, this`isFullGc
      ensures gc.Ready()
      ensures if old(FullDue(needFullGc, fullFreq))
              then gc.phase == M.Invalid && M.Initiate(gc.Abs()) == X.FullStart(old(gc.Abs())) && partialGcs == 0 && isFullGc
              else gc.Abs() == old(gc.Abs()) && partialGcs == old(partialGcs) + 1 && isFullGc == old(isFullGc)
    {
      hide S.Inv, X.FullStart, M.Initiate, M.ClearMarks;
      ghost var from := gc.Abs();
      if needFullGc || fullFreq <= partialGcs {
        gc.StartOver(false);
        IdleStart(from);
        partialGcs := 0;
        isFullGc := true;
      } else {
        partialGcs := partialGcs + 1;
      }
    }

    /** GC_stopped_mark and what follows it in GC_maybe_gc. */
    method MarkStopped(timeout: StopFunction, ghost from: M.State, ghost full: bool) returns (collected: bool, ghost run: X.Run, ghost end: M.State)
      requires gc.Ready() && gc.incremental && (gc.phase == M.Invalid || gc.phase == M.Idle) && S.Inv(from) && !from.stopped && !from.aborted
      requires if full then M.Initiate(gc.Abs()) == X.FullStart(from) else gc.Abs() == from
      modifies gc`stack, gc`phase, gc`tooSmall, gc`marked, gc`objectsMarked, gc`scanPtr, gc`capacity,
               gc`aborted, gc`stopped, gc`grungy, gc`dirty, this`deficit, this`attempts, this`isFullGc, this`gcNo
      ensures |gc.statics| <= M.INITIAL_MARK_STACK_SIZE / 2 ==> !gc.aborted
      ensures !gc.aborted ==> gc.Ready() && (collected || Says(timeout, |run.answers|))
      ensures GoesOn(timeout, 0, |run.answers|)
      ensures X.Calls(if full then X.FullStart(from) else M.Initiate(from), run, end)
      ensures !gc.aborted && collected ==> if full then FullyCollected(from, run, end) else PartlyCollected(from, run, end)
      ensures !gc.aborted && !collected ==>
        && gc.Abs() == GivenUp(end) && deficit == |run.answers| && isFullGc == old(isFullGc)
        && attempts == if isFullGc then old(attempts) else old(attempts) + 1
      ensures gcNo == if !gc.aborted && collected then old(gcNo) + 1 else old(gcNo)
    {
      hide S.Inv, M.OnlyStrayMissed, M.AllReachableMarked, X.OnlyFound, X.Calls, X.LeastAround, X.FullStart, M.Initiate, X.EndsWell;
      collected, run := StoppedMark(timeout, 0);
      end := Stopped();
      if gc.aborted { return; }
      if collected {
        if full { X.FullyMarked(from, run, end); }
        FinishCollection();
      } else if !isFullGc {
        attempts := attempts + 1;
      }
    }

    /** A partial collection that started from s has been completed. */
    ghost predicate PartlyCollected(s: M.State, run: X.Run, end: M.State) reads this, gc {
      && end == Stopped() && X.EndsWell(run, end) && gc.phase == M.Idle && attempts == 0 && !isFullGc
      && X.OnlyFound(s, gc.Abs()) && M.OnlyStrayMissed(gc.Abs())
    }

    /** In an idle state the mark stack is empty. */
    static lemma IdleStart(s: M.State)
      requires S.Inv(s) && s.phase == M.Idle
      ensures X.FullStart(s) == M.Initiate(M.ClearMarks(s))
    {
    }

    /** GC_maybe_gc makes a full collection. */
    predicate FullDue(needFullGc: bool, fullFreq: nat) reads this, gc {
      !gc.incremental || needFullGc || fullFreq <= partialGcs
    }
  }
}
